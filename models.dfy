/**
 * The quiz application's stored entities (questions, attempts, per-question answers) and the
 * user profile whose statistics are recomputed from the attempt history.
 */
module QuizModels {
  import opened Wrappers

  /** A stored question row. `order` is its 1-based display position within its quiz. */
  datatype Question = Question(
    id: nat,
    quizId: nat,
    questionText: string,
    optionA: string,
    optionB: string,
    optionC: string,
    optionD: string,
    correctOption: int,
    explanation: string,
    order: int)

  /** The choices declared for `correct_option`: A, B, C, D as 0, 1, 2, 3. */
  predicate IsOptionIndex(i: int) {
    0 <= i <= 3
  }

  /** `Question.options`: the four option columns as one list. */
  function Options(q: Question): (r: seq<string>)
    ensures |r| == 4
  {
    [q.optionA, q.optionB, q.optionC, q.optionD]
  }

  /** One scored pass through a quiz. */
  datatype QuizAttempt = QuizAttempt(
    id: nat,
    userId: nat,
    quizId: nat,
    score: int,
    totalQuestions: int,
    scorePercentage: int)

  /** The answer recorded for one question of an attempt; -1 marks "no selection". */
  datatype UserAnswer = UserAnswer(
    attemptId: nat,
    questionId: nat,
    selectedOption: int,
    isCorrect: bool)

  const Unanswered: int := -1

  // ---------------------------------------------------------------------------
  // Profile statistics
  // ---------------------------------------------------------------------------

  /** The three aggregate columns of a profile. */
  datatype Stats = Stats(totalQuizzesTaken: int, averageScore: real, bestScore: int)

  /** The profile's defaults before any refresh. */
  const InitialStats: Stats := Stats(0, 0.0, 0)

  function Sum(s: seq<int>): int {
    if s == [] then 0 else s[0] + Sum(s[1..])
  }

  /** Python's `max` over a non-empty sequence. */
  function MaxOf(s: seq<int>): (m: int)
    requires |s| > 0
    ensures forall i :: 0 <= i < |s| ==> s[i] <= m
    ensures m in s
  {
    if |s| == 1 then s[0]
    else
      var rest := MaxOf(s[1..]);
      if s[0] >= rest then s[0] else rest
  }

  /** Python's true division `sum(s) / len(s)`, taken as an exact real. */
  function Mean(s: seq<int>): real
    requires |s| > 0
  {
    Sum(s) as real / |s| as real
  }

  /** The attempts that belong to one user (`user.quiz_attempts.all()`), in stored order. */
  function UserAttempts(all: seq<QuizAttempt>, userId: nat): (r: seq<QuizAttempt>)
    ensures forall a :: a in r <==> a in all && a.userId == userId
    ensures |r| <= |all|
  {
    if all == [] then []
    else (if all[0].userId == userId then [all[0]] else []) + UserAttempts(all[1..], userId)
  }

  /** Each of the user's attempts is listed as often as it is stored; no other attempt is listed. */
  lemma {:induction false} UserAttemptsCounts(all: seq<QuizAttempt>, userId: nat)
    ensures forall a :: multiset(UserAttempts(all, userId))[a] == if a.userId == userId then multiset(all)[a] else 0
  {
    if all != [] {
      UserAttemptsCounts(all[1..], userId);
      assert all == [all[0]] + all[1..];
    }
  }

  /** The user's attempts over two stored blocks are those of the first block, then those of the second. */
  lemma {:induction false} UserAttemptsAppend(a: seq<QuizAttempt>, b: seq<QuizAttempt>, userId: nat)
    ensures UserAttempts(a + b, userId) == UserAttempts(a, userId) + UserAttempts(b, userId)
  {
    if a == [] {
      assert a + b == b;
    } else {
      assert (a + b)[0] == a[0];
      assert (a + b)[1..] == a[1..] + b;
      UserAttemptsAppend(a[1..], b, userId);
      var head := if a[0].userId == userId then [a[0]] else [];
      calc {
        UserAttempts(a + b, userId);
        head + UserAttempts(a[1..] + b, userId);
        head + (UserAttempts(a[1..], userId) + UserAttempts(b, userId));
        (head + UserAttempts(a[1..], userId)) + UserAttempts(b, userId);
        UserAttempts(a, userId) + UserAttempts(b, userId);
      }
    }
  }

  /** A new attempt of the user goes last in the user's attempts; another user's attempt is not listed. */
  lemma UserAttemptsSnoc(all: seq<QuizAttempt>, a: QuizAttempt, userId: nat)
    ensures UserAttempts(all + [a], userId)
      == UserAttempts(all, userId) + (if a.userId == userId then [a] else [])
  {
    UserAttemptsAppend(all, [a], userId);
    assert [a][1..] == [];
  }

  function Percentages(attempts: seq<QuizAttempt>): (r: seq<int>)
    ensures |r| == |attempts|
    ensures forall i :: 0 <= i < |r| ==> r[i] == attempts[i].scorePercentage
  {
    if attempts == [] then [] else [attempts[0].scorePercentage] + Percentages(attempts[1..])
  }

  lemma {:induction false} SumAtMostCountTimesBound(s: seq<int>, hi: int)
    requires forall i :: 0 <= i < |s| ==> s[i] <= hi
    ensures Sum(s) <= |s| * hi
  {
    if s != [] {
      SumAtMostCountTimesBound(s[1..], hi);
      assert (|s| - 1) * hi + hi == |s| * hi;
    }
  }

  lemma {:induction false} SumAtLeastCountTimesBound(s: seq<int>, lo: int)
    requires forall i :: 0 <= i < |s| ==> lo <= s[i]
    ensures |s| * lo <= Sum(s)
  {
    if s != [] {
      SumAtLeastCountTimesBound(s[1..], lo);
      assert (|s| - 1) * lo + lo == |s| * lo;
    }
  }

  /** A quotient by a positive count stays below a bound when the dividend stays below count times it. */
  lemma DivideBelow(x: int, n: int, b: int)
    requires n > 0 && x <= n * b
    ensures x as real / n as real <= b as real
  {
    var q := x as real / n as real;
    assert q * n as real == x as real;
    assert (n * b) as real == n as real * b as real;
    if q > b as real {
      assert q * n as real > b as real * n as real;
    }
  }

  lemma MeanAtMostMax(s: seq<int>)
    requires |s| > 0
    ensures Mean(s) <= MaxOf(s) as real
  {
    SumAtMostCountTimesBound(s, MaxOf(s));
    DivideBelow(Sum(s), |s|, MaxOf(s));
  }

  /**
   * `update_stats` on the values it reads: with no attempts nothing changes; otherwise the count,
   * the mean and the maximum of all percentages replace the old columns.
   */
  function Refreshed(old_: Stats, pcts: seq<int>): (r: Stats)
    ensures |pcts| == 0 ==> r == old_
    ensures |pcts| > 0 ==>
      && r.totalQuizzesTaken == |pcts|
      && r.averageScore == Sum(pcts) as real / |pcts| as real
      && (forall i :: 0 <= i < |pcts| ==> pcts[i] <= r.bestScore)
      && r.bestScore in pcts
      && r.averageScore <= r.bestScore as real
  {
    if |pcts| == 0 then old_
    else
      MeanAtMostMax(pcts);
      Stats(|pcts|, Mean(pcts), MaxOf(pcts))
  }

  /** Recomputing from the full history a second time changes nothing. */
  lemma RefreshedIdempotent(s: Stats, pcts: seq<int>)
    ensures Refreshed(Refreshed(s, pcts), pcts) == Refreshed(s, pcts)
  {
  }

  /** Every recomputed column stays a percentage when every attempt's percentage is one. */
  lemma RefreshedWithinPercentRange(s: Stats, pcts: seq<int>)
    requires |pcts| > 0
    requires forall i :: 0 <= i < |pcts| ==> 0 <= pcts[i] <= 100
    ensures 0.0 <= Refreshed(s, pcts).averageScore <= 100.0
    ensures 0 <= Refreshed(s, pcts).bestScore <= 100
  {
    SumAtLeastCountTimesBound(pcts, 0);
    SumAtMostCountTimesBound(pcts, 100);
    DivideBelow(Sum(pcts), |pcts|, 100);
    var q := Sum(pcts) as real / |pcts| as real;
    assert q * |pcts| as real == Sum(pcts) as real;
  }

  /** The profile row: its owner, flags and the three statistics `update_stats` rewrites. */
  class UserProfile {
    const userId: nat
    var isAdmin: bool
    var avatar: Option<string>
    var totalQuizzesTaken: int
    var averageScore: real
    var bestScore: int

    constructor (userId: nat)
      ensures this.userId == userId && !isAdmin && avatar == None
      ensures CurrentStats() == InitialStats
    {
      this.userId := userId;
      isAdmin := false;
      avatar := None;
      totalQuizzesTaken := 0;
      averageScore := 0.0;
      bestScore := 0;
    }

    function CurrentStats(): Stats
      reads this
    {
      Stats(totalQuizzesTaken, averageScore, bestScore)
    }

    /** `update_stats`: recompute the statistics from every attempt of this profile's user. */
    method UpdateStats(allAttempts: seq<QuizAttempt>)
      modifies this
      ensures CurrentStats() == Refreshed(old(CurrentStats()), Percentages(UserAttempts(allAttempts, userId)))
      ensures isAdmin == old(isAdmin) && avatar == old(avatar)
    {
      var attempts := UserAttempts(allAttempts, userId);
      if |attempts| > 0 {
        var pcts := Percentages(attempts);
        totalQuizzesTaken := |attempts|;
        averageScore := Sum(pcts) as real / |attempts| as real;
        bestScore := MaxOf(pcts);
      }
    }
  }
}
