/**
 * The request handlers that change stored data: storing a generated quiz, grading a submission,
 * registering an account and deleting a theme. The database is an object holding one sequence
 * per table; a row's auto-increment id is its 1-based position, except for themes, which can
 * be deleted.
 */
module QuizViews {
  import opened Wrappers
  import opened QuizModels

  datatype Quiz = Quiz(id: nat, owner: nat, topic: string, difficulty: string, language: string)

  /** One validated generated question, as the generator hands it to the view. */
  datatype QuestionData = QuestionData(
    question: string, options: seq<string>, correctIndex: int, explanation: string)

  datatype Account = Account(id: nat, username: string, email: string, password: string)

  datatype Theme = Theme(id: nat, name: string, isActive: bool)

  /** A posted answer value: one that `int()` accepts, or one it rejects with `ValueError`. */
  datatype Posted = Numeric(value: int) | NotANumber

  /**
   * Why a submission stopped: the quiz is missing or not the user's, or a posted value could not
   * be stored, because `int()` rejects it or the 64-bit INTEGER column cannot hold it.
   */
  datatype SubmitError = QuizNotFound | AnswerRejected

  datatype RegisterError = PasswordsDiffer | UsernameTaken | EmailTaken

  datatype DeleteThemeOutcome = PermissionDenied | ThemeNotFound | ActiveThemeKept | ThemeDeleted

  // ---------------------------------------------------------------------------
  // Storing generated questions
  // ---------------------------------------------------------------------------

  /** The row `Question.objects.create` writes for the generated item at 1-based position `order`. */
  function QuestionRow(id: nat, quizId: nat, d: QuestionData, order: int): Question
    requires |d.options| == 4
  {
    Question(id, quizId, d.question, d.options[0], d.options[1], d.options[2], d.options[3],
             d.correctIndex, d.explanation, order)
  }

  /** Reading a stored question's options back gives the generated options, in order. */
  lemma QuestionRowRoundTrip(id: nat, quizId: nat, d: QuestionData, order: int)
    requires |d.options| == 4
    ensures Options(QuestionRow(id, quizId, d, order)) == d.options
    ensures QuestionRow(id, quizId, d, order).correctOption == d.correctIndex
    ensures QuestionRow(id, quizId, d, order).order == order
  {
    var o := Options(QuestionRow(id, quizId, d, order));
    assert forall i :: 0 <= i < 4 ==> o[i] == d.options[i];
  }

  /** `quiz.questions.all()`: the rows that belong to one quiz, in stored order. */
  function QuizQuestions(qs: seq<Question>, quizId: nat): (r: seq<Question>)
    ensures forall q :: q in r <==> q in qs && q.quizId == quizId
  {
    if qs == [] then []
    else (if qs[0].quizId == quizId then [qs[0]] else []) + QuizQuestions(qs[1..], quizId)
  }

  lemma {:induction false} QuizQuestionsAppend(a: seq<Question>, b: seq<Question>, quizId: nat)
    ensures QuizQuestions(a + b, quizId) == QuizQuestions(a, quizId) + QuizQuestions(b, quizId)
  {
    if a == [] {
      assert a + b == b;
    } else {
      assert (a + b)[0] == a[0];
      assert (a + b)[1..] == a[1..] + b;
      QuizQuestionsAppend(a[1..], b, quizId);
      var head := if a[0].quizId == quizId then [a[0]] else [];
      calc {
        QuizQuestions(a + b, quizId);
        head + QuizQuestions(a[1..] + b, quizId);
        head + (QuizQuestions(a[1..], quizId) + QuizQuestions(b, quizId));
        (head + QuizQuestions(a[1..], quizId)) + QuizQuestions(b, quizId);
        QuizQuestions(a, quizId) + QuizQuestions(b, quizId);
      }
    }
  }

  lemma {:induction false} QuizQuestionsAllOf(qs: seq<Question>, quizId: nat)
    requires forall i :: 0 <= i < |qs| ==> qs[i].quizId == quizId
    ensures QuizQuestions(qs, quizId) == qs
  {
    if qs != [] {
      QuizQuestionsAllOf(qs[1..], quizId);
    }
  }

  lemma {:induction false} QuizQuestionsNoneOf(qs: seq<Question>, quizId: nat)
    requires forall i :: 0 <= i < |qs| ==> qs[i].quizId != quizId
    ensures QuizQuestions(qs, quizId) == []
  {
    if qs != [] {
      QuizQuestionsNoneOf(qs[1..], quizId);
    }
  }

  /** Rows written for a fresh quiz id are exactly that quiz's questions, in the order written. */
  lemma FreshQuizQuestions(existing: seq<Question>, rows: seq<Question>, quizId: nat)
    requires forall i :: 0 <= i < |existing| ==> existing[i].quizId != quizId
    requires forall i :: 0 <= i < |rows| ==> rows[i].quizId == quizId
    ensures QuizQuestions(existing + rows, quizId) == rows
  {
    QuizQuestionsAppend(existing, rows, quizId);
    QuizQuestionsNoneOf(existing, quizId);
    QuizQuestionsAllOf(rows, quizId);
  }

  // ---------------------------------------------------------------------------
  // Grading
  // ---------------------------------------------------------------------------

  /**
   * SQLite stores an INTEGER in a signed 64-bit word; Python's `sqlite3` raises `OverflowError`
   * when asked to bind an int outside that range.
   */
  predicate Storable(v: int) {
    -0x8000_0000_0000_0000 <= v < 0x8000_0000_0000_0000
  }

  /** The posted value for `q`, if any, is a number that `UserAnswer.objects.create` can store. */
  predicate Readable(q: Question, posted: map<nat, Posted>) {
    q.id in posted ==> posted[q.id].Numeric? && Storable(posted[q.id].value)
  }

  predicate AllReadable(qs: seq<Question>, posted: map<nat, Posted>) {
    forall i :: 0 <= i < |qs| ==> Readable(qs[i], posted)
  }

  /** The answer row recorded for one question: the posted choice, or -1 when none was posted. */
  function AnswerRow(attemptId: nat, q: Question, posted: map<nat, Posted>): UserAnswer
    requires Readable(q, posted)
  {
    if q.id in posted then
      var v := posted[q.id].value;
      UserAnswer(attemptId, q.id, v, v == q.correctOption)
    else UserAnswer(attemptId, q.id, Unanswered, false)
  }

  /** The rows the grading loop writes for `qs`, one per question. */
  function Grade(attemptId: nat, qs: seq<Question>, posted: map<nat, Posted>): seq<UserAnswer>
    requires AllReadable(qs, posted)
  {
    if qs == [] then []
    else
      var n := |qs| - 1;
      assert AllReadable(qs[..n], posted) by {
        forall i | 0 <= i < n ensures Readable(qs[..n][i], posted) {
          assert qs[..n][i] == qs[i];
        }
      }
      Grade(attemptId, qs[..n], posted) + [AnswerRow(attemptId, qs[n], posted)]
  }

  function CorrectCount(rows: seq<UserAnswer>): nat {
    if rows == [] then 0
    else CorrectCount(rows[..|rows| - 1]) + (if rows[|rows| - 1].isCorrect then 1 else 0)
  }

  /** The attempt's percentage: the floor of `score * 100 / total`, or 0 for an empty quiz. */
  function ScorePercentage(score: int, total: int): int {
    if total > 0 then (score * 100) / total else 0
  }

  /** The position of the first question whose posted value cannot be stored, or `|qs|`. */
  function FirstUnreadable(qs: seq<Question>, posted: map<nat, Posted>): (k: nat)
    ensures k <= |qs|
    ensures forall i :: 0 <= i < k ==> Readable(qs[i], posted)
    ensures k < |qs| ==> !Readable(qs[k], posted)
  {
    if qs == [] then 0
    else if !Readable(qs[0], posted) then 0
    else 1 + FirstUnreadable(qs[1..], posted)
  }

  /** Grading one more question appends its row. */
  lemma GradeSnoc(attemptId: nat, qs: seq<Question>, i: nat, posted: map<nat, Posted>)
    requires i < |qs|
    requires forall j :: 0 <= j <= i ==> Readable(qs[j], posted)
    ensures AllReadable(qs[..i], posted) && AllReadable(qs[..i + 1], posted)
    ensures Grade(attemptId, qs[..i + 1], posted)
      == Grade(attemptId, qs[..i], posted) + [AnswerRow(attemptId, qs[i], posted)]
  {
    assert qs[..i + 1][..i] == qs[..i];
    assert qs[..i + 1][i] == qs[i];
  }

  lemma {:induction false} FirstUnreadableAt(qs: seq<Question>, posted: map<nat, Posted>, k: nat)
    requires k < |qs|
    requires forall i :: 0 <= i < k ==> Readable(qs[i], posted)
    requires !Readable(qs[k], posted)
    ensures FirstUnreadable(qs, posted) == k
  {
    if k > 0 {
      FirstUnreadableAt(qs[1..], posted, k - 1);
    }
  }

  /**
   * Every question gets exactly one row, in question order: the posted choice and whether it
   * equals the correct option, or -1 and incorrect when nothing was posted for it.
   */
  lemma {:induction false} GradeOneRowPerQuestion(attemptId: nat, qs: seq<Question>, posted: map<nat, Posted>)
    requires AllReadable(qs, posted)
    ensures var rows := Grade(attemptId, qs, posted);
      && |rows| == |qs|
      && forall i :: 0 <= i < |qs| ==>
           && rows[i].attemptId == attemptId
           && rows[i].questionId == qs[i].id
           && (qs[i].id !in posted ==> rows[i].selectedOption == -1 && !rows[i].isCorrect)
           && (qs[i].id in posted ==>
                 rows[i].selectedOption == posted[qs[i].id].value
                 && rows[i].isCorrect == (posted[qs[i].id].value == qs[i].correctOption))
  {
    if qs != [] {
      var n := |qs| - 1;
      assert AllReadable(qs[..n], posted) by {
        forall i | 0 <= i < n ensures Readable(qs[..n][i], posted) {
          assert qs[..n][i] == qs[i];
        }
      }
      GradeOneRowPerQuestion(attemptId, qs[..n], posted);
    }
  }

  /** Every question before the first unreadable one is readable. */
  lemma ReadablePrefix(qs: seq<Question>, posted: map<nat, Posted>)
    ensures AllReadable(qs[..FirstUnreadable(qs, posted)], posted)
  {
    var k := FirstUnreadable(qs, posted);
    forall i | 0 <= i < k ensures Readable(qs[..k][i], posted) {
      assert qs[..k][i] == qs[i];
    }
  }

  /** Every graded row belongs to the attempt it was graded for. */
  lemma RowsOfAttempt(attemptId: nat, qs: seq<Question>, posted: map<nat, Posted>)
    requires AllReadable(qs, posted)
    ensures forall i :: 0 <= i < |Grade(attemptId, qs, posted)| ==> Grade(attemptId, qs, posted)[i].attemptId == attemptId
  {
    GradeOneRowPerQuestion(attemptId, qs, posted);
  }

  lemma {:induction false} CorrectCountBounds(rows: seq<UserAnswer>)
    ensures CorrectCount(rows) <= |rows|
    ensures CorrectCount(rows) == |rows| <==> forall i :: 0 <= i < |rows| ==> rows[i].isCorrect
    ensures CorrectCount(rows) == 0 <==> forall i :: 0 <= i < |rows| ==> !rows[i].isCorrect
  {
    if rows != [] {
      var n := |rows| - 1;
      CorrectCountBounds(rows[..n]);
      assert forall i :: 0 <= i < n ==> rows[..n][i] == rows[i];
    }
  }

  /**
   * A posted value one past the largest 64-bit integer stops grading at its question, as the
   * insert raises there; the largest 64-bit integer itself is stored as an incorrect answer.
   */
  lemma SixtyFourBitAnswerBoundary(quizId: nat)
    ensures var q := Question(1, quizId, "", "", "", "", "", 0, "", 1);
      && FirstUnreadable([q], map[1 := Numeric(0x8000_0000_0000_0000)]) == 0
      && FirstUnreadable([q], map[1 := Numeric(0x7FFF_FFFF_FFFF_FFFF)]) == 1
      && Grade(5, [q], map[1 := Numeric(0x7FFF_FFFF_FFFF_FFFF)])
           == [UserAnswer(5, 1, 0x7FFF_FFFF_FFFF_FFFF, false)]
  {
    var q := Question(1, quizId, "", "", "", "", "", 0, "", 1);
    assert [q][1..] == [];
    assert [q][..0] == [];
  }

  /** The graded score of a whole quiz is at most its question count. */
  lemma GradedScoreBound(attemptId: nat, qs: seq<Question>, posted: map<nat, Posted>)
    requires AllReadable(qs, posted)
    ensures CorrectCount(Grade(attemptId, qs, posted)) <= |qs|
  {
    GradeOneRowPerQuestion(attemptId, qs, posted);
    CorrectCountBounds(Grade(attemptId, qs, posted));
  }

  /** Cancelling a positive factor from a strict inequality. */
  lemma MulStrictCancel(c: int, a: int, b: int)
    requires c > 0 && c * a < c * b
    ensures a < b
  {
  }

  lemma ScorePercentageBounds(score: int, total: int)
    requires 0 <= score <= total
    ensures 0 <= ScorePercentage(score, total) <= 100
    ensures total > 0 && score == total ==> ScorePercentage(score, total) == 100
    ensures score == 0 ==> ScorePercentage(score, total) == 0
  {
    if total > 0 {
      var x := score * 100;
      var p := x / total;
      var r := x % total;
      assert x == total * p + r && 0 <= r < total;
      MulStrictCancel(total, -1, p);
      assert x <= total * 100;
      MulStrictCancel(total, p, 101);
      if score == total {
        assert total * p > total * 99;
        MulStrictCancel(total, 99, p);
      }
    }
  }

  /** Answering every question correctly scores all of them and 100 percent. */
  lemma AllCorrectFullMarks(attemptId: nat, qs: seq<Question>, posted: map<nat, Posted>)
    requires |qs| > 0
    requires forall i :: 0 <= i < |qs| ==> IsOptionIndex(qs[i].correctOption)
    requires forall i :: 0 <= i < |qs| ==>
      qs[i].id in posted && posted[qs[i].id] == Numeric(qs[i].correctOption)
    ensures AllReadable(qs, posted)
    ensures CorrectCount(Grade(attemptId, qs, posted)) == |qs|
    ensures ScorePercentage(CorrectCount(Grade(attemptId, qs, posted)), |qs|) == 100
  {
    assert AllReadable(qs, posted) by {
      forall i | 0 <= i < |qs| ensures Readable(qs[i], posted) {
        assert qs[i].id in posted && posted[qs[i].id] == Numeric(qs[i].correctOption);
        assert IsOptionIndex(qs[i].correctOption);
      }
    }
    var rows := Grade(attemptId, qs, posted);
    GradeOneRowPerQuestion(attemptId, qs, posted);
    CorrectCountBounds(rows);
    assert forall i :: 0 <= i < |rows| ==> rows[i].isCorrect;
    ScorePercentageBounds(|qs|, |qs|);
  }

  /** Answering nothing scores 0 and 0 percent. */
  lemma NothingAnsweredScoresZero(attemptId: nat, qs: seq<Question>, posted: map<nat, Posted>)
    requires forall i :: 0 <= i < |qs| ==> qs[i].id !in posted
    ensures CorrectCount(Grade(attemptId, qs, posted)) == 0
    ensures ScorePercentage(CorrectCount(Grade(attemptId, qs, posted)), |qs|) == 0
  {
    assert AllReadable(qs, posted) by {
      forall i | 0 <= i < |qs| ensures Readable(qs[i], posted) {
        assert qs[i].id !in posted;
      }
    }
    var rows := Grade(attemptId, qs, posted);
    GradeOneRowPerQuestion(attemptId, qs, posted);
    forall i | 0 <= i < |rows| ensures !rows[i].isCorrect {
      assert qs[i].id !in posted;
    }
    CorrectCountBounds(rows);
    ScorePercentageBounds(0, |qs|);
  }

  /**
   * Four questions with correct options 0, 1, 2, 3; the posted answers are 0, 1 and the
   * out-of-range 9, and nothing for the last: two correct, 50 percent, and no error.
   */
  lemma FourQuestionScenario(quizId: nat)
    ensures
      var qs := seq(4, i requires 0 <= i < 4 => Question(i + 1, quizId, "", "", "", "", "", i, "", i + 1));
      var posted := map[1 := Numeric(0), 2 := Numeric(1), 3 := Numeric(9)];
      var rows := Grade(7, qs, posted);
      && |rows| == 4
      && CorrectCount(rows) == 2
      && ScorePercentage(CorrectCount(rows), 4) == 50
      && rows[2].selectedOption == 9 && !rows[2].isCorrect
      && rows[3].selectedOption == -1 && !rows[3].isCorrect
  {
    var qs := seq(4, i requires 0 <= i < 4 => Question(i + 1, quizId, "", "", "", "", "", i, "", i + 1));
    var posted := map[1 := Numeric(0), 2 := Numeric(1), 3 := Numeric(9)];
    assert AllReadable(qs, posted);
    GradeOneRowPerQuestion(7, qs, posted);
    var rows := Grade(7, qs, posted);
    assert rows[..3][..2][..1][..0] == [];
    assert rows[..3][..2][..1] == rows[..1];
    assert rows[..3][..2] == rows[..2];
    assert rows[..3] == rows[..3][..3];
    assert CorrectCount(rows[..1]) == 1;
    assert CorrectCount(rows[..2]) == 2;
    assert CorrectCount(rows[..3]) == 2;
    assert rows[..4] == rows;
  }

  // ---------------------------------------------------------------------------
  // Registration
  // ---------------------------------------------------------------------------

  predicate UsernameExists(accounts: seq<Account>, username: string) {
    exists i | 0 <= i < |accounts| :: accounts[i].username == username
  }

  predicate EmailExists(accounts: seq<Account>, email: string) {
    exists i | 0 <= i < |accounts| :: accounts[i].email == email
  }

  /** The first check of `register_view` that rejects the form, in the order the view runs them. */
  function RegistrationError(accounts: seq<Account>, username: string, email: string,
                             password: string, confirm: string): (e: Option<RegisterError>)
    ensures e == Some(PasswordsDiffer) <==> password != confirm
    ensures e == Some(UsernameTaken) <==> password == confirm && UsernameExists(accounts, username)
    ensures e == Some(EmailTaken) <==>
      password == confirm && !UsernameExists(accounts, username) && EmailExists(accounts, email)
    ensures e == None <==>
      password == confirm && !UsernameExists(accounts, username) && !EmailExists(accounts, email)
  {
    if password != confirm then Some(PasswordsDiffer)
    else if UsernameExists(accounts, username) then Some(UsernameTaken)
    else if EmailExists(accounts, email) then Some(EmailTaken)
    else None
  }

  /** No two accounts share a username or an email. */
  predicate UniqueAccounts(accounts: seq<Account>) {
    forall i, j :: 0 <= i < j < |accounts| ==>
      accounts[i].username != accounts[j].username && accounts[i].email != accounts[j].email
  }

  /** Accepting a registration keeps usernames and emails unique, and the same username is refused next time. */
  lemma RegistrationKeepsAccountsUnique(accounts: seq<Account>, a: Account, confirm: string)
    requires UniqueAccounts(accounts)
    requires RegistrationError(accounts, a.username, a.email, a.password, confirm) == None
    ensures UniqueAccounts(accounts + [a])
    ensures forall e: string, p: string ::
      RegistrationError(accounts + [a], a.username, e, p, p) == Some(UsernameTaken)
  {
    var all := accounts + [a];
    forall i, j | 0 <= i < j < |all|
      ensures all[i].username != all[j].username && all[i].email != all[j].email
    {
      if j == |accounts| {
        assert all[i] == accounts[i];
      }
    }
    assert all[|accounts|].username == a.username;
  }

  // ---------------------------------------------------------------------------
  // Themes
  // ---------------------------------------------------------------------------

  function FindTheme(themes: seq<Theme>, id: nat): (r: Option<nat>)
    ensures r.Some? ==> r.value < |themes| && themes[r.value].id == id
    ensures r.None? ==> forall i :: 0 <= i < |themes| ==> themes[i].id != id
  {
    if themes == [] then None
    else if themes[|themes| - 1].id == id then Some(|themes| - 1)
    else FindTheme(themes[..|themes| - 1], id)
  }

  function RemoveTheme(themes: seq<Theme>, id: nat): (r: seq<Theme>)
    ensures forall t :: t in r <==> t in themes && t.id != id
  {
    if themes == [] then []
    else (if themes[0].id == id then [] else [themes[0]]) + RemoveTheme(themes[1..], id)
  }

  predicate UniqueThemeIds(themes: seq<Theme>) {
    forall i, j :: 0 <= i < j < |themes| ==> themes[i].id != themes[j].id
  }

  // ---------------------------------------------------------------------------
  // The database
  // ---------------------------------------------------------------------------

  predicate QuizIdsFollowPositions(quizzes: seq<Quiz>) {
    forall i :: 0 <= i < |quizzes| ==> quizzes[i].id == i + 1
  }

  /** Each question names one of `quizCount` quizzes and has one of the four declared choices as its answer. */
  predicate QuestionsValid(questions: seq<Question>, quizCount: nat) {
    forall i :: 0 <= i < |questions| ==>
      1 <= questions[i].quizId <= quizCount && IsOptionIndex(questions[i].correctOption)
  }

  /** The score is at most the question count and the percentage is the one computed from them. */
  predicate ScoreValid(a: QuizAttempt) {
    0 <= a.score <= a.totalQuestions && a.scorePercentage == ScorePercentage(a.score, a.totalQuestions)
  }

  /** Attempt ids follow positions, each attempt names one of `quizCount` quizzes and has a valid score. */
  predicate AttemptsValid(attempts: seq<QuizAttempt>, quizCount: nat) {
    forall i :: 0 <= i < |attempts| ==>
      attempts[i].id == i + 1 && 1 <= attempts[i].quizId <= quizCount && ScoreValid(attempts[i])
  }

  predicate AnswersReferTo(answers: seq<UserAnswer>, attemptCount: nat) {
    forall i :: 0 <= i < |answers| ==> 1 <= answers[i].attemptId <= attemptCount
  }

  lemma QuizAppendValid(quizzes: seq<Quiz>, q: Quiz)
    requires QuizIdsFollowPositions(quizzes)
    requires q.id == |quizzes| + 1
    ensures QuizIdsFollowPositions(quizzes + [q])
  {
    var all := quizzes + [q];
    forall i | 0 <= i < |all| ensures all[i].id == i + 1 {
      if i < |quizzes| {
        assert all[i] == quizzes[i];
      }
    }
  }

  lemma QuestionAppendValid(questions: seq<Question>, q: Question, quizCount: nat)
    requires QuestionsValid(questions, quizCount)
    requires 1 <= q.quizId <= quizCount && IsOptionIndex(q.correctOption)
    ensures QuestionsValid(questions + [q], quizCount)
  {
    var all := questions + [q];
    forall i | 0 <= i < |all| ensures 1 <= all[i].quizId <= quizCount && IsOptionIndex(all[i].correctOption) {
      if i < |questions| {
        assert all[i] == questions[i];
      }
    }
  }

  lemma AttemptsAppendValid(attempts: seq<QuizAttempt>, a: QuizAttempt, quizCount: nat)
    requires AttemptsValid(attempts, quizCount)
    requires a.id == |attempts| + 1 && 1 <= a.quizId <= quizCount && ScoreValid(a)
    ensures AttemptsValid(attempts + [a], quizCount)
  {
    var all := attempts + [a];
    forall i | 0 <= i < |all| ensures all[i].id == i + 1 && 1 <= all[i].quizId <= quizCount && ScoreValid(all[i]) {
      if i < |attempts| {
        assert all[i] == attempts[i];
      }
    }
  }

  lemma AnswersAppendValid(answers: seq<UserAnswer>, rows: seq<UserAnswer>, attemptId: nat, attemptCount: nat)
    requires 1 <= attemptId <= attemptCount
    requires AnswersReferTo(answers, attemptId - 1)
    requires forall i :: 0 <= i < |rows| ==> rows[i].attemptId == attemptId
    ensures AnswersReferTo(answers + rows, attemptCount)
  {
    var all := answers + rows;
    forall i | 0 <= i < |all| ensures 1 <= all[i].attemptId <= attemptCount {
      if i < |answers| {
        assert all[i] == answers[i];
      } else {
        assert all[i] == rows[i - |answers|];
      }
    }
  }

  /** The attempts name existing quizzes and the answer rows name existing attempts. */
  predicate AttemptTablesValid(attempts: seq<QuizAttempt>, answers: seq<UserAnswer>, quizCount: nat) {
    AttemptsValid(attempts, quizCount) && AnswersReferTo(answers, |attempts|)
  }

  /** Quiz ids follow positions, and questions, attempts and answer rows name existing rows. */
  predicate QuizTablesValid(quizzes: seq<Quiz>, questions: seq<Question>, attempts: seq<QuizAttempt>,
                            answers: seq<UserAnswer>) {
    && QuizIdsFollowPositions(quizzes)
    && QuestionsValid(questions, |quizzes|)
    && AttemptTablesValid(attempts, answers, |quizzes|)
  }

  /** Attempts that name one of `n` quizzes name one of `n + 1`. */
  lemma AttemptTablesWiden(attempts: seq<QuizAttempt>, answers: seq<UserAnswer>, n: nat)
    requires AttemptTablesValid(attempts, answers, n)
    ensures AttemptTablesValid(attempts, answers, n + 1)
  {
  }

  /**
   * Storing an attempt together with the rows graded before the first unstorable answer keeps
   * the quiz tables valid.
   */
  lemma GradedAttemptValid(quizzes: seq<Quiz>, questions: seq<Question>, attempts: seq<QuizAttempt>,
                           answers: seq<UserAnswer>, a: QuizAttempt, qs: seq<Question>, posted: map<nat, Posted>)
    requires QuizTablesValid(quizzes, questions, attempts, answers)
    requires a.id == |attempts| + 1 && 1 <= a.quizId <= |quizzes| && ScoreValid(a)
    ensures AllReadable(qs[..FirstUnreadable(qs, posted)], posted)
    ensures QuizTablesValid(quizzes, questions, attempts + [a],
                            answers + Grade(a.id, qs[..FirstUnreadable(qs, posted)], posted))
  {
    var k := FirstUnreadable(qs, posted);
    ReadablePrefix(qs, posted);
    RowsOfAttempt(a.id, qs[..k], posted);
    AttemptWrittenValid(quizzes, questions, attempts, answers, a, Grade(a.id, qs[..k], posted));
  }

  /** Every stored attempt of a user has a percentage within 0..100. */
  lemma StoredPercentagesInRange(attempts: seq<QuizAttempt>, quizCount: nat, userId: nat)
    requires AttemptsValid(attempts, quizCount)
    ensures var pcts := Percentages(UserAttempts(attempts, userId));
      forall i :: 0 <= i < |pcts| ==> 0 <= pcts[i] <= 100
  {
    var mine := UserAttempts(attempts, userId);
    var pcts := Percentages(mine);
    forall i | 0 <= i < |pcts| ensures 0 <= pcts[i] <= 100 {
      assert mine[i] in mine;
      var j :| 0 <= j < |attempts| && attempts[j] == mine[i];
      assert ScoreValid(attempts[j]);
      ScorePercentageBounds(attempts[j].score, attempts[j].totalQuestions);
    }
  }

  /** Appending an attempt and rows that name it keeps the quiz tables valid. */
  lemma AttemptWrittenValid(quizzes: seq<Quiz>, questions: seq<Question>, attempts: seq<QuizAttempt>,
                            answers: seq<UserAnswer>, a: QuizAttempt, rows: seq<UserAnswer>)
    requires QuizTablesValid(quizzes, questions, attempts, answers)
    requires a.id == |attempts| + 1 && 1 <= a.quizId <= |quizzes| && ScoreValid(a)
    requires forall i :: 0 <= i < |rows| ==> rows[i].attemptId == a.id
    ensures QuizTablesValid(quizzes, questions, attempts + [a], answers + rows)
  {
    AttemptsAppendValid(attempts, a, |quizzes|);
    AnswersAppendValid(answers, rows, a.id, |attempts| + 1);
  }

  /** Account ids follow positions and usernames and emails are unique. */
  predicate AccountsValid(accounts: seq<Account>) {
    (forall i :: 0 <= i < |accounts| ==> accounts[i].id == i + 1) && UniqueAccounts(accounts)
  }

  class Database {
    var quizzes: seq<Quiz>
    var questions: seq<Question>
    var attempts: seq<QuizAttempt>
    var answers: seq<UserAnswer>
    var accounts: seq<Account>
    var themes: seq<Theme>

    /** Ids follow positions and every foreign key names an existing row. */
    ghost predicate Valid()
      reads this
    {
      && QuizTablesValid(quizzes, questions, attempts, answers)
      && AccountsValid(accounts)
      && UniqueThemeIds(themes)
    }

    constructor ()
      ensures Valid()
      ensures quizzes == [] && questions == [] && attempts == [] && answers == []
      ensures accounts == [] && themes == []
    {
      quizzes, questions, attempts, answers, accounts, themes := [], [], [], [], [], [];
    }

    /**
     * `generate_quiz_view` after generation succeeded: create the quiz, then one question row per
     * generated item with `order` its 1-based position.
     */
    method GenerateQuiz(owner: nat, topic: string, difficulty: string, language: string,
                        data: seq<QuestionData>) returns (quizId: nat)
      requires Valid()
      requires forall i :: 0 <= i < |data| ==> |data[i].options| == 4 && IsOptionIndex(data[i].correctIndex)
      modifies this`quizzes, this`questions
      ensures Valid()
      ensures quizId == |old(quizzes)| + 1
      ensures quizzes == old(quizzes) + [Quiz(quizId, owner, topic, difficulty, language)]
      ensures |questions| == |old(questions)| + |data|
      ensures questions[..|old(questions)|] == old(questions)
      ensures
        var stored := QuizQuestions(questions, quizId);
        && |stored| == |data|
        && forall i :: 0 <= i < |data| ==>
             stored[i] == QuestionRow(|old(questions)| + i + 1, quizId, data[i], i + 1)
      ensures attempts == old(attempts) && answers == old(answers)
      ensures accounts == old(accounts) && themes == old(themes)
    {
      quizId := |quizzes| + 1;
      QuizAppendValid(quizzes, Quiz(quizId, owner, topic, difficulty, language));
      assert QuestionsValid(questions, |quizzes| + 1);
      AttemptTablesWiden(attempts, answers, |quizzes|);
      quizzes := quizzes + [Quiz(quizId, owner, topic, difficulty, language)];
      WriteQuestions(quizId, data);
      ghost var rows := questions[|old(questions)|..];
      assert questions == old(questions) + rows;
      assert QuestionsValid(old(questions), quizId - 1);
      FreshQuizQuestions(old(questions), rows, quizId);
      assert QuizTablesValid(quizzes, questions, attempts, answers);
    }

    /**
     * The question loop of `generate_quiz_view`: the `idx`-th item becomes the next question row,
     * with `order = idx + 1`.
     */
    method WriteQuestions(quizId: nat, data: seq<QuestionData>)
      requires forall i :: 0 <= i < |data| ==> |data[i].options| == 4 && IsOptionIndex(data[i].correctIndex)
      requires 1 <= quizId <= |quizzes|
      requires QuestionsValid(questions, |quizzes|)
      modifies this`questions
      ensures QuestionsValid(questions, |quizzes|)
      ensures |questions| == |old(questions)| + |data|
      ensures questions[..|old(questions)|] == old(questions)
      ensures forall i :: 0 <= i < |data| ==>
        questions[|old(questions)| + i] == QuestionRow(|old(questions)| + i + 1, quizId, data[i], i + 1)
      ensures forall i :: |old(questions)| <= i < |questions| ==> questions[i].quizId == quizId
      ensures quizzes == old(quizzes) && attempts == old(attempts) && answers == old(answers)
      ensures accounts == old(accounts) && themes == old(themes)
    {
      var start := |questions|;
      var idx := 0;
      while idx < |data|
        invariant 0 <= idx <= |data|
        invariant |questions| == start + idx
        invariant questions[..start] == old(questions)
        invariant forall i :: 0 <= i < idx ==>
          questions[start + i] == QuestionRow(start + i + 1, quizId, data[i], i + 1)
        invariant forall i :: start <= i < |questions| ==> questions[i].quizId == quizId
        invariant quizzes == old(quizzes) && attempts == old(attempts) && answers == old(answers)
        invariant accounts == old(accounts) && themes == old(themes)
        invariant QuestionsValid(questions, |quizzes|)
      {
        var row := QuestionRow(|questions| + 1, quizId, data[idx], idx + 1);
        QuestionAppendValid(questions, row, |quizzes|);
        questions := questions + [row];
        idx := idx + 1;
      }
    }

    /**
     * `submit_quiz_view` for a POST: create the attempt with score 0, write one answer row per
     * question of the quiz, then store the score and percentage and refresh the profile.
     * A posted value that is not a number, or too large for the column, stops the loop with an
     * error (a 500 response), leaving the score-0
     * attempt and the rows written so far, since nothing wraps the view in a transaction.
     */
    method SubmitQuiz(userId: nat, quizId: nat, posted: map<nat, Posted>, profile: UserProfile)
      returns (r: Result<nat, SubmitError>)
      requires Valid()
      requires profile.userId == userId
      modifies this, profile
      ensures Valid()
      ensures quizzes == old(quizzes) && questions == old(questions)
      ensures accounts == old(accounts) && themes == old(themes)
      ensures r == Failure(QuizNotFound) <==>
        !(1 <= quizId <= |quizzes| && quizzes[quizId - 1].owner == userId)
      ensures r == Failure(QuizNotFound) ==>
        attempts == old(attempts) && answers == old(answers) && unchanged(profile)
      ensures r.Success? ==>
        var qs := QuizQuestions(questions, quizId);
        var id := |old(attempts)| + 1;
        && AllReadable(qs, posted)
        && r.value == id
        && answers == old(answers) + Grade(id, qs, posted)
      ensures r.Success? ==>
        var qs := QuizQuestions(questions, quizId);
        var id := |old(attempts)| + 1;
        var score := CorrectCount(Grade(id, qs, posted));
        attempts == old(attempts) + [QuizAttempt(id, userId, quizId, score, |qs|, ScorePercentage(score, |qs|))]
      ensures r == Failure(AnswerRejected) ==>
        var qs := QuizQuestions(questions, quizId);
        var id := |old(attempts)| + 1;
        var k := FirstUnreadable(qs, posted);
        && k < |qs|
        && answers == old(answers) + Grade(id, qs[..k], posted)
        && attempts == old(attempts) + [QuizAttempt(id, userId, quizId, 0, |qs|, 0)]
      ensures r.Success? ==>
        && profile.CurrentStats() == Refreshed(old(profile.CurrentStats()), Percentages(UserAttempts(attempts, userId)))
        && profile.isAdmin == old(profile.isAdmin) && profile.avatar == old(profile.avatar)
      ensures r.Success? ==>
        UserAttempts(attempts, userId) == UserAttempts(old(attempts), userId) + [attempts[|attempts| - 1]]
      ensures r.Success? ==> 0.0 <= profile.averageScore <= 100.0 && 0 <= profile.bestScore <= 100
      ensures r == Failure(AnswerRejected) ==> unchanged(profile)
    {
      if !(1 <= quizId <= |quizzes| && quizzes[quizId - 1].owner == userId) {
        return Failure(QuizNotFound);
      }
      r := RecordAttempt(userId, quizId, posted);
      if r.Success? {
        UserAttemptsSnoc(old(attempts), attempts[|attempts| - 1], userId);
        ghost var before := profile.CurrentStats();
        profile.UpdateStats(attempts);
        StoredPercentagesInRange(attempts, |quizzes|, userId);
        RefreshedWithinPercentRange(before, Percentages(UserAttempts(attempts, userId)));
      }
    }

    /**
     * The part of `submit_quiz_view` after the quiz was found: the score-0 attempt, the answer
     * rows, and on success the stored score.
     */
    method RecordAttempt(userId: nat, quizId: nat, posted: map<nat, Posted>)
      returns (r: Result<nat, SubmitError>)
      requires QuizTablesValid(quizzes, questions, attempts, answers)
      requires 1 <= quizId <= |quizzes|
      modifies this`attempts, this`answers
      ensures QuizTablesValid(quizzes, questions, attempts, answers)
      ensures quizzes == old(quizzes) && questions == old(questions)
      ensures accounts == old(accounts) && themes == old(themes)
      ensures r.Success? || r == Failure(AnswerRejected)
      ensures r.Success? ==>
        var qs := QuizQuestions(questions, quizId);
        var id := |old(attempts)| + 1;
        && AllReadable(qs, posted)
        && r.value == id
        && answers == old(answers) + Grade(id, qs, posted)
      ensures r.Success? ==>
        var qs := QuizQuestions(questions, quizId);
        var id := |old(attempts)| + 1;
        var score := CorrectCount(Grade(id, qs, posted));
        attempts == old(attempts) + [QuizAttempt(id, userId, quizId, score, |qs|, ScorePercentage(score, |qs|))]
      ensures r == Failure(AnswerRejected) ==>
        var qs := QuizQuestions(questions, quizId);
        var id := |old(attempts)| + 1;
        var k := FirstUnreadable(qs, posted);
        && k < |qs|
        && answers == old(answers) + Grade(id, qs[..k], posted)
        && attempts == old(attempts) + [QuizAttempt(id, userId, quizId, 0, |qs|, 0)]
    {
      var qs := QuizQuestions(questions, quizId);
      var total := |qs|;
      var previous := attempts;
      var attemptId := |attempts| + 1;
      var started := QuizAttempt(attemptId, userId, quizId, 0, total, 0);
      ScorePercentageBounds(0, total);
      assert ScoreValid(started);
      attempts := attempts + [started];
      var correct, readable := WriteAnswerRows(attemptId, qs, posted);
      if !readable {
        GradedAttemptValid(quizzes, questions, previous, old(answers), started, qs, posted);
        assert QuizTablesValid(quizzes, questions, attempts, answers);
        return Failure(AnswerRejected);
      }
      assert qs[..FirstUnreadable(qs, posted)] == qs;
      GradedScoreBound(attemptId, qs, posted);
      var finished := QuizAttempt(attemptId, userId, quizId, correct, total, ScorePercentage(correct, total));
      GradedAttemptValid(quizzes, questions, previous, old(answers), finished, qs, posted);
      attempts := previous + [finished];
      assert QuizTablesValid(quizzes, questions, attempts, answers);
      r := Success(attemptId);
    }

    /**
     * The loop of `submit_quiz_view`: one row per question until a posted value is not a number or
     * does not fit the 64-bit column.
     * Reports the number of correct rows and whether every question was graded.
     */
    method WriteAnswerRows(attemptId: nat, qs: seq<Question>, posted: map<nat, Posted>)
      returns (correct: nat, readable: bool)
      modifies this`answers
      ensures var k := FirstUnreadable(qs, posted);
        && readable == (k == |qs|)
        && answers == old(answers) + Grade(attemptId, qs[..k], posted)
        && correct == CorrectCount(Grade(attemptId, qs[..k], posted))
    {
      correct := 0;
      var i := 0;
      while i < |qs|
        invariant 0 <= i <= |qs|
        invariant forall j :: 0 <= j < i ==> Readable(qs[j], posted)
        invariant AllReadable(qs[..i], posted)
        invariant answers == old(answers) + Grade(attemptId, qs[..i], posted)
        invariant correct == CorrectCount(Grade(attemptId, qs[..i], posted))
      {
        var q := qs[i];
        var row: UserAnswer;
        if q.id in posted {
          // `int()` raises first; an out-of-range value makes the insert raise, leaving no row
          if posted[q.id].NotANumber? || !Storable(posted[q.id].value) {
            FirstUnreadableAt(qs, posted, i);
            return correct, false;
          }
          var selected := posted[q.id].value;
          var isCorrect := selected == q.correctOption;
          if isCorrect {
            correct := correct + 1;
          }
          row := UserAnswer(attemptId, q.id, selected, isCorrect);
        } else {
          row := UserAnswer(attemptId, q.id, Unanswered, false);
        }
        GradeSnoc(attemptId, qs, i, posted);
        answers := answers + [row];
        i := i + 1;
      }
      assert qs[..i] == qs;
      readable := true;
    }

    /** `register_view` for a POST: the three checks in order, then the new account. */
    method Register(username: string, email: string, password: string, confirm: string)
      returns (r: Result<nat, RegisterError>)
      requires Valid()
      modifies this
      ensures Valid()
      ensures var e := RegistrationError(old(accounts), username, email, password, confirm);
        && (e.Some? ==> r == Failure(e.value) && accounts == old(accounts))
        && (e.None? ==>
              && r == Success(|old(accounts)| + 1)
              && accounts == old(accounts) + [Account(|old(accounts)| + 1, username, email, password)])
      ensures quizzes == old(quizzes) && questions == old(questions)
      ensures attempts == old(attempts) && answers == old(answers) && themes == old(themes)
    {
      var e := RegistrationError(accounts, username, email, password, confirm);
      if e.Some? {
        return Failure(e.value);
      }
      var a := Account(|accounts| + 1, username, email, password);
      RegistrationKeepsAccountsUnique(accounts, a, confirm);
      accounts := accounts + [a];
      r := Success(a.id);
    }

    /** `theme_delete`: admins only, the theme must exist, and the active theme is never deleted. */
    method DeleteTheme(isAdmin: bool, themeId: nat) returns (outcome: DeleteThemeOutcome)
      requires Valid()
      modifies this
      ensures Valid()
      ensures outcome == PermissionDenied <==> !isAdmin
      ensures outcome == ThemeNotFound <==>
        isAdmin && forall t :: t in old(themes) ==> t.id != themeId
      ensures outcome == ActiveThemeKept <==>
        isAdmin && exists t :: t in old(themes) && t.id == themeId && t.isActive
      ensures themes == if outcome == ThemeDeleted then RemoveTheme(old(themes), themeId) else old(themes)
      ensures forall t :: t in old(themes) && t.isActive ==> t in themes
      ensures quizzes == old(quizzes) && questions == old(questions)
      ensures attempts == old(attempts) && answers == old(answers) && accounts == old(accounts)
    {
      if !isAdmin {
        return PermissionDenied;
      }
      var found := FindTheme(themes, themeId);
      if found.None? {
        return ThemeNotFound;
      }
      var theme := themes[found.value];
      if theme.isActive {
        return ActiveThemeKept;
      }
      DropTheme(themeId);
      outcome := ThemeDeleted;
    }

    /** The `theme.delete()` of `theme_delete`: only the themes table changes. */
    method DropTheme(themeId: nat)
      requires UniqueThemeIds(themes)
      modifies this`themes
      ensures themes == RemoveTheme(old(themes), themeId)
      ensures UniqueThemeIds(themes)
    {
      RemoveThemeKeepsUnique(themes, themeId);
      themes := RemoveTheme(themes, themeId);
    }
  }

  /** Unique ids stay unique in the tail, and no later theme shares the first one's id. */
  lemma UniqueThemeIdsTail(themes: seq<Theme>)
    requires themes != [] && UniqueThemeIds(themes)
    ensures UniqueThemeIds(themes[1..])
    ensures forall t :: t in themes[1..] ==> t.id != themes[0].id
  {
    var tail := themes[1..];
    forall i, j | 0 <= i < j < |tail| ensures tail[i].id != tail[j].id {
      assert tail[i] == themes[i + 1] && tail[j] == themes[j + 1];
    }
    forall t | t in tail ensures t.id != themes[0].id {
      var k :| 0 <= k < |tail| && tail[k] == t;
      assert themes[k + 1] == t;
    }
  }

  /** A theme whose id no theme of a unique list has can go in front of it. */
  lemma ConsUniqueTheme(t: Theme, rest: seq<Theme>)
    requires UniqueThemeIds(rest)
    requires forall u :: u in rest ==> u.id != t.id
    ensures UniqueThemeIds([t] + rest)
  {
    var all := [t] + rest;
    assert all[1..] == rest;
    forall i, j | 0 <= i < j < |all| ensures all[i].id != all[j].id {
      assert all[j] == rest[j - 1];
      if i > 0 {
        assert all[i] == rest[i - 1];
      }
    }
  }

  lemma {:induction false} RemoveThemeKeepsUnique(themes: seq<Theme>, id: nat)
    requires UniqueThemeIds(themes)
    ensures UniqueThemeIds(RemoveTheme(themes, id))
  {
    if themes != [] {
      UniqueThemeIdsTail(themes);
      RemoveThemeKeepsUnique(themes[1..], id);
      var rest := RemoveTheme(themes[1..], id);
      if themes[0].id != id {
        forall t | t in rest ensures t.id != themes[0].id {
          assert t in themes[1..];
        }
        ConsUniqueTheme(themes[0], rest);
      }
    }
  }
}
