/**
 * The result card shown after a quiz: the performance message chosen from the score
 * percentage, and the correct/incorrect split drawn as a pie chart and two counters.
 */
module ResultCard {

  /** The five performance bands, best first. */
  datatype Band = Perfect | Excellent | GoodJob | KeepPracticing | RoomForImprovement

  /** The message shown for a band: its text and its colour. */
  datatype Performance = Performance(text: string, color: string)

  const Green: string := "#10b981"
  const Amber: string := "#f59e0b"
  const Red: string := "#ef4444"

  /** The `if` chain of `getPerformanceMessage`, read top to bottom. */
  function BandOf(percentage: real): Band {
    if percentage == 100.0 then Perfect
    else if percentage >= 80.0 then Excellent
    else if percentage >= 60.0 then GoodJob
    else if percentage >= 40.0 then KeepPracticing
    else RoomForImprovement
  }

  function Message(b: Band): Performance {
    match b
    case Perfect => Performance("🎉 Perfect Score!", Green)
    case Excellent => Performance("⭐ Excellent!", Green)
    case GoodJob => Performance("👍 Good Job!", Amber)
    case KeepPracticing => Performance("💪 Keep Practicing!", Amber)
    case RoomForImprovement => Performance("📚 Room for Improvement", Red)
  }

  /** `getPerformanceMessage` for a result's score percentage. */
  function PerformanceMessage(percentage: real): Performance {
    Message(BandOf(percentage))
  }

  /** A band's position, 0 for the best. */
  function Rank(b: Band): (r: nat)
    ensures r <= 4
  {
    match b
    case Perfect => 0
    case Excellent => 1
    case GoodJob => 2
    case KeepPracticing => 3
    case RoomForImprovement => 4
  }

  /** Each band is exactly its range of percentages. */
  lemma BandRanges(p: real)
    ensures BandOf(p) == Perfect <==> p == 100.0
    ensures BandOf(p) == Excellent <==> p != 100.0 && p >= 80.0
    ensures BandOf(p) == GoodJob <==> 60.0 <= p < 80.0
    ensures BandOf(p) == KeepPracticing <==> 40.0 <= p < 60.0
    ensures BandOf(p) == RoomForImprovement <==> p < 40.0
  {
  }

  /** Different bands show different texts, so the text alone tells the band. */
  lemma MessageTextsDistinct(a: Band, b: Band)
    ensures Message(a).text == Message(b).text <==> a == b
  {
    if a != b {
      assert |Message(a).text| != |Message(b).text|;
    }
  }

  /** The message is green exactly from 80 up, red exactly below 40. */
  lemma ColorRanges(p: real)
    ensures PerformanceMessage(p).color == Green <==> p >= 80.0
    ensures PerformanceMessage(p).color == Red <==> p < 40.0
    ensures PerformanceMessage(p).color == Amber <==> 40.0 <= p < 80.0
  {
    assert Green != Red && Green != Amber && Amber != Red by {
      assert Green[1] == '1' && Amber[1] == 'f' && Red[1] == 'e';
    }
  }

  /** On real percentages (at most 100) a higher score never gets a worse band. */
  lemma BandMonotoneUpTo100(p: real, q: real)
    requires p <= q <= 100.0
    ensures Rank(BandOf(q)) <= Rank(BandOf(p))
  {
  }

  /**
   * Past 100 the order breaks: 100 is Perfect but 101 falls back into Excellent, since only
   * the exact value 100 reaches the first branch.
   */
  lemma AboveHundredIsNotPerfect()
    ensures BandOf(100.0) == Perfect
    ensures BandOf(101.0) == Excellent
    ensures Rank(BandOf(101.0)) > Rank(BandOf(100.0))
  {
  }

  /** The two pie slices and the two counters: correct answers and the rest. */
  datatype Split = Split(correct: int, incorrect: int)

  function ChartSplit(totalQuestions: int, correctAnswers: int): (s: Split)
    ensures s.correct + s.incorrect == totalQuestions
    ensures s.correct == correctAnswers
  {
    Split(correctAnswers, totalQuestions - correctAnswers)
  }

  /** No slice is negative exactly when the correct count lies between 0 and the total. */
  lemma SplitNonNegativeIff(totalQuestions: int, correctAnswers: int)
    ensures ChartSplit(totalQuestions, correctAnswers).incorrect >= 0 <==> correctAnswers <= totalQuestions
    ensures ChartSplit(totalQuestions, correctAnswers).incorrect == 0 <==> correctAnswers == totalQuestions
  {
  }
}
