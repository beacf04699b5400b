/** Prediction analytics: how well "COMING" responses predicted actual attendance
    (client/lib/utils/analytics.ts). Percentages are exact rationals. */
module Analytics {
  import opened Wrappers
  import opened Schema

  /** One analytics entry: the response given and the attendance recorded later (`None` if not yet). */
  datatype Prediction = Prediction(predicted: ResponseStatus, actual: Option<bool>)

  datatype PredictionAccuracy = PredictionAccuracy(
    userId: string, totalPredictions: nat, correctPredictions: nat, accuracyPercentage: real)

  /** A prediction is right when "COMING" matches attending; TENTATIVE counts as not attending. */
  predicate Correct(p: Prediction)
    requires p.actual.Some?
  {
    (p.predicted == Coming) == p.actual.value
  }

  /** `filter(a => a.actual_attendance !== null).length`. */
  function Recorded(ps: seq<Prediction>): (n: nat)
    ensures n <= |ps|
    ensures n == 0 <==> forall i :: 0 <= i < |ps| ==> ps[i].actual.None?
  {
    if ps == [] then 0 else (if ps[0].actual.Some? then 1 else 0) + Recorded(ps[1..])
  }

  /** The number of recorded entries that were predicted correctly. */
  function CorrectCount(ps: seq<Prediction>): (n: nat)
    ensures n <= Recorded(ps)
  {
    if ps == [] then 0
    else (if ps[0].actual.Some? && Correct(ps[0]) then 1 else 0) + CorrectCount(ps[1..])
  }

  /** A share of a positive total is between 0 and 1. */
  lemma RatioAtMostOne(c: real, v: real)
    requires 0.0 <= c <= v && v > 0.0
    ensures 0.0 <= c / v <= 1.0
  {
    var q := c / v;
    assert q * v == c;
    assert (1.0 - q) * v == v - c;
  }

  lemma ScaledRatio(c: real, v: real)
    requires v > 0.0
    ensures (c / v * 100.0) * v == 100.0 * c
  {
    var q := c / v;
    assert q * v == c;
  }

  /** The percentage is `100 * correct / total`, stated without division. */
  predicate PercentOf(r: PredictionAccuracy) {
    r.accuracyPercentage * r.totalPredictions as real == 100.0 * r.correctPredictions as real
  }

  lemma PercentageTimesTotal(r: PredictionAccuracy, c: real, v: real)
    requires v > 0.0 && r.accuracyPercentage == c / v * 100.0
    requires r.totalPredictions as real == v && r.correctPredictions as real == c
    ensures PercentOf(r)
  {
    ScaledRatio(c, v);
  }

  /** Losing `100 / n` per unit of `d` leaves `100 (n - d) / n`: exactly 100 when `d` is 0, not
      negative while `d <= n`, not positive once `d >= n`. */
  lemma PerPerson(d: real, n: real)
    requires n > 0.0 && d >= 0.0
    ensures (100.0 - d * (100.0 / n)) * n == 100.0 * (n - d)
    ensures 100.0 - d * (100.0 / n) == 100.0 <==> d == 0.0
    ensures 100.0 - d * (100.0 / n) <= 100.0
    ensures d <= n ==> 100.0 - d * (100.0 / n) >= 0.0
    ensures d >= n ==> 100.0 - d * (100.0 / n) <= 0.0
  {
    var u := 100.0 / n;
    assert u * n == 100.0;
    assert (100.0 - d * u) * n == 100.0 * n - d * (u * n);
    assert u > 0.0;
    assert d * u >= 0.0;
    if d <= n {
      NonNegativeProduct(n - d, u);
    } else {
      NonNegativeProduct(d - n, u);
    }
  }

  lemma NonNegativeProduct(a: real, b: real)
    requires a >= 0.0 && b >= 0.0
    ensures a * b >= 0.0
  {
  }

  /** `calculateUserAccuracy`. */
  function UserAccuracy(ps: seq<Prediction>): (r: PredictionAccuracy)
    ensures r.correctPredictions <= r.totalPredictions <= |ps|
    ensures 0.0 <= r.accuracyPercentage <= 100.0
  {
    if |ps| == 0 then PredictionAccuracy("", 0, 0, 0.0)
    else
      var valid := Recorded(ps);
      if valid == 0 then PredictionAccuracy("", |ps|, 0, 0.0)
      else
        var correct := CorrectCount(ps);
        RatioAtMostOne(correct as real, valid as real);
        PredictionAccuracy("", valid, correct, (correct as real / valid as real) * 100.0)
  }

  /** No entries give zeros; entries with no attendance recorded count as predictions but none is
      correct. */
  lemma UserAccuracyUnrecorded(ps: seq<Prediction>)
    ensures ps == [] ==> UserAccuracy(ps) == PredictionAccuracy("", 0, 0, 0.0)
    ensures ps != [] && (forall i :: 0 <= i < |ps| ==> ps[i].actual.None?) ==>
      UserAccuracy(ps) == PredictionAccuracy("", |ps|, 0, 0.0)
  {
  }

  /** Once some attendance is recorded, only the recorded entries count, and the percentage is exactly
      `100 * correct / total`. */
  lemma UserAccuracyRecorded(ps: seq<Prediction>, k: int)
    requires 0 <= k < |ps| && ps[k].actual.Some?
    ensures UserAccuracy(ps).totalPredictions == Recorded(ps) > 0
    ensures UserAccuracy(ps).correctPredictions == CorrectCount(ps)
    ensures PercentOf(UserAccuracy(ps))
  {
    var valid := Recorded(ps);
    var correct := CorrectCount(ps);
    assert valid != 0;
    var r := UserAccuracy(ps);
    assert r == PredictionAccuracy("", valid, correct, (correct as real / valid as real) * 100.0);
    PercentageTimesTotal(r, correct as real, valid as real);
  }

  /** Every entry recorded and correct counts every entry as a correct prediction. */
  lemma {:induction false} AllCorrect(ps: seq<Prediction>)
    requires forall i :: 0 <= i < |ps| ==> ps[i].actual.Some? && Correct(ps[i])
    ensures CorrectCount(ps) == Recorded(ps) == |ps|
  {
    if ps != [] {
      AllCorrect(ps[1..]);
    }
  }

  lemma WholeRatio(v: real)
    requires v > 0.0
    ensures v / v * 100.0 == 100.0
  {
  }

  /** Every entry recorded and correct gives 100 %. */
  lemma AllCorrectPercentage(ps: seq<Prediction>)
    requires ps != [] && forall i :: 0 <= i < |ps| ==> ps[i].actual.Some? && Correct(ps[i])
    ensures UserAccuracy(ps).accuracyPercentage == 100.0
  {
    AllCorrect(ps);
    var n := |ps|;
    assert UserAccuracy(ps) == PredictionAccuracy("", n, n, (n as real / n as real) * 100.0);
    WholeRatio(n as real);
  }

  /** No recorded entry correct gives 0 %. */
  lemma {:induction false} NoneCorrect(ps: seq<Prediction>)
    requires forall i :: 0 <= i < |ps| ==> ps[i].actual.Some? ==> !Correct(ps[i])
    ensures CorrectCount(ps) == 0
    ensures UserAccuracy(ps).correctPredictions == 0 && UserAccuracy(ps).accuracyPercentage == 0.0
  {
    if ps != [] {
      NoneCorrect(ps[1..]);
    }
  }

  datatype SessionAnalytics = SessionAnalytics(
    sessionId: string, totalResponses: nat, actualAttendance: int, accuracyRate: real)

  function Abs(x: int): nat {
    if x < 0 then -x else x
  }

  /** How many people the COMING count was off by. */
  function Difference(statuses: seq<ResponseStatus>, actualAttendees: int): nat {
    Abs(CountStatus(statuses, Coming) - actualAttendees)
  }

  /** The score for `d` people of difference among `n` responses: 100 less `100 / n` for each, never
      below 0. It is 100 exactly when there is no difference, `100 (n - d) / n` while `d <= n`, and 0
      from `d = n` on. */
  function Score(d: nat, n: nat): (s: real)
    requires n > 0
    ensures 0.0 <= s <= 100.0
    ensures s == 100.0 <==> d == 0
    ensures d <= n ==> ScorePerPerson(s, d, n)
    ensures d >= n ==> s == 0.0
  {
    var raw := 100.0 - d as real * (100.0 / n as real);
    PerPerson(d as real, n as real);
    if raw < 0.0 then 0.0 else raw
  }

  /** `s * n == 100 * (n - d)`, stated without division. */
  predicate ScorePerPerson(s: real, d: nat, n: nat) {
    s * n as real == 100.0 * (n as real - d as real)
  }

  /** `calculateSessionAnalytics`: the score of the difference between the COMING count and the
      attendance; 0 without responses. */
  function SessionAccuracy(statuses: seq<ResponseStatus>, actualAttendees: int): (r: SessionAnalytics)
    ensures r.totalResponses == |statuses| && r.actualAttendance == actualAttendees
    ensures 0.0 <= r.accuracyRate <= 100.0
  {
    var total := |statuses|;
    var rate := if total > 0 then Score(Difference(statuses, actualAttendees), total) else 0.0;
    SessionAnalytics("", total, actualAttendees, rate)
  }

  /** The rate is 0 without responses, and otherwise 100 exactly when the COMING count equals the
      attendance. */
  lemma SessionAccuracyMeaning(statuses: seq<ResponseStatus>, actualAttendees: int)
    ensures statuses == [] ==> SessionAccuracy(statuses, actualAttendees).accuracyRate == 0.0
    ensures statuses != [] ==>
      ((SessionAccuracy(statuses, actualAttendees).accuracyRate == 100.0)
         <==> (CountStatus(statuses, Coming) == actualAttendees))
  {
    if statuses != [] {
      assert SessionAccuracy(statuses, actualAttendees).accuracyRate
          == Score(Difference(statuses, actualAttendees), |statuses|);
    }
  }

  /** With responses, the rate drops by `100 / total` per person of difference and is 0 once the
      difference reaches the number of responses. */
  lemma SessionAccuracyPerPerson(statuses: seq<ResponseStatus>, actualAttendees: int)
    requires statuses != []
    ensures Difference(statuses, actualAttendees) <= |statuses| ==>
      ScorePerPerson(SessionAccuracy(statuses, actualAttendees).accuracyRate,
                     Difference(statuses, actualAttendees), |statuses|)
    ensures Difference(statuses, actualAttendees) >= |statuses| ==>
      SessionAccuracy(statuses, actualAttendees).accuracyRate == 0.0
  {
    var d := Difference(statuses, actualAttendees);
    ScoreFacts(SessionAccuracy(statuses, actualAttendees).accuracyRate, d, |statuses|);
  }

  lemma ScoreFacts(rate: real, d: nat, n: nat)
    requires n > 0 && rate == Score(d, n)
    ensures d <= n ==> ScorePerPerson(rate, d, n)
    ensures d >= n ==> rate == 0.0
  {
  }

  /** `responseStatusToAttendance`: `None` is null. */
  function StatusToAttendance(s: ResponseStatus): Option<bool> {
    match s
    case Coming => Some(true)
    case NotComing => Some(false)
    case Tentative => None
  }

  /** A definite response is correct exactly when its attendance reading matches; a tentative one is
      scored as a prediction of absence, although it maps to no attendance. */
  lemma CorrectAgreesWithAttendance(p: Prediction)
    requires p.actual.Some?
    ensures p.predicted != Tentative ==> (Correct(p) <==> StatusToAttendance(p.predicted) == p.actual)
    ensures p.predicted == Tentative ==> StatusToAttendance(p.predicted).None? && (Correct(p) <==> !p.actual.value)
  {
  }

  /** `Math.round`: the nearest integer, halves rounded up. */
  function Round(x: real): (n: int)
    ensures n as real - 0.5 <= x < n as real + 0.5
  {
    (x + 0.5).Floor
  }

  /** `calculateReliabilityScore`: neutral 50 below three predictions. */
  function ReliabilityScore(a: PredictionAccuracy): int {
    if a.totalPredictions < 3 then 50 else Round(a.accuracyPercentage)
  }

  /** With enough predictions the score is the percentage to the nearest integer, between 0 and 100
      for any accuracy the calculation produces. */
  lemma ReliabilityScoreRange(ps: seq<Prediction>)
    ensures UserAccuracy(ps).totalPredictions < 3 ==> ReliabilityScore(UserAccuracy(ps)) == 50
    ensures 0 <= ReliabilityScore(UserAccuracy(ps)) <= 100
  {
    var r := UserAccuracy(ps);
    if r.totalPredictions >= 3 {
      var n := Round(r.accuracyPercentage);
      assert n as real - 0.5 <= 100.0;
      assert 0.0 < n as real + 0.5;
    }
  }
}
