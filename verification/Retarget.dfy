/** Difficulty retargeting from a rolling validator count (pob_retarget.go). */
module Retarget {
  import opened Sequences

  const WINDOW: nat := 50
  const TARGET_MIN: int := 50
  const TARGET_MAX: int := 500

  /** Thresholds are real numbers; float rounding is not modelled. */
  datatype Thresholds = Thresholds(minUpload: real, latency: real, packetLoss: real)

  datatype TestResult = TestResult(upload: real, latency: real, packetLoss: real)

  const INITIAL: Thresholds := Thresholds(7.0, 100.0, 0.1)

  function Clamp(x: real, lo: real, hi: real): real {
    if x < lo then lo else if x > hi then hi else x
  }

  /** Thresholds moved by a factor: up means harder. */
  function Moved(t: Thresholds, factor: real): Thresholds {
    Thresholds(Clamp(t.minUpload * (1.0 + factor), 5.0, 10.0),
               Clamp(t.latency * (1.0 - factor), 50.0, 200.0),
               Clamp(t.packetLoss * (1.0 - factor), 0.05, 0.5))
  }

  function Loosen(t: Thresholds): Thresholds { Moved(t, -0.2) }

  function Tighten(t: Thresholds): Thresholds { Moved(t, 0.2) }

  /** The last n elements, or all of them. */
  function Last(s: seq<nat>, n: nat): seq<nat> {
    if |s| <= n then s else s[|s| - n..]
  }

  function Total(s: seq<nat>): nat {
    if s == [] then 0 else Total(s[..|s| - 1]) + s[|s| - 1]
  }

  function Average(s: seq<nat>): nat {
    if s == [] then 0 else Total(s) / |s|
  }

  function Adjusted(t: Thresholds, history: seq<nat>, height: nat): Thresholds {
    if !(height > 0 && height % WINDOW == 0) then t
    else
      var average := Average(history);
      if average == 0 then t
      else if average < TARGET_MIN then Loosen(t)
      else if average > TARGET_MAX then Tighten(t)
      else t
  }

  predicate Accepts(t: Thresholds, r: TestResult) {
    !(r.upload < t.minUpload) && !(r.latency > t.latency) && !(r.packetLoss > t.packetLoss)
  }

  class RetargetManager {
    var thresholds: Thresholds
    var history: seq<nat>

    constructor ()
      ensures thresholds == INITIAL && history == [] && InClamps(thresholds)
    {
      thresholds, history := INITIAL, [];
    }

    method RecordValidatorCount(count: nat)
      modifies `history
      ensures history == Last(old(history) + [count], WINDOW)
    {
      history := history + [count];
      if |history| > WINDOW {
        history := history[|history| - WINDOW..];
      }
    }

    method CalculateAverageValidatorCount() returns (average: nat)
      ensures average == Average(history)
    {
      if |history| == 0 {
        return 0;
      }
      var sum := 0;
      for i := 0 to |history|
        invariant sum == Total(history[..i])
      {
        assert history[..i + 1][..i] == history[..i];
        sum := sum + history[i];
      }
      assert history[..|history|] == history;
      return sum / |history|;
    }

    method AdjustDifficulty(height: nat)
      modifies `thresholds
      ensures thresholds == Adjusted(old(thresholds), history, height)
    {
      if !(height > 0 && height % WINDOW == 0) {
        return;
      }
      var average := CalculateAverageValidatorCount();
      if average == 0 {
        return;
      }
      var factor := 0.0;
      if average < TARGET_MIN {
        factor := -0.2;
      } else if average > TARGET_MAX {
        factor := 0.2;
      } else {
        return;
      }
      thresholds := Thresholds(thresholds.minUpload * (1.0 + factor), thresholds.latency * (1.0 - factor),
                               thresholds.packetLoss * (1.0 - factor));
      if thresholds.minUpload < 5.0 {
        thresholds := thresholds.(minUpload := 5.0);
      }
      if thresholds.minUpload > 10.0 {
        thresholds := thresholds.(minUpload := 10.0);
      }
      if thresholds.latency < 50.0 {
        thresholds := thresholds.(latency := 50.0);
      }
      if thresholds.latency > 200.0 {
        thresholds := thresholds.(latency := 200.0);
      }
      if thresholds.packetLoss < 0.05 {
        thresholds := thresholds.(packetLoss := 0.05);
      }
      if thresholds.packetLoss > 0.5 {
        thresholds := thresholds.(packetLoss := 0.5);
      }
    }

    method EvaluateWithCurrentThresholds(r: TestResult) returns (passes: bool)
      ensures passes == Accepts(thresholds, r)
      ensures passes <==> r.upload >= thresholds.minUpload && r.latency <= thresholds.latency
                          && r.packetLoss <= thresholds.packetLoss
    {
      if r.upload < thresholds.minUpload {
        return false;
      }
      if r.latency > thresholds.latency {
        return false;
      }
      if r.packetLoss > thresholds.packetLoss {
        return false;
      }
      return true;
    }
  }

  predicate InClamps(t: Thresholds) {
    5.0 <= t.minUpload <= 10.0 && 50.0 <= t.latency <= 200.0 && 0.05 <= t.packetLoss <= 0.5
  }

  // ---- Runs ----

  datatype Event = Record(count: nat) | Adjust(height: nat)

  datatype State = State(thresholds: Thresholds, history: seq<nat>)

  function Step(s: State, e: Event): State {
    match e
    case Record(count) => s.(history := Last(s.history + [count], WINDOW))
    case Adjust(height) => s.(thresholds := Adjusted(s.thresholds, s.history, height))
  }

  function Run(s: State, es: seq<Event>): State {
    if es == [] then s else Step(Run(s, es[..|es| - 1]), es[|es| - 1])
  }

  /** Every count a run records, in order. */
  function Recorded(es: seq<Event>): seq<nat> {
    if es == [] then []
    else
      var earlier := Recorded(es[..|es| - 1]);
      match es[|es| - 1]
      case Record(count) => earlier + [count]
      case Adjust(_) => earlier
  }

  /** Over every run the history is exactly the last fifty counts recorded, and the thresholds keep their clamps. */
  lemma {:induction false} RunKeepsWindow(es: seq<Event>)
    ensures Run(State(INITIAL, []), es).history == Last(Recorded(es), WINDOW)
    ensures InClamps(Run(State(INITIAL, []), es).thresholds)
    decreases |es|
  {
    if es != [] {
      RunKeepsWindow(es[..|es| - 1]);
    }
  }

  function Distance(a: real, b: real): real {
    if a < b then b - a else a - b
  }

  /** One adjustment moves no threshold by more than a fifth, clamps included. */
  lemma StepIsBounded(t: Thresholds, history: seq<nat>, height: nat)
    requires InClamps(t)
    ensures var after := Adjusted(t, history, height);
            && Distance(after.minUpload, t.minUpload) <= t.minUpload / 5.0
            && Distance(after.latency, t.latency) <= t.latency / 5.0
            && Distance(after.packetLoss, t.packetLoss) <= t.packetLoss / 5.0
  {
  }

  /** Loosening accepts whatever was accepted, tightening nothing that was not. */
  lemma AcceptanceIsMonotone(t: Thresholds, r: TestResult)
    requires InClamps(t)
    ensures Accepts(t, r) ==> Accepts(Loosen(t), r)
    ensures Accepts(Tighten(t), r) ==> Accepts(t, r)
  {
  }

  /** Consecutive loosenings. */
  function Loosened(t: Thresholds, n: nat): Thresholds {
    if n == 0 then t else Loosen(Loosened(t, n - 1))
  }

  function Tightened(t: Thresholds, n: nat): Thresholds {
    if n == 0 then t else Tighten(Tightened(t, n - 1))
  }

  const LOOSEST: Thresholds := Thresholds(5.0, 200.0, 0.5)
  const TIGHTEST: Thresholds := Thresholds(10.0, 50.0, 0.05)

  /** 1.2 to the power n. */
  function Growth(n: nat): real {
    if n == 0 then 1.0 else 1.2 * Growth(n - 1)
  }

  /** 0.8 to the power n. */
  function Decay(n: nat): real {
    if n == 0 then 1.0 else 0.8 * Decay(n - 1)
  }

  /** After n loosenings every threshold is at its loose clamp or has gone the whole way of n steps. */
  lemma {:induction false} LoosenedFar(t: Thresholds, n: nat)
    requires InClamps(t)
    ensures var after := Loosened(t, n);
            && InClamps(after)
            && (after.minUpload == 5.0 || after.minUpload <= 10.0 * Decay(n))
            && (after.latency == 200.0 || after.latency >= 50.0 * Growth(n))
            && (after.packetLoss == 0.5 || after.packetLoss >= 0.05 * Growth(n))
  {
    if n > 0 {
      LoosenedFar(t, n - 1);
    }
  }

  lemma {:induction false} TightenedFar(t: Thresholds, n: nat)
    requires InClamps(t)
    ensures var after := Tightened(t, n);
            && InClamps(after)
            && (after.minUpload == 10.0 || after.minUpload >= 5.0 * Growth(n))
            && (after.latency == 50.0 || after.latency <= 200.0 * Decay(n))
            && (after.packetLoss == 0.05 || after.packetLoss <= 0.5 * Decay(n))
  {
    if n > 0 {
      TightenedFar(t, n - 1);
    }
  }

  lemma {:induction false} GrowthMonotone(n: nat, m: nat)
    requires n <= m
    ensures 1.0 <= Growth(n) <= Growth(m) && 0.0 < Decay(m) <= Decay(n) <= 1.0
  {
    if n < m {
      GrowthMonotone(n, m - 1);
    } else if n > 0 {
      GrowthMonotone(n - 1, m - 1);
    }
  }

  lemma PowerBounds()
    ensures Growth(12) < 10.0 < Growth(13) && Decay(11) < 0.1 < Decay(10)
  {
    assert Growth(6) == 1.2 * 1.2 * 1.2 * 1.2 * 1.2 * 1.2;
    assert Decay(5) == 0.8 * 0.8 * 0.8 * 0.8 * 0.8;
  }

  /** From anywhere, thirteen consecutive loosenings reach the loosest thresholds and stay there, eleven
      tightenings the tightest. */
  lemma Saturates(t: Thresholds, n: nat)
    requires InClamps(t)
    ensures n >= 13 ==> Loosened(t, n) == LOOSEST
    ensures n >= 11 ==> Tightened(t, n) == TIGHTEST
  {
    PowerBounds();
    LoosenedFar(t, n);
    TightenedFar(t, n);
    if n >= 13 {
      GrowthMonotone(13, n);
    }
    if n >= 11 {
      GrowthMonotone(11, n);
    }
  }

  lemma {:induction false} FarthestWay(n: nat)
    ensures n <= 12 ==> Loosened(TIGHTEST, n).packetLoss == 0.05 * Growth(n)
    ensures n <= 10 ==> Tightened(LOOSEST, n).packetLoss == 0.5 * Decay(n)
  {
    PowerBounds();
    if n > 0 {
      FarthestWay(n - 1);
      if n <= 12 {
        GrowthMonotone(n, 12);
      }
      if n <= 10 {
        GrowthMonotone(n, 10);
      }
    }
  }

  /** Thirteen and eleven are the exact numbers: one step less does not do from the other end. */
  lemma SaturationIsTight()
    ensures Loosened(TIGHTEST, 12) != LOOSEST && Tightened(LOOSEST, 10) != TIGHTEST
  {
    PowerBounds();
    FarthestWay(12);
    FarthestWay(10);
  }

  // ---- Which way an adjustment goes ----

  /** A manager's state after a run from the start. */
  function After(es: seq<Event>): State {
    Run(State(INITIAL, []), es)
  }

  /** The counts a retarget looks at: the last fifty recorded, or all of them. */
  function Window(es: seq<Event>): seq<nat> {
    var counts := Recorded(es);
    if |counts| <= 50 then counts else counts[|counts| - 50..]
  }

  ghost function Count(): nat -> int { (n: nat) => n }

  lemma {:induction false} TotalIsSum(s: seq<nat>)
    ensures Total(s) == Sum(s, Count())
    decreases |s|
  {
    if s != [] {
      var n := |s| - 1;
      TotalIsSum(s[..n]);
      assert s == s[..n] + [s[n]];
      SumConcat(s[..n], [s[n]], Count());
      assert Sum([s[n]], Count()) == s[n] + Sum<nat>([], Count()) by {
        assert [s[n]][1..] == [];
      }
    }
  }

  /** Whatever the first thresholds accept the second do. */
  ghost predicate AcceptsAsMuch(t: Thresholds, after: Thresholds) {
    forall r :: Accepts(t, r) ==> Accepts(after, r)
  }

  ghost predicate AcceptsMore(t: Thresholds, after: Thresholds) {
    AcceptsAsMuch(t, after) && exists r :: !Accepts(t, r) && Accepts(after, r)
  }

  lemma AdjustIs(es: seq<Event>, height: nat)
    ensures After(es + [Adjust(height)]) == Step(After(es), Adjust(height))
    ensures After(es).history == Window(es) && InClamps(After(es).thresholds)
    ensures Total(Window(es)) == Sum(Window(es), Count())
  {
    assert (es + [Adjust(height)])[..|es|] == es;
    RunKeepsWindow(es);
    TotalIsSum(Window(es));
  }

  /** At a retarget height a mean below fifty accepts all that was accepted, and more unless every threshold was
      already at its loosest. */
  lemma FewValidatorsLoosen(es: seq<Event>, height: nat)
    requires height > 0 && height % 50 == 0 && Window(es) != []
    requires 0 < Sum(Window(es), Count()) / |Window(es)| < 50
    ensures var before, after := After(es).thresholds, After(es + [Adjust(height)]).thresholds;
            && AcceptsAsMuch(before, after)
            && (before != Thresholds(5.0, 200.0, 0.5) ==> AcceptsMore(before, after))
            && (before == Thresholds(5.0, 200.0, 0.5) ==> after == before)
  {
    AdjustIs(es, height);
    var before, after := After(es).thresholds, After(es + [Adjust(height)]).thresholds;
    var edge := TestResult(after.minUpload, after.latency, after.packetLoss);
    assert Accepts(after, edge);
    assert before != Thresholds(5.0, 200.0, 0.5) ==> !Accepts(before, edge);
  }

  /** A mean above five hundred accepts nothing that was refused, and less unless every threshold was already at its
      tightest. */
  lemma ManyValidatorsTighten(es: seq<Event>, height: nat)
    requires height > 0 && height % 50 == 0 && Window(es) != []
    requires Sum(Window(es), Count()) / |Window(es)| > 500
    ensures var before, after := After(es).thresholds, After(es + [Adjust(height)]).thresholds;
            && AcceptsAsMuch(after, before)
            && (before != Thresholds(10.0, 50.0, 0.05) ==> AcceptsMore(after, before))
            && (before == Thresholds(10.0, 50.0, 0.05) ==> after == before)
  {
    AdjustIs(es, height);
    var before, after := After(es).thresholds, After(es + [Adjust(height)]).thresholds;
    var edge := TestResult(before.minUpload, before.latency, before.packetLoss);
    assert Accepts(before, edge);
    assert before != Thresholds(10.0, 50.0, 0.05) ==> !Accepts(after, edge);
  }

  /** Any other height, no history, a mean of zero and a mean from fifty to five hundred change nothing. */
  lemma OtherwiseNothingChanges(es: seq<Event>, height: nat)
    requires height == 0 || height % 50 != 0 || Window(es) == []
             || Sum(Window(es), Count()) / |Window(es)| == 0
             || 50 <= Sum(Window(es), Count()) / |Window(es)| <= 500
    ensures After(es + [Adjust(height)]) == After(es)
  {
    AdjustIs(es, height);
  }

  /** By how much: a fifth of every threshold, up to the clamps. */
  lemma AdjustmentIsAFifth(es: seq<Event>, height: nat)
    requires height > 0 && height % 50 == 0 && Window(es) != []
    ensures var mean := Sum(Window(es), Count()) / |Window(es)|;
            var before, after := After(es).thresholds, After(es + [Adjust(height)]).thresholds;
            && (0 < mean < 50 ==>
                  && (5.0 * after.minUpload == 4.0 * before.minUpload || after.minUpload == 5.0)
                  && (5.0 * after.latency == 6.0 * before.latency || after.latency == 200.0)
                  && (5.0 * after.packetLoss == 6.0 * before.packetLoss || after.packetLoss == 0.5))
            && (mean > 500 ==>
                  && (5.0 * after.minUpload == 6.0 * before.minUpload || after.minUpload == 10.0)
                  && (5.0 * after.latency == 4.0 * before.latency || after.latency == 50.0)
                  && (5.0 * after.packetLoss == 4.0 * before.packetLoss || after.packetLoss == 0.05))
  {
    AdjustIs(es, height);
  }

  /** The first retarget after fifty blocks with ten validators each, and with a thousand each. */
  lemma FirstRetarget(count: nat)
    ensures After([]).thresholds == Thresholds(7.0, 100.0, 0.1)
    ensures var t := After(Repeated(count, 50) + [Adjust(50)]).thresholds;
            && (count == 10 ==> t == Thresholds(5.6, 120.0, 0.12))
            && (count == 1000 ==> t == Thresholds(8.4, 80.0, 0.08))
  {
    AdjustIs(Repeated(count, 50), 50);
    RepeatedIs(count, 50);
  }

  function Repeated(count: nat, n: nat): seq<Event> {
    seq(n, _ => Record(count))
  }

  lemma {:induction false} RepeatedIs(count: nat, n: nat)
    ensures |Recorded(Repeated(count, n))| == n && Total(Recorded(Repeated(count, n))) == n * count
    ensures After(Repeated(count, n)).thresholds == INITIAL
    decreases n
  {
    if n > 0 {
      RepeatedIs(count, n - 1);
      assert Repeated(count, n)[..n - 1] == Repeated(count, n - 1);
      TotalNext(Recorded(Repeated(count, n - 1)), count);
      Times(n, count);
    }
  }

  lemma TotalNext(s: seq<nat>, x: nat)
    ensures Total(s + [x]) == Total(s) + x
  {
    assert (s + [x])[..|s|] == s;
  }

  lemma Times(n: int, k: int)
    ensures n * k == (n - 1) * k + k
  {
  }
}
