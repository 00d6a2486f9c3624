/** The median of test results and the aggregate built from it (pob_speedtest.go). */
module Median {
  import opened Prelude
  import opened Sequences

  ghost predicate Sorted(s: seq<real>) {
    forall i, j :: 0 <= i < j < |s| ==> s[i] <= s[j]
  }

  /** The middle of a list: the mean of the two middle elements when there are two; 0 for an empty list. */
  ghost function Middle(s: seq<real>): real {
    var n := |s|;
    if n == 0 then 0.0
    else if n % 2 == 0 then (s[n / 2 - 1] + s[n / 2]) / 2.0
    else s[n / 2]
  }

  /** m is the middle of the values in sorted order. */
  ghost predicate IsMedian(m: real, values: seq<real>) {
    exists s :: Sorted(s) && multiset(s) == multiset(values) && m == Middle(s)
  }

  /** The in-place exchange sort. */
  method ExchangeSort(a: array<real>)
    modifies a
    ensures Sorted(a[..]) && multiset(a[..]) == multiset(old(a[..]))
  {
    var i := 0;
    while i < a.Length - 1
      invariant 0 <= i <= a.Length && (a.Length > 0 ==> i < a.Length)
      invariant multiset(a[..]) == multiset(old(a[..]))
      invariant SmallestFirst(a[..], i)
    {
      var j := i + 1;
      while j < a.Length
        invariant i < j <= a.Length
        invariant multiset(a[..]) == multiset(old(a[..]))
        invariant SmallestFirst(a[..], i)
        invariant forall k :: i < k < j ==> a[i] <= a[k]
      {
        if a[i] > a[j] {
          Swap(a, i, j);
        }
        j := j + 1;
      }
      i := i + 1;
    }
  }

  /** The first i elements are sorted and none of the others is smaller. */
  ghost predicate SmallestFirst(s: seq<real>, i: int) {
    forall k, l :: 0 <= k < i && k < l < |s| ==> s[k] <= s[l]
  }

  method Swap(a: array<real>, i: nat, j: nat)
    requires i < j < a.Length && SmallestFirst(a[..], i)
    modifies a
    ensures a[i] == old(a[j]) && a[j] == old(a[i])
    ensures forall k :: 0 <= k < a.Length && k != i && k != j ==> a[k] == old(a[k])
    ensures multiset(a[..]) == multiset(old(a[..])) && SmallestFirst(a[..], i)
  {
    a[i], a[j] := a[j], a[i];
  }

  method CalculateMedian(values: seq<real>) returns (median: real)
    ensures IsMedian(median, values)
  {
    if |values| == 0 {
      assert Sorted(values);
      return 0.0;
    }
    var n := |values|;
    if n == 1 {
      assert Sorted(values);
      return values[0];
    }
    var sorted := new real[n](i requires 0 <= i < n => values[i]);
    assert sorted[..] == values;
    ExchangeSort(sorted);
    assert Sorted(sorted[..]);
    if n % 2 == 0 {
      median := (sorted[n / 2 - 1] + sorted[n / 2]) / 2.0;
    } else {
      median := sorted[n / 2];
    }
    assert multiset(sorted[..]) == multiset(values) && median == Middle(sorted[..]);
  }

  lemma SortedHead(s: seq<real>, t: seq<real>)
    requires Sorted(s) && s != [] && t != [] && multiset(s) == multiset(t)
    ensures s[0] <= t[0]
  {
    assert t[0] in multiset(s);
    var k :| 0 <= k < |s| && s[k] == t[0];
  }

  /** One multiset has one sorted order. */
  lemma {:induction false} SortedIsUnique(s: seq<real>, t: seq<real>)
    requires Sorted(s) && Sorted(t) && multiset(s) == multiset(t)
    ensures s == t
    decreases |s|
  {
    if s == [] {
      EmptyPermutation(s, t);
    } else if t == [] {
      EmptyPermutation(t, s);
    } else {
      SortedHead(s, t);
      SortedHead(t, s);
      DropEqualHeads(s, t);
      SortedIsUnique(s[1..], t[1..]);
      SameHeadAndTail(s, t);
    }
  }

  /** The median depends only on which values there are and how often. */
  lemma MedianIsUnique(m1: real, values1: seq<real>, m2: real, values2: seq<real>)
    requires IsMedian(m1, values1) && IsMedian(m2, values2) && multiset(values1) == multiset(values2)
    ensures m1 == m2
  {
    var s :| Sorted(s) && multiset(s) == multiset(values1) && m1 == Middle(s);
    var t :| Sorted(t) && multiset(t) == multiset(values2) && m2 == Middle(t);
    SortedIsUnique(s, t);
  }

  // ---- Robustness ----

  ghost function Inside(lo: real, hi: real): real -> int {
    (x: real) => if lo <= x <= hi then 1 else 0
  }

  lemma {:induction false} InsideAtMostLength(s: seq<real>, lo: real, hi: real)
    ensures 0 <= Sum(s, Inside(lo, hi)) <= |s|
    ensures (forall i :: 0 <= i < |s| ==> !(lo <= s[i] <= hi)) ==> Sum(s, Inside(lo, hi)) == 0
  {
    if s != [] {
      InsideAtMostLength(s[1..], lo, hi);
    }
  }

  lemma InsideSplits(s: seq<real>, k: nat, lo: real, hi: real)
    requires k <= |s|
    ensures (forall i :: 0 <= i < k ==> !(lo <= s[i] <= hi)) ==> Sum(s, Inside(lo, hi)) <= |s| - k
    ensures (forall i :: k <= i < |s| ==> !(lo <= s[i] <= hi)) ==> Sum(s, Inside(lo, hi)) <= k
  {
    assert s == s[..k] + s[k..];
    SumConcat(s[..k], s[k..], Inside(lo, hi));
    InsideAtMostLength(s[..k], lo, hi);
    InsideAtMostLength(s[k..], lo, hi);
  }

  /** An element next to the middle of a sorted list lies where the majority lies. */
  lemma MiddleElementInside(s: seq<real>, i: nat, lo: real, hi: real)
    requires Sorted(s) && 2 * Sum(s, Inside(lo, hi)) > |s|
    requires i < |s| && |s| - 2 <= 2 * i <= |s|
    ensures lo <= s[i] <= hi
  {
    if s[i] < lo {
      InsideSplits(s, i + 1, lo, hi);
    }
    if s[i] > hi {
      InsideSplits(s, i, lo, hi);
    }
  }

  lemma MiddleInside(s: seq<real>, lo: real, hi: real)
    requires Sorted(s) && s != [] && 2 * Sum(s, Inside(lo, hi)) > |s|
    ensures lo <= Middle(s) <= hi
  {
    MiddleElementInside(s, |s| / 2, lo, hi);
    if |s| % 2 == 0 {
      MiddleElementInside(s, |s| / 2 - 1, lo, hi);
    }
  }

  /** If more than half of the values lie in an interval, the median does, whatever the others are. */
  lemma MajorityBoundsMedian(m: real, values: seq<real>, lo: real, hi: real)
    requires IsMedian(m, values) && 2 * Sum(values, Inside(lo, hi)) > |values|
    ensures lo <= m <= hi
  {
    var s :| Sorted(s) && multiset(s) == multiset(values) && m == Middle(s);
    assert |s| == |multiset(s)| == |values|;
    SumPermutation(s, values, Inside(lo, hi));
    InsideAtMostLength(s, lo, hi);
    MiddleInside(s, lo, hi);
  }

  // ---- Aggregation ----

  datatype TesterResult = TesterResult(anomalies: seq<string>, payloadVerified: bool,
                                       upload: real, latency: real, packetLoss: real)

  datatype Aggregate = Aggregate(upload: real, latency: real, packetLoss: real)

  datatype AggregateError = NoResults | InsufficientResults

  predicate Usable(r: TesterResult) {
    r.anomalies == [] && r.payloadVerified
  }

  function UsableTesters(results: map<string, TesterResult>): set<string> {
    set t | t in results && Usable(results[t])
  }

  /** Reads one metric of a tester. */
  ghost function Reader(results: map<string, TesterResult>, metric: TesterResult -> real): string -> real {
    t => if t in results then metric(results[t]) else 0.0
  }

  /** One metric of the listed testers. */
  ghost function Metric(results: map<string, TesterResult>, order: seq<string>, metric: TesterResult -> real)
    : seq<real>
  {
    Map(order, Reader(results, metric))
  }

  ghost function Upload(): TesterResult -> real { (r: TesterResult) => r.upload }
  ghost function Latency(): TesterResult -> real { (r: TesterResult) => r.latency }
  ghost function PacketLoss(): TesterResult -> real { (r: TesterResult) => r.packetLoss }

  /** The medians of the listed testers. */
  ghost predicate AreMedians(a: Aggregate, results: map<string, TesterResult>, order: seq<string>) {
    && IsMedian(a.upload, Metric(results, order, Upload()))
    && IsMedian(a.latency, Metric(results, order, Latency()))
    && IsMedian(a.packetLoss, Metric(results, order, PacketLoss()))
  }

  /** The three slices hold the metrics of the testers visited so far, who are the usable ones not left to do. */
  ghost predicate Collected(results: map<string, TesterResult>, visited: seq<string>, todo: set<string>,
                            uploads: seq<real>, latencies: seq<real>, packetLosses: seq<real>) {
    && Enumerates(visited, UsableTesters(results) - todo)
    && uploads == Metric(results, visited, Upload())
    && latencies == Metric(results, visited, Latency())
    && packetLosses == Metric(results, visited, PacketLoss())
  }

  lemma CollectNext(results: map<string, TesterResult>, visited: seq<string>, todo: set<string>, t: string,
                    uploads: seq<real>, latencies: seq<real>, packetLosses: seq<real>)
    requires Collected(results, visited, todo, uploads, latencies, packetLosses)
    requires t in todo && t in results
    ensures if Usable(results[t])
            then Collected(results, visited + [t], todo - {t}, uploads + [results[t].upload],
                           latencies + [results[t].latency], packetLosses + [results[t].packetLoss])
            else Collected(results, visited, todo - {t}, uploads, latencies, packetLosses)
  {
    if Usable(results[t]) {
      MetricNext(results, visited, t, Upload());
      MetricNext(results, visited, t, Latency());
      MetricNext(results, visited, t, PacketLoss());
      assert t !in Elements(visited);
      assert Elements(visited + [t]) == Elements(visited) + {t};
      assert UsableTesters(results) - (todo - {t}) == (UsableTesters(results) - todo) + {t};
    } else {
      assert UsableTesters(results) - (todo - {t}) == UsableTesters(results) - todo;
    }
  }

  lemma MetricNext(results: map<string, TesterResult>, order: seq<string>, t: string, metric: TesterResult -> real)
    requires t in results
    ensures Metric(results, order + [t], metric) == Metric(results, order, metric) + [metric(results[t])]
  {
    MapConcat(order, [t], Reader(results, metric));
  }

  /** The loop over the results: three slices in one order. */
  method CollectUsable(results: map<string, TesterResult>)
    returns (uploads: seq<real>, latencies: seq<real>, packetLosses: seq<real>, validCount: nat)
    ensures exists visited ::
              Collected(results, visited, {}, uploads, latencies, packetLosses) && validCount == |visited|
  {
    uploads, latencies, packetLosses, validCount := [], [], [], 0;
    ghost var visited := [];
    var todo := results.Keys;
    assert UsableTesters(results) - todo == {};
    while todo != {}
      invariant todo <= results.Keys && validCount == |visited|
      invariant Collected(results, visited, todo, uploads, latencies, packetLosses)
      decreases todo
    {
      var t :| t in todo;
      CollectNext(results, visited, todo, t, uploads, latencies, packetLosses);
      todo := todo - {t};
      var result := results[t];
      if |result.anomalies| > 0 {
        continue;
      }
      if !result.payloadVerified {
        continue;
      }
      uploads := uploads + [result.upload];
      latencies := latencies + [result.latency];
      packetLosses := packetLosses + [result.packetLoss];
      validCount := validCount + 1;
      visited := visited + [t];
    }
  }

  /** Ranges over the results in any order; the medians are those of the usable results in every other order. */
  method AggregateP2PResults(results: map<string, TesterResult>) returns (aggregate: Result<Aggregate, AggregateError>)
    ensures aggregate == Err(NoResults) <==> results == map[]
    ensures aggregate == Err(InsufficientResults) <==> results != map[] && |UsableTesters(results)| < 2
    ensures aggregate.Ok? ==>
              forall order :: Enumerates(order, UsableTesters(results)) ==> AreMedians(aggregate.value, results, order)
  {
    if |results| == 0 {
      return Err(NoResults);
    }
    var uploads, latencies, packetLosses, validCount;
    uploads, latencies, packetLosses, validCount := CollectUsable(results);
    ghost var visited :| Collected(results, visited, {}, uploads, latencies, packetLosses) && validCount == |visited|;
    NoDuplicatesSize(visited);
    assert UsableTesters(results) - {} == UsableTesters(results);
    if validCount < 2 {
      return Err(InsufficientResults);
    }
    var medianUpload := CalculateMedian(uploads);
    var medianLatency := CalculateMedian(latencies);
    var medianPacketLoss := CalculateMedian(packetLosses);
    aggregate := Ok(Aggregate(medianUpload, medianLatency, medianPacketLoss));
    MediansInAnyOrder(aggregate.value, results, visited);
  }

  lemma MediansInAnyOrder(a: Aggregate, results: map<string, TesterResult>, visited: seq<string>)
    requires Enumerates(visited, UsableTesters(results)) && AreMedians(a, results, visited)
    ensures forall order :: Enumerates(order, UsableTesters(results)) ==> AreMedians(a, results, order)
  {
    forall order | Enumerates(order, UsableTesters(results)) ensures AreMedians(a, results, order) {
      MedianInAnyOrder(a.upload, results, visited, order, Upload());
      MedianInAnyOrder(a.latency, results, visited, order, Latency());
      MedianInAnyOrder(a.packetLoss, results, visited, order, PacketLoss());
    }
  }

  lemma MedianInAnyOrder(m: real, results: map<string, TesterResult>, a: seq<string>, b: seq<string>,
                         metric: TesterResult -> real)
    requires NoDuplicates(a) && NoDuplicates(b) && Elements(a) == Elements(b)
    requires IsMedian(m, Metric(results, a, metric))
    ensures IsMedian(m, Metric(results, b, metric))
  {
    SameListing(a, b);
    MapPermutation(a, b, Reader(results, metric));
    var s :| Sorted(s) && multiset(s) == multiset(Metric(results, a, metric)) && m == Middle(s);
    assert Sorted(s) && multiset(s) == multiset(Metric(results, b, metric));
  }

  // ---- What the median of few, and of mirrored, values is ----

  lemma SortedTwo(s: seq<real>, a: real, b: real)
    requires Sorted(s) && multiset(s) == multiset{a, b}
    ensures s == if a <= b then [a, b] else [b, a]
  {
    assert |s| == |multiset(s)| == 2;
    assert s == [s[0], s[1]];
    assert s[0] in multiset{a, b} && s[1] in multiset{a, b};
    assert s[0] == s[1] ==> multiset(s)[s[0]] == 2;
  }

  /** The median of two values is their mean. */
  lemma MedianOfTwo(m: real, a: real, b: real)
    requires IsMedian(m, [a, b])
    ensures m == (a + b) / 2.0
  {
    var s :| Sorted(s) && multiset(s) == multiset([a, b]) && m == Middle(s);
    SortedTwo(s, a, b);
  }

  /** The values of a list with their signs turned, in the opposite order. */
  ghost function Mirrored(s: seq<real>): (t: seq<real>)
    ensures |t| == |s|
  {
    seq(|s|, i requires 0 <= i < |s| => -s[|s| - 1 - i])
  }

  ghost function Minus(): real -> real { (x: real) => -x }

  lemma {:induction false} MirroredIsNegated(s: seq<real>)
    ensures multiset(Mirrored(s)) == multiset(Map(s, Minus()))
    decreases |s|
  {
    if s != [] {
      var n := |s| - 1;
      MirroredIsNegated(s[..n]);
      assert Mirrored(s) == [-s[n]] + Mirrored(s[..n]);
      assert Map(s, Minus()) == Map(s[..n], Minus()) + [-s[n]];
    }
  }

  /** Turning the sign of every value turns the sign of the median. */
  lemma MedianMirrors(m: real, values: seq<real>)
    requires IsMedian(m, values)
    ensures IsMedian(-m, Map(values, Minus()))
  {
    var s :| Sorted(s) && multiset(s) == multiset(values) && m == Middle(s);
    var t := Mirrored(s);
    MirroredIsNegated(s);
    MapPermutation(s, values, Minus());
    assert Sorted(t);
    assert Middle(t) == -m;
  }

  // ---- What an aggregate is made of ----

  /** A result counts exactly without anomalies and with a verified payload. */
  lemma CountsIff(results: map<string, TesterResult>, t: string)
    ensures t in UsableTesters(results)
            <==> t in results && |results[t].anomalies| == 0 && results[t].payloadVerified
  {
  }

  /** With two usable results every metric of the aggregate is the mean of that metric. */
  lemma TwoTestersAreAveraged(a: Aggregate, results: map<string, TesterResult>, t: string, u: string)
    requires t in results && u in results && AreMedians(a, results, [t, u])
    ensures a.upload == (results[t].upload + results[u].upload) / 2.0
    ensures a.latency == (results[t].latency + results[u].latency) / 2.0
    ensures a.packetLoss == (results[t].packetLoss + results[u].packetLoss) / 2.0
  {
    assert Metric(results, [t, u], Upload()) == [results[t].upload, results[u].upload];
    assert Metric(results, [t, u], Latency()) == [results[t].latency, results[u].latency];
    assert Metric(results, [t, u], PacketLoss()) == [results[t].packetLoss, results[u].packetLoss];
    MedianOfTwo(a.upload, results[t].upload, results[u].upload);
    MedianOfTwo(a.latency, results[t].latency, results[u].latency);
    MedianOfTwo(a.packetLoss, results[t].packetLoss, results[u].packetLoss);
  }
}
