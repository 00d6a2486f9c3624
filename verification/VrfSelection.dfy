/** The proposer check that maps a VRF output to a validator's weight range (vrf_verification.go). */
module VrfSelection {
  import opened Prelude
  import opened Blocks

  datatype SelectionError = MissingProof | UnknownProposer | ScoreTooLow | Panic | OutOfRange

  predicate Eligible(v: ValidatorInfo) {
    v.active && !v.suspended
  }

  ghost predicate DistinctIDs(vs: seq<ValidatorInfo>) {
    forall i, j :: 0 <= i < j < |vs| ==> vs[i].id != vs[j].id
  }

  ghost predicate NonNegativeScores(vs: seq<ValidatorInfo>) {
    forall i :: 0 <= i < |vs| ==> vs[i].score >= 0.0
  }

  /** The weight of the eligible validators in a list. */
  function Weight(vs: seq<ValidatorInfo>): real {
    if vs == [] then 0.0
    else
      var n := |vs| - 1;
      Weight(vs[..n]) + if Eligible(vs[n]) then vs[n].score else 0.0
  }

  /** Position k of the list owns the selection value x: its weight range contains x. */
  ghost predicate Owns(vs: seq<ValidatorInfo>, k: nat, x: real) {
    && k < |vs| && Eligible(vs[k]) && Weight(vs) > 0.0
    && Weight(vs[..k]) / Weight(vs) <= x < Weight(vs[..k + 1]) / Weight(vs)
  }

  /** The first position of an ID, or the length of the list. */
  ghost function First(vs: seq<ValidatorInfo>, id: string): (p: nat)
    ensures p <= |vs| && (p < |vs| ==> vs[p].id == id) && forall i :: 0 <= i < p ==> vs[i].id != id
  {
    if vs == [] || vs[0].id == id then 0 else 1 + First(vs[1..], id)
  }

  /** The first eligible position of an ID. */
  ghost function FirstEligible(vs: seq<ValidatorInfo>, id: string): (p: nat)
    ensures p <= |vs| && (p < |vs| ==> vs[p].id == id && Eligible(vs[p]))
    ensures forall i :: 0 <= i < p ==> !(vs[i].id == id && Eligible(vs[i]))
  {
    if vs == [] || (vs[0].id == id && Eligible(vs[0])) then 0 else 1 + FirstEligible(vs[1..], id)
  }

  /** x < a / t as floats compare it: a quotient by zero is infinite or, for zero by zero, not a number. */
  predicate Under(x: real, a: real, t: real) {
    if t == 0.0 then a > 0.0 else x < a / t
  }

  /** x >= a / t likewise. */
  predicate AtLeast(x: real, a: real, t: real) {
    if t == 0.0 then a < 0.0 else x >= a / t
  }

  /** The check: the first record of the ID scores at least one half, and the value is not outside the range of the
      first eligible one. */
  ghost predicate Accepts(vs: seq<ValidatorInfo>, id: string, x: real) {
    var p, q := First(vs, id), FirstEligible(vs, id);
    && p < |vs| && vs[p].score >= 0.5 && q < |vs|
    && !Under(x, Weight(vs[..q]), Weight(vs)) && !AtLeast(x, Weight(vs[..q + 1]), Weight(vs))
  }

  /** The selection value of a VRF output, from its first byte. */
  function Selection(output: Bytes): real
    requires output != []
  {
    output[0] as real / 256.0
  }

  /** The output checked: the header's, or else the first 32 bytes of the proof; None when indexing it panics. */
  function OutputOf(b: Block): Option<Bytes> {
    if b.header.vrfOutput.Some? then if b.header.vrfOutput.value == [] then None else b.header.vrfOutput
    else if b.vrfProof.Some? && |b.vrfProof.value| >= 32 then Some(b.vrfProof.value[..32])
    else None
  }

  /** Which check fails first. */
  ghost function Verdict(b: Block, vs: seq<ValidatorInfo>): Option<SelectionError> {
    var p := First(vs, b.proposerID);
    if b.vrfProof.None? then Some(MissingProof)
    else if p == |vs| then Some(UnknownProposer)
    else if vs[p].score < 0.5 then Some(ScoreTooLow)
    else if OutputOf(b).None? then Some(Panic)
    else if !Accepts(vs, b.proposerID, Selection(OutputOf(b).value)) then Some(OutOfRange)
    else None
  }

  method VerifyVRFProposerSelection(b: Block, vs: seq<ValidatorInfo>) returns (error: Option<SelectionError>)
    ensures error == Verdict(b, vs)
    ensures error.None? <==> b.vrfProof.Some? && OutputOf(b).Some?
                             && Accepts(vs, b.proposerID, Selection(OutputOf(b).value))
  {
    if b.vrfProof.None? {
      return Some(MissingProof);
    }
    var p := FindProposer(vs, b.proposerID);
    if p == |vs| {
      return Some(UnknownProposer);
    }
    if vs[p].score < 0.5 {
      return Some(ScoreTooLow);
    }
    var totalWeight := TotalWeight(vs);
    var output := OutputOf(b);
    if output.None? {
      return Some(Panic);
    }
    var selectionValue := output.value[0] as real / 256.0;
    var weights := ProposerWeights(vs, b.proposerID);
    // Without a range the value is not below zero, so it is outside [0, 0).
    if weights.None? || Under(selectionValue, weights.value.0, totalWeight)
       || AtLeast(selectionValue, weights.value.1, totalWeight) {
      return Some(OutOfRange);
    }
    return None;
  }

  /** The loop over the eligible validators: the running weight before and after the proposer. */
  method ProposerWeights(vs: seq<ValidatorInfo>, id: string) returns (weights: Option<(real, real)>)
    ensures var q := FirstEligible(vs, id);
            weights == if q < |vs| then Some((Weight(vs[..q]), Weight(vs[..q + 1]))) else None
  {
    var cumulativeWeight, i := 0.0, 0;
    while i < |vs|
      invariant 0 <= i <= |vs| && i <= FirstEligible(vs, id) && cumulativeWeight == Weight(vs[..i])
    {
      assert vs[..i + 1][..i] == vs[..i];
      if !Eligible(vs[i]) {
        i := i + 1;
        continue;
      }
      var start := cumulativeWeight;
      cumulativeWeight := cumulativeWeight + vs[i].score;
      if vs[i].id == id {
        return Some((start, cumulativeWeight));
      }
      i := i + 1;
    }
    return None;
  }

  /** The first validator with the ID, or the length of the list. */
  method FindProposer(vs: seq<ValidatorInfo>, id: string) returns (p: nat)
    ensures p == First(vs, id)
  {
    p := 0;
    while p < |vs| && vs[p].id != id
      invariant p <= First(vs, id)
    {
      p := p + 1;
    }
  }

  method TotalWeight(vs: seq<ValidatorInfo>) returns (total: real)
    ensures total == Weight(vs)
  {
    total := 0.0;
    for i := 0 to |vs|
      invariant total == Weight(vs[..i])
    {
      assert vs[..i + 1][..i] == vs[..i];
      if Eligible(vs[i]) {
        total := total + vs[i].score;
      }
    }
    assert vs[..|vs|] == vs;
  }

  lemma {:induction false} WeightMonotone(vs: seq<ValidatorInfo>, i: nat, j: nat)
    requires NonNegativeScores(vs) && i <= j <= |vs|
    ensures 0.0 <= Weight(vs[..i]) <= Weight(vs[..j])
    decreases j
  {
    if i < j {
      WeightMonotone(vs, i, j - 1);
      assert vs[..j][..j - 1] == vs[..j - 1];
    } else if i > 0 {
      WeightMonotone(vs, i - 1, i - 1);
      assert vs[..i][..i - 1] == vs[..i - 1];
    }
  }

  /** An eligible validator with at least half a point makes the total weight positive. */
  lemma EligibleWeight(vs: seq<ValidatorInfo>, p: nat)
    requires NonNegativeScores(vs) && p < |vs| && Eligible(vs[p]) && vs[p].score >= 0.5
    ensures Weight(vs) > 0.0
  {
    WeightMonotone(vs, 0, p);
    WeightMonotone(vs, p + 1, |vs|);
    assert vs[..p + 1][..p] == vs[..p] && vs[..|vs|] == vs;
  }

  lemma MultiplyOrder(a: real, b: real, t: real)
    requires t > 0.0
    ensures a <= b <==> a * t <= b * t
  {
    if a <= b {
      assert (b - a) * t >= 0.0;
    } else {
      assert (a - b) * t > 0.0;
    }
  }

  lemma DivideOrder(a: real, x: real, t: real)
    requires t > 0.0
    ensures a / t <= x <==> a <= x * t
  {
    var q := a / t;
    assert q * t == a;
    MultiplyOrder(q, x, t);
  }

  // ---- The ranges tile [0, 1) ----

  /** The owner is found where the running weight first exceeds the selected weight. */
  lemma {:induction false} OwnerBelow(vs: seq<ValidatorInfo>, n: nat, w: real) returns (k: nat)
    requires NonNegativeScores(vs) && n <= |vs| && 0.0 <= w < Weight(vs[..n])
    ensures k < n && Eligible(vs[k]) && Weight(vs[..k]) <= w < Weight(vs[..k + 1])
    decreases n
  {
    assert n > 0 by {
      assert vs[..0] == [];
    }
    assert vs[..n][..n - 1] == vs[..n - 1];
    if w < Weight(vs[..n - 1]) {
      k := OwnerBelow(vs, n - 1, w);
    } else {
      k := n - 1;
    }
  }

  /** Every selection value in [0, 1) is owned, as long as anyone has weight. */
  lemma SomeoneOwns(vs: seq<ValidatorInfo>, x: real) returns (k: nat)
    requires NonNegativeScores(vs) && Weight(vs) > 0.0 && 0.0 <= x < 1.0
    ensures Owns(vs, k, x)
  {
    assert vs[..|vs|] == vs;
    var total := Weight(vs);
    var w := Scale(x, total);
    k := OwnerBelow(vs, |vs|, w);
    DivideOrder(Weight(vs[..k]), x, total);
    DivideOrder(Weight(vs[..k + 1]), x, total);
  }

  lemma Scale(x: real, total: real) returns (w: real)
    requires total > 0.0 && 0.0 <= x < 1.0
    ensures w == x * total && 0.0 <= w < total
  {
    w := x * total;
    var rest := (1.0 - x) * total;
    assert rest > 0.0 && rest == total - w;
  }

  /** And by one validator only. */
  lemma OwnerIsUnique(vs: seq<ValidatorInfo>, i: nat, j: nat, x: real)
    requires NonNegativeScores(vs) && Owns(vs, i, x) && Owns(vs, j, x)
    ensures i == j
  {
    if i < j {
      WeightMonotone(vs, i + 1, j);
      DivideMonotone(Weight(vs[..i + 1]), Weight(vs[..j]), Weight(vs));
    } else if j < i {
      WeightMonotone(vs, j + 1, i);
      DivideMonotone(Weight(vs[..j + 1]), Weight(vs[..i]), Weight(vs));
    }
  }

  lemma DivideMonotone(a: real, b: real, t: real)
    requires t > 0.0 && a <= b
    ensures a / t <= b / t
  {
    DivideOrder(a, b / t, t);
    assert b / t * t == b;
  }

  lemma SelectionInRange(output: Bytes)
    requires output != []
    ensures 0.0 <= Selection(output) < 1.0
  {
  }

  // ---- When the check is sound ----

  /** An eligible record that scores at least one half. */
  ghost predicate Candidate(vs: seq<ValidatorInfo>, k: nat) {
    k < |vs| && Eligible(vs[k]) && vs[k].score >= 0.5
  }

  /** The weights cancel out, and the running weight passes zero at position k: its range runs from minus infinity,
      or what is not a number, to infinity. */
  ghost predicate Straddles(vs: seq<ValidatorInfo>, k: nat) {
    k < |vs| && Weight(vs) == 0.0 && Weight(vs[..k]) <= 0.0 <= Weight(vs[..k + 1])
  }

  lemma CandidateAdds(vs: seq<ValidatorInfo>, k: nat)
    requires Candidate(vs, k)
    ensures Weight(vs[..k + 1]) == Weight(vs[..k]) + vs[k].score
  {
    assert vs[..k + 1][..k] == vs[..k];
  }

  lemma NegativeQuotientOrder(a: real, b: real, t: real)
    requires t < 0.0 && a <= b
    ensures b / t <= a / t
  {
    var p, q := a / t, b / t;
    assert p * t == a && q * t == b;
    assert (q - p) * t >= 0.0;
  }

  /** With distinct IDs the check accepts an ID exactly when its record is a candidate that owns the value or that
      straddles a cancelled weight. */
  lemma AcceptsIff(vs: seq<ValidatorInfo>, id: string, x: real)
    requires DistinctIDs(vs)
    ensures Accepts(vs, id, x)
            <==> exists k: nat :: Candidate(vs, k) && vs[k].id == id && (Owns(vs, k, x) || Straddles(vs, k))
  {
    var p := First(vs, id);
    forall k | 0 <= k < |vs| && vs[k].id == id ensures k == p {}
    if Candidate(vs, p) {
      CandidateDecides(vs, p, x);
    }
  }

  lemma CandidateDecides(vs: seq<ValidatorInfo>, p: nat, x: real)
    requires Candidate(vs, p)
    ensures !Under(x, Weight(vs[..p]), Weight(vs)) && !AtLeast(x, Weight(vs[..p + 1]), Weight(vs))
            <==> Owns(vs, p, x) || Straddles(vs, p)
  {
    CandidateAdds(vs, p);
    if Weight(vs) < 0.0 {
      NegativeQuotientOrder(Weight(vs[..p]), Weight(vs[..p + 1]), Weight(vs));
    }
  }

  /** Whoever passes owns the value. */
  ghost predicate OnlyOwnersPass(vs: seq<ValidatorInfo>) {
    forall id, x :: Accepts(vs, id, x) ==> exists k: nat :: Owns(vs, k, x) && vs[k].id == id
  }

  /** Only owners ever pass exactly when no candidate straddles a cancelled weight. */
  lemma OnlyOwnersPassIff(vs: seq<ValidatorInfo>)
    requires DistinctIDs(vs)
    ensures OnlyOwnersPass(vs) <==> forall p: nat :: Candidate(vs, p) ==> !Straddles(vs, p)
  {
    if p: nat :| Candidate(vs, p) && Straddles(vs, p) {
      AcceptsIff(vs, vs[p].id, 0.0);
      assert Accepts(vs, vs[p].id, 0.0) && forall k: nat :: !Owns(vs, k, 0.0);
    } else {
      forall id, x | Accepts(vs, id, x) ensures exists k: nat :: Owns(vs, k, x) && vs[k].id == id {
        AcceptsIff(vs, id, x);
      }
    }
  }

  /** No selection value lets two IDs pass. */
  ghost predicate OnePassesPerValue(vs: seq<ValidatorInfo>) {
    forall x, id, other :: 0.0 <= x < 1.0 && Accepts(vs, id, x) && Accepts(vs, other, x) ==> id == other
  }

  function Max(a: real, b: real): real {
    if a < b then b else a
  }

  function Min(a: real, b: real): real {
    if a < b then a else b
  }

  /** Two positions of which one value can pass both: their ranges overlap inside [0, 1), or both straddle. */
  ghost predicate Conflict(vs: seq<ValidatorInfo>, i: nat, j: nat) {
    && i < |vs| && j < |vs|
    && if Weight(vs) > 0.0 then
         Max(0.0, Max(Weight(vs[..i]), Weight(vs[..j])))
         < Min(Weight(vs), Min(Weight(vs[..i + 1]), Weight(vs[..j + 1])))
       else Straddles(vs, i) && Straddles(vs, j)
  }

  /** The range [a, b) of a total t contains x exactly when [a, b) contains the weight that x selects. */
  lemma RangeOrder(a: real, b: real, x: real, w: real, t: real)
    requires t > 0.0 && x * t == w
    ensures a / t <= x < b / t <==> a <= w < b
    ensures 0.0 <= x <==> 0.0 <= w
    ensures x < 1.0 <==> w < t
  {
    DivideOrder(a, x, t);
    DivideOrder(b, x, t);
    MultiplyOrder(0.0, x, t);
    MultiplyOrder(1.0, x, t);
  }

  /** Overlapping parts of [0, t) share the quotient of their overlap's start ... */
  lemma OverlapIsShared(a: real, b: real, c: real, d: real, t: real) returns (x: real)
    requires t > 0.0 && Max(0.0, Max(a, c)) < Min(t, Min(b, d))
    ensures 0.0 <= x < 1.0 && a / t <= x < b / t && c / t <= x < d / t
  {
    var w := Max(0.0, Max(a, c));
    x := w / t;
    assert x * t == w;
    RangeOrder(a, b, x, w, t);
    RangeOrder(c, d, x, w, t);
  }

  /** ... and only overlapping ones share any. */
  lemma SharedIsOverlap(a: real, b: real, c: real, d: real, x: real, t: real)
    requires t > 0.0 && 0.0 <= x < 1.0 && a / t <= x < b / t && c / t <= x < d / t
    ensures Max(0.0, Max(a, c)) < Min(t, Min(b, d))
  {
    RangeOrder(a, b, x, x * t, t);
    RangeOrder(c, d, x, x * t, t);
  }

  lemma CandidatePasses(vs: seq<ValidatorInfo>, k: nat, x: real)
    requires DistinctIDs(vs) && Candidate(vs, k)
    ensures Accepts(vs, vs[k].id, x) <==> Owns(vs, k, x) || Straddles(vs, k)
  {
    AcceptsIff(vs, vs[k].id, x);
    forall i: nat | i < |vs| && vs[i].id == vs[k].id ensures i == k {}
  }

  lemma ConflictIsShared(vs: seq<ValidatorInfo>, i: nat, j: nat) returns (x: real)
    requires DistinctIDs(vs) && Candidate(vs, i) && Candidate(vs, j) && Conflict(vs, i, j)
    ensures 0.0 <= x < 1.0 && Accepts(vs, vs[i].id, x) && Accepts(vs, vs[j].id, x)
  {
    x := 0.0;
    if Weight(vs) > 0.0 {
      x := OverlapIsShared(Weight(vs[..i]), Weight(vs[..i + 1]), Weight(vs[..j]), Weight(vs[..j + 1]), Weight(vs));
    }
    CandidatePasses(vs, i, x);
    CandidatePasses(vs, j, x);
  }

  lemma SharedIsConflict(vs: seq<ValidatorInfo>, i: nat, j: nat, x: real)
    requires DistinctIDs(vs) && Candidate(vs, i) && Candidate(vs, j)
    requires 0.0 <= x < 1.0 && Accepts(vs, vs[i].id, x) && Accepts(vs, vs[j].id, x)
    ensures Conflict(vs, i, j)
  {
    CandidatePasses(vs, i, x);
    CandidatePasses(vs, j, x);
    if Weight(vs) > 0.0 {
      SharedIsOverlap(Weight(vs[..i]), Weight(vs[..i + 1]), Weight(vs[..j]), Weight(vs[..j + 1]), x, Weight(vs));
    }
  }

  /** At most one ID passes per value exactly when no two candidates' ranges overlap inside [0, 1), or, when the
      weights cancel out, no two straddle. */
  lemma OnePassesPerValueIff(vs: seq<ValidatorInfo>)
    requires DistinctIDs(vs)
    ensures OnePassesPerValue(vs)
            <==> forall i: nat, j: nat :: i < j && Candidate(vs, i) && Candidate(vs, j) ==> !Conflict(vs, i, j)
  {
    if i: nat, j: nat :| i < j && Candidate(vs, i) && Candidate(vs, j) && Conflict(vs, i, j) {
      var x := ConflictIsShared(vs, i, j);
      assert vs[i].id != vs[j].id && !OnePassesPerValue(vs);
    } else {
      forall x, id, other | 0.0 <= x < 1.0 && Accepts(vs, id, x) && Accepts(vs, other, x) ensures id == other {
        AcceptsIff(vs, id, x);
        AcceptsIff(vs, other, x);
        var i: nat :| Candidate(vs, i) && vs[i].id == id;
        var j: nat :| Candidate(vs, j) && vs[j].id == other;
        if i < j {
          SharedIsConflict(vs, i, j, x);
        } else if j < i {
          SharedIsConflict(vs, j, i, x);
        }
      }
    }
  }

  lemma WeightNext(vs: seq<ValidatorInfo>, v: ValidatorInfo)
    ensures Weight(vs + [v]) == Weight(vs) + if Eligible(v) then v.score else 0.0
  {
    assert (vs + [v])[..|vs + [v]| - 1] == vs;
  }

  /** A negative score can cancel the weight, and then the proposer passes for every value, which nobody owns. */
  lemma CancelledWeightPasses(a: ValidatorInfo, b: ValidatorInfo, x: real)
    requires Eligible(a) && Eligible(b) && a.id != b.id && a.score >= 0.5 && b.score == -a.score
    ensures Accepts([a, b], a.id, x) && forall k: nat :: !Owns([a, b], k, x)
  {
    var vs := [a, b];
    assert vs[..0] == [] && vs[..1] == [a] && [a][..0] == [];
    WeightNext([], a);
    WeightNext([a], b);
    assert [] + [a] == [a] && [a] + [b] == vs;
  }

  lemma ThreeWeights(a: ValidatorInfo, b: ValidatorInfo, c: ValidatorInfo)
    requires Eligible(a) && Eligible(b) && Eligible(c)
    ensures var vs := [a, b, c];
            && Weight(vs[..0]) == 0.0 && Weight(vs[..1]) == a.score && Weight(vs[..2]) == a.score + b.score
            && Weight(vs[..3]) == Weight(vs) == a.score + b.score + c.score
  {
    var vs := [a, b, c];
    WeightNext([], a);
    WeightNext([a], b);
    WeightNext([a, b], c);
    assert [] + [a] == vs[..1] && [a] + [b] == vs[..2] && [a, b] + [c] == vs == vs[..3];
  }

  /** And with a positive weight it can let two proposers pass for one value. */
  lemma OverlapPassesTwo(a: ValidatorInfo, b: ValidatorInfo, c: ValidatorInfo)
    requires Eligible(a) && Eligible(b) && Eligible(c) && DistinctIDs([a, b, c])
    requires a.score == 1.0 && b.score == -0.5 && c.score == 1.0
    ensures Weight([a, b, c]) == 1.5
    ensures Accepts([a, b, c], a.id, 0.5) && Accepts([a, b, c], c.id, 0.5)
  {
    ThreeWeights(a, b, c);
    RangeOrder(0.0, 1.0, 0.5, 0.75, 1.5);
    RangeOrder(0.5, 1.5, 0.5, 0.75, 1.5);
    CandidatePasses([a, b, c], 0, 0.5);
    CandidatePasses([a, b, c], 2, 0.5);
  }

  // ---- Scores that are not negative ----

  /** Without negative scores an eligible candidate brings weight, so nothing straddles ... */
  lemma NonNegativeNeverStraddles(vs: seq<ValidatorInfo>, p: nat)
    requires NonNegativeScores(vs) && Candidate(vs, p)
    ensures !Straddles(vs, p)
  {
    EligibleWeight(vs, p);
  }

  lemma OwnerDecides(vs: seq<ValidatorInfo>, k: nat, x: real)
    requires DistinctIDs(vs) && NonNegativeScores(vs) && Owns(vs, k, x)
    ensures forall id :: Accepts(vs, id, x) <==> vs[k].id == id && vs[k].score >= 0.5
  {
    forall id ensures Accepts(vs, id, x) <==> vs[k].id == id && vs[k].score >= 0.5 {
      AcceptsIff(vs, id, x);
      forall i: nat | Owns(vs, i, x) ensures i == k {
        OwnerIsUnique(vs, i, k, x);
      }
    }
  }

  /** ... and for every output exactly one validator owns the selection value; a block passes if and only if its
      proposer is that validator and scores at least one half. So at most one ID passes and no inactive or
      suspended one ever does. */
  lemma ExactlyTheOwnerPasses(vs: seq<ValidatorInfo>, output: Bytes) returns (k: nat)
    requires DistinctIDs(vs) && NonNegativeScores(vs) && Weight(vs) > 0.0 && output != []
    ensures Owns(vs, k, Selection(output)) && forall i: nat :: Owns(vs, i, Selection(output)) ==> i == k
    ensures forall b: Block :: b.vrfProof.Some? && OutputOf(b) == Some(output) ==>
              (Verdict(b, vs).None? <==> b.proposerID == vs[k].id && vs[k].score >= 0.5)
    ensures forall b: Block :: b.vrfProof.Some? && OutputOf(b) == Some(output) && Verdict(b, vs).None? ==>
              forall i :: 0 <= i < |vs| && vs[i].id == b.proposerID ==> Eligible(vs[i])
  {
    var x := Selection(output);
    SelectionInRange(output);
    k := SomeoneOwns(vs, x);
    OwnerDecides(vs, k, x);
    forall i: nat | Owns(vs, i, x) ensures i == k {
      OwnerIsUnique(vs, i, k, x);
    }
    forall b: Block | b.vrfProof.Some? && OutputOf(b) == Some(output)
      ensures Verdict(b, vs).None? <==> b.proposerID == vs[k].id && vs[k].score >= 0.5
    {
      assert Verdict(b, vs).None? <==> Accepts(vs, b.proposerID, x);
    }
  }

  /** The start of a positive weight's own range is a value it owns. */
  lemma OwnsItsStart(vs: seq<ValidatorInfo>, k: nat) returns (x: real)
    requires NonNegativeScores(vs) && k < |vs| && Eligible(vs[k]) && vs[k].score > 0.0
    ensures Owns(vs, k, x) && 0.0 <= x < 1.0
  {
    assert vs[..k + 1][..k] == vs[..k] && vs[..|vs|] == vs;
    WeightMonotone(vs, 0, k);
    WeightMonotone(vs, k + 1, |vs|);
    x := OwnStart(Weight(vs[..k]), Weight(vs[..k + 1]), Weight(vs));
  }

  lemma OwnStart(a: real, b: real, t: real) returns (x: real)
    requires 0.0 <= a < b <= t
    ensures a / t <= x < b / t && 0.0 <= x < 1.0
  {
    x := OverlapIsShared(a, b, a, b, t);
  }

  ghost predicate HasProposer(vs: seq<ValidatorInfo>, x: real) {
    exists id :: Accepts(vs, id, x)
  }

  /** Every selection value finds a proposer that passes exactly when somebody has weight and everybody with weight
      scores at least one half; otherwise some value leaves the height without a valid proposer. */
  lemma EveryValueHasProposerIff(vs: seq<ValidatorInfo>)
    requires DistinctIDs(vs) && NonNegativeScores(vs)
    ensures (forall x :: 0.0 <= x < 1.0 ==> HasProposer(vs, x))
            <==> Weight(vs) > 0.0 && forall k :: 0 <= k < |vs| && Eligible(vs[k]) && vs[k].score > 0.0
                                       ==> vs[k].score >= 0.5
  {
    WeightMonotone(vs, 0, |vs|);
    assert vs[..|vs|] == vs;
    if Weight(vs) == 0.0 {
      forall id ensures !Accepts(vs, id, 0.0) {
        NoWeightNobodyPasses(vs, id, 0.0);
      }
      assert !HasProposer(vs, 0.0);
    } else if k :| 0 <= k < |vs| && Eligible(vs[k]) && vs[k].score > 0.0 && vs[k].score < 0.5 {
      var x := SmallShareLeavesGap(vs, k);
    } else {
      forall x | 0.0 <= x < 1.0 ensures HasProposer(vs, x) {
        LargeSharesLeaveNone(vs, x);
      }
    }
  }

  lemma SmallShareLeavesGap(vs: seq<ValidatorInfo>, k: nat) returns (x: real)
    requires DistinctIDs(vs) && NonNegativeScores(vs)
    requires k < |vs| && Eligible(vs[k]) && 0.0 < vs[k].score < 0.5
    ensures 0.0 <= x < 1.0 && !HasProposer(vs, x)
  {
    x := OwnsItsStart(vs, k);
    OwnerDecides(vs, k, x);
  }

  lemma LargeSharesLeaveNone(vs: seq<ValidatorInfo>, x: real)
    requires DistinctIDs(vs) && NonNegativeScores(vs) && Weight(vs) > 0.0 && 0.0 <= x < 1.0
    requires forall k :: 0 <= k < |vs| && Eligible(vs[k]) && vs[k].score > 0.0 ==> vs[k].score >= 0.5
    ensures HasProposer(vs, x)
  {
    var k := SomeoneOwns(vs, x);
    OwnerHasWeight(vs, k, x);
    OwnerDecides(vs, k, x);
    assert Accepts(vs, vs[k].id, x);
  }

  lemma OwnerHasWeight(vs: seq<ValidatorInfo>, k: nat, x: real)
    requires NonNegativeScores(vs) && Owns(vs, k, x)
    ensures vs[k].score > 0.0
  {
    assert vs[..k + 1][..k] == vs[..k];
    RangeOrder(Weight(vs[..k]), Weight(vs[..k + 1]), x, x * Weight(vs), Weight(vs));
  }

  lemma NoWeightNobodyPasses(vs: seq<ValidatorInfo>, id: string, x: real)
    requires DistinctIDs(vs) && NonNegativeScores(vs) && Weight(vs) == 0.0
    ensures !Accepts(vs, id, x)
  {
    AcceptsIff(vs, id, x);
    forall p: nat | Candidate(vs, p) ensures !Straddles(vs, p) {
      NonNegativeNeverStraddles(vs, p);
    }
  }

  // ---- Which output is checked ----

  /** The first byte of the header's output decides when there is one ... */
  lemma HeaderOutputDecides(b: Block, vs: seq<ValidatorInfo>, first: Byte, rest: Bytes)
    requires b.vrfProof.Some? && b.header.vrfOutput == Some([first] + rest)
    ensures Verdict(b, vs).None? <==> Accepts(vs, b.proposerID, first as real / 256.0)
  {
  }

  /** ... and the first byte of the proof when there is none. */
  lemma ProofDecides(b: Block, vs: seq<ValidatorInfo>, first: Byte, rest: Bytes)
    requires b.header.vrfOutput.None? && b.vrfProof == Some([first] + rest) && |rest| >= 31
    ensures Verdict(b, vs).None? <==> Accepts(vs, b.proposerID, first as real / 256.0)
  {
    assert ([first] + rest)[..32][0] == first;
  }

  /** An empty header output or a proof under 32 bytes without one makes the check panic instead of answering. */
  lemma UnreadableOutputPanics(b: Block, vs: seq<ValidatorInfo>)
    requires b.vrfProof.Some?
    requires b.header.vrfOutput == Some([]) || (b.header.vrfOutput.None? && |b.vrfProof.value| < 32)
    ensures Verdict(b, vs).Some?
    ensures First(vs, b.proposerID) < |vs| && vs[First(vs, b.proposerID)].score >= 0.5 ==>
              Verdict(b, vs) == Some(Panic)
  {
  }

  /** A proposer that is not active, or suspended, never passes. */
  lemma IneligibleNeverPasses(b: Block, vs: seq<ValidatorInfo>)
    requires forall i :: 0 <= i < |vs| && vs[i].id == b.proposerID ==> !vs[i].active || vs[i].suspended
    ensures Verdict(b, vs).Some?
  {
  }

  /** Two active validators scoring 0.5 and 1.5 share the values one to three, in the list's order. */
  lemma RangesFollowScores(a: ValidatorInfo, b: ValidatorInfo, x: real)
    requires a.active && !a.suspended && b.active && !b.suspended && a.id != b.id
    requires a.score == 0.5 && b.score == 1.5 && 0.0 <= x < 1.0
    ensures Accepts([a, b], a.id, x) <==> x < 0.25
    ensures Accepts([a, b], b.id, x) <==> x >= 0.25
  {
    var vs := [a, b];
    WeightNext([], a);
    WeightNext([a], b);
    assert [] + [a] == vs[..1] && [a] + [b] == vs == vs[..2];
    RangeOrder(0.0, 0.5, x, 2.0 * x, 2.0);
    RangeOrder(0.5, 2.0, x, 2.0 * x, 2.0);
    CandidatePasses(vs, 0, x);
    CandidatePasses(vs, 1, x);
  }
}
