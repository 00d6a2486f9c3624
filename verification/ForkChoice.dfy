/** The reorganization rule and when it picks one winner (fork_resolver.go). */
module ForkChoice {
  import opened Prelude
  import opened Sequences
  import opened ByteCodec
  import opened Blocks

  datatype ChainInfo = ChainInfo(tip: Block, totalWork: Uint64, height: Uint64)

  /** A candidate this much higher than the main tip wins whatever its work. */
  const OVERRIDE_GAP: int := 6

  /** shouldReorg; the sum main.height + 6 wraps as in uint64. */
  function ShouldReorg(candidate: ChainInfo, main: ChainInfo, digest: Digest): bool {
    if candidate.height > (main.height + OVERRIDE_GAP) % U64 then true
    else if candidate.totalWork > main.totalWork then true
    else if candidate.totalWork == main.totalWork then
      if Compare(candidate.tip.pohSequence, main.tip.pohSequence) < 0 then true
      else
        candidate.tip.pohSequence == main.tip.pohSequence
        && Compare(HashBlock(candidate.tip, digest), HashBlock(main.tip, digest)) < 0
    else false
  }

  /** The three-tier preference alone: more work, then smaller PoH bytes, then smaller hash bytes. */
  ghost predicate Beats(a: ChainInfo, b: ChainInfo, digest: Digest) {
    || a.totalWork > b.totalWork
    || (a.totalWork == b.totalWork && Compare(a.tip.pohSequence, b.tip.pohSequence) < 0)
    || (a.totalWork == b.totalWork && a.tip.pohSequence == b.tip.pohSequence
        && Compare(HashBlock(a.tip, digest), HashBlock(b.tip, digest)) < 0)
  }

  ghost predicate Overrides(a: ChainInfo, b: ChainInfo) {
    a.height > b.height + OVERRIDE_GAP
  }

  /** Heights at which adding the gap does not wrap. */
  ghost predicate NoWrap(a: ChainInfo) {
    a.height + OVERRIDE_GAP < U64
  }

  ghost predicate DistinctTips(a: ChainInfo, b: ChainInfo, digest: Digest) {
    HashBlock(a.tip, digest) != HashBlock(b.tip, digest)
  }

  lemma ReorgIsOverrideOrBeats(a: ChainInfo, b: ChainInfo, digest: Digest)
    requires NoWrap(b)
    ensures ShouldReorg(a, b, digest) <==> Overrides(a, b) || Beats(a, b, digest)
  {
  }

  lemma BeatsTransitive(a: ChainInfo, b: ChainInfo, c: ChainInfo, digest: Digest)
    requires Beats(a, b, digest) && Beats(b, c, digest)
    ensures Beats(a, c, digest)
  {
    var pa, pb, pc := a.tip.pohSequence, b.tip.pohSequence, c.tip.pohSequence;
    var ha, hb, hc := HashBlock(a.tip, digest), HashBlock(b.tip, digest), HashBlock(c.tip, digest);
    if Compare(pa, pb) < 0 && Compare(pb, pc) < 0 {
      CompareTransitive(pa, pb, pc);
    }
    if Compare(ha, hb) < 0 && Compare(hb, hc) < 0 {
      CompareTransitive(ha, hb, hc);
    }
  }

  /** Of two tips with different hashes exactly one beats the other. */
  lemma BeatsTotal(a: ChainInfo, b: ChainInfo, digest: Digest)
    requires DistinctTips(a, b, digest)
    ensures Beats(a, b, digest) <==> !Beats(b, a, digest)
  {
    var pa, pb := a.tip.pohSequence, b.tip.pohSequence;
    var ha, hb := HashBlock(a.tip, digest), HashBlock(b.tip, digest);
    CompareAntisymmetric(pa, pb);
    CompareZero(pa, pb);
    CompareAntisymmetric(ha, hb);
    CompareZero(ha, hb);
  }

  /** The rule prefers each of two tips to the other exactly when the height override contradicts the preference. */
  lemma ReorgBothWaysIff(a: ChainInfo, b: ChainInfo, digest: Digest)
    requires NoWrap(a) && NoWrap(b) && DistinctTips(a, b, digest)
    ensures ShouldReorg(a, b, digest) && ShouldReorg(b, a, digest)
            <==> (Overrides(a, b) && Beats(b, a, digest)) || (Overrides(b, a) && Beats(a, b, digest))
  {
    BeatsTotal(a, b, digest);
  }

  /** One of the two is always preferred. */
  lemma ReorgIsTotal(a: ChainInfo, b: ChainInfo, digest: Digest)
    requires NoWrap(a) && NoWrap(b) && DistinctTips(a, b, digest)
    ensures ShouldReorg(a, b, digest) || ShouldReorg(b, a, digest)
  {
    BeatsTotal(a, b, digest);
  }

  /** The main chain after the tips arrive one by one. */
  ghost function Adopt(main: ChainInfo, arrivals: seq<ChainInfo>, digest: Digest): ChainInfo
    decreases |arrivals|
  {
    if arrivals == [] then main
    else Adopt(if ShouldReorg(arrivals[0], main, digest) then arrivals[0] else main, arrivals[1..], digest)
  }

  /** Distinct hashes, and no override applies unless the preference agrees with it. */
  ghost predicate Coherent(tips: set<ChainInfo>, digest: Digest) {
    && (forall a :: a in tips ==> NoWrap(a))
    && (forall a, b :: a in tips && b in tips && a != b ==> DistinctTips(a, b, digest))
    && (forall a, b :: a in tips && b in tips && Overrides(a, b) ==> Beats(a, b, digest))
  }

  /** Tips whose heights differ by at most six are coherent. */
  lemma CloseTipsAreCoherent(tips: set<ChainInfo>, digest: Digest)
    requires forall a :: a in tips ==> NoWrap(a)
    requires forall a, b :: a in tips && b in tips && a != b ==> DistinctTips(a, b, digest)
    requires forall a, b :: a in tips && b in tips ==> a.height - b.height <= OVERRIDE_GAP
    ensures Coherent(tips, digest)
  {
  }

  ghost predicate IsBest(winner: ChainInfo, tips: set<ChainInfo>, digest: Digest) {
    winner in tips && forall x :: x in tips && x != winner ==> Beats(winner, x, digest)
  }

  /** On coherent tips the survivor beats everything that was main or arrived. */
  lemma {:induction false} AdoptFindsBest(main: ChainInfo, arrivals: seq<ChainInfo>, digest: Digest,
                                          tips: set<ChainInfo>)
    requires Coherent(tips, digest) && main in tips && Elements(arrivals) <= tips
    ensures IsBest(Adopt(main, arrivals, digest), {main} + Elements(arrivals), digest)
    decreases |arrivals|
  {
    if arrivals == [] {
      assert {main} + Elements(arrivals) == {main};
    } else {
      var x := arrivals[0];
      assert x in Elements(arrivals);
      var next := if ShouldReorg(x, main, digest) then x else main;
      assert Elements(arrivals) == {x} + Elements(arrivals[1..]);
      AdoptFindsBest(next, arrivals[1..], digest, tips);
      ReorgIsOverrideOrBeats(x, main, digest);
      if x != main {
        BeatsTotal(x, main, digest);
      }
      var winner := Adopt(main, arrivals, digest);
      var loser := if next == x then main else x;
      if loser != winner && winner != next && loser != next {
        BeatsTransitive(winner, next, loser, digest);
      }
    }
  }

  lemma BestIsUnique(a: ChainInfo, b: ChainInfo, tips: set<ChainInfo>, digest: Digest)
    requires Coherent(tips, digest) && IsBest(a, tips, digest) && IsBest(b, tips, digest)
    ensures a == b
  {
    if a != b {
      BeatsTotal(a, b, digest);
    }
  }

  /** Fork-choice convergence: nodes that see the same coherent tips, in any order, end on the same tip. */
  lemma ForkChoiceConverges(main1: ChainInfo, arrivals1: seq<ChainInfo>, main2: ChainInfo, arrivals2: seq<ChainInfo>,
                            digest: Digest)
    requires Elements([main1] + arrivals1) == Elements([main2] + arrivals2)
    requires Coherent(Elements([main1] + arrivals1), digest)
    ensures Adopt(main1, arrivals1, digest) == Adopt(main2, arrivals2, digest)
  {
    var tips := Elements([main1] + arrivals1);
    assert forall x :: x in [main1] + arrivals1 <==> x == main1 || x in arrivals1;
    assert forall x :: x in [main2] + arrivals2 <==> x == main2 || x in arrivals2;
    assert tips == {main1} + Elements(arrivals1) == {main2} + Elements(arrivals2);
    AdoptFindsBest(main1, arrivals1, digest, tips);
    AdoptFindsBest(main2, arrivals2, digest, tips);
    BestIsUnique(Adopt(main1, arrivals1, digest), Adopt(main2, arrivals2, digest), tips, digest);
  }

  /** Two nodes that see two tips in opposite orders agree exactly when the tips are coherent. */
  lemma TwoTipsAgreeIff(a: ChainInfo, b: ChainInfo, digest: Digest)
    requires NoWrap(a) && NoWrap(b) && DistinctTips(a, b, digest)
    ensures Adopt(a, [b], digest) == Adopt(b, [a], digest) <==> Coherent({a, b}, digest)
  {
    ReorgBothWaysIff(a, b, digest);
    ReorgIsTotal(a, b, digest);
    BeatsTotal(a, b, digest);
    assert Adopt(a, [b], digest) == if ShouldReorg(b, a, digest) then b else a by {
      assert [b][1..] == [];
    }
    assert Adopt(b, [a], digest) == if ShouldReorg(a, b, digest) then a else b by {
      assert [a][1..] == [];
    }
  }

  // ---- Agreement without coherence ----

  ghost predicate Distinct(tips: set<ChainInfo>, digest: Digest) {
    && (forall a :: a in tips ==> NoWrap(a))
    && (forall a, b :: a in tips && b in tips && a != b ==> DistinctTips(a, b, digest))
  }

  /** No other of the tips displaces this one. */
  ghost predicate Undisplaced(u: ChainInfo, tips: set<ChainInfo>, digest: Digest) {
    u in tips && forall x :: x in tips && x != u ==> !ShouldReorg(x, u, digest)
  }

  /** Where a node ends that starts on the first tip and sees the others one by one. */
  ghost function EndsOn(order: seq<ChainInfo>, digest: Digest): ChainInfo
    requires order != []
  {
    Adopt(order[0], order[1..], digest)
  }

  /** Every two nodes that see the tips, each once, end on the same tip. */
  ghost predicate AllOrdersAgree(tips: set<ChainInfo>, digest: Digest) {
    forall a, b :: a != [] && b != [] && Enumerates(a, tips) && Enumerates(b, tips)
      ==> EndsOn(a, digest) == EndsOn(b, digest)
  }

  /** A tip that nothing displaces wins whenever it has been seen. */
  lemma {:induction false} UndisplacedWins(main: ChainInfo, arrivals: seq<ChainInfo>, u: ChainInfo,
                                           tips: set<ChainInfo>, digest: Digest)
    requires Distinct(tips, digest) && Undisplaced(u, tips, digest)
    requires main in tips && (forall x :: x in arrivals ==> x in tips) && (u == main || u in arrivals)
    ensures Adopt(main, arrivals, digest) == u
    decreases |arrivals|
  {
    if arrivals != [] {
      var x := arrivals[0];
      assert x in arrivals;
      if u == x && main != u {
        ReorgIsTotal(u, main, digest);
      }
      var next := if ShouldReorg(x, main, digest) then x else main;
      UndisplacedWins(next, arrivals[1..], u, tips, digest);
    }
  }

  lemma {:induction false} AdoptNext(main: ChainInfo, arrivals: seq<ChainInfo>, y: ChainInfo, digest: Digest)
    ensures var before := Adopt(main, arrivals, digest);
            Adopt(main, arrivals + [y], digest) == if ShouldReorg(y, before, digest) then y else before
    decreases |arrivals|
  {
    if arrivals == [] {
      assert arrivals + [y] == [y] && [y][1..] == [];
    } else {
      assert (arrivals + [y])[1..] == arrivals[1..] + [y];
      var next := if ShouldReorg(arrivals[0], main, digest) then arrivals[0] else main;
      AdoptNext(next, arrivals[1..], y, digest);
    }
  }

  /** When something displaces w, the order in which that something comes last does not end on w. */
  lemma DisplacedLoses(tips: set<ChainInfo>, w: ChainInfo, y: ChainInfo, digest: Digest) returns (order: seq<ChainInfo>)
    requires w in tips && y in tips && y != w && ShouldReorg(y, w, digest)
    ensures order != [] && Enumerates(order, tips) && EndsOn(order, digest) != w
  {
    var others := SomeOrder(tips - {y});
    EnumeratesNext(others, tips - {y}, y);
    assert (tips - {y}) + {y} == tips;
    assert w in Elements(others);
    order := others + [y];
    assert order[1..] == others[1..] + [y];
    AdoptNext(others[0], others[1..], y, digest);
  }

  /** All arrival orders end on the same tip exactly when some tip is displaced by no other. */
  lemma AllOrdersAgreeIff(tips: set<ChainInfo>, digest: Digest)
    requires tips != {} && Distinct(tips, digest)
    ensures AllOrdersAgree(tips, digest) <==> exists u :: Undisplaced(u, tips, digest)
  {
    if u :| Undisplaced(u, tips, digest) {
      forall a | a != [] && Enumerates(a, tips) ensures EndsOn(a, digest) == u {
        EndsOnUndisplaced(a, u, tips, digest);
      }
    } else {
      var a := SomeOrder(tips);
      assert Elements<ChainInfo>([]) == {};
      var w := EndsOn(a, digest);
      EndsInside(a[0], a[1..], digest);
      assert a == [a[0]] + a[1..] && w in Elements(a);
      assert w in tips && !Undisplaced(w, tips, digest);
      var y :| y in tips && y != w && ShouldReorg(y, w, digest);
      var b := DisplacedLoses(tips, w, y, digest);
      assert !AllOrdersAgree(tips, digest);
    }
  }

  lemma EndsOnUndisplaced(order: seq<ChainInfo>, u: ChainInfo, tips: set<ChainInfo>, digest: Digest)
    requires Distinct(tips, digest) && Undisplaced(u, tips, digest) && order != [] && Enumerates(order, tips)
    ensures EndsOn(order, digest) == u
  {
    assert u in Elements(order) && order[0] in Elements(order);
    assert order == [order[0]] + order[1..];
    forall x | x in order[1..] ensures x in tips {
      assert x in Elements(order);
    }
    UndisplacedWins(order[0], order[1..], u, tips, digest);
  }

  lemma {:induction false} EndsInside(main: ChainInfo, arrivals: seq<ChainInfo>, digest: Digest)
    ensures Adopt(main, arrivals, digest) == main || Adopt(main, arrivals, digest) in arrivals
    decreases |arrivals|
  {
    if arrivals != [] {
      EndsInside(if ShouldReorg(arrivals[0], main, digest) then arrivals[0] else main, arrivals[1..], digest);
    }
  }

  /** The override does break agreement: seven blocks higher but lighter, each tip displaces the other. */
  lemma OverrideBreaksAgreement(a: ChainInfo, b: ChainInfo, digest: Digest)
    requires a.height == 7 && b.height == 0 && a.totalWork == 1 && b.totalWork == 2
    requires DistinctTips(a, b, digest)
    ensures ShouldReorg(a, b, digest) && ShouldReorg(b, a, digest)
    ensures Adopt(a, [b], digest) == b && Adopt(b, [a], digest) == a
  {
    assert [b][1..] == [] && [a][1..] == [];
  }

  // ---- What displaces what ----

  /** More work displaces less, whatever the rest. */
  lemma MoreWorkDisplaces(a: ChainInfo, b: ChainInfo, digest: Digest)
    requires a.totalWork > b.totalWork
    ensures ShouldReorg(a, b, digest)
  {
  }

  /** Less work displaces more exactly from seven blocks higher on. */
  lemma LessWorkDisplacesIff(a: ChainInfo, b: ChainInfo, digest: Digest)
    requires NoWrap(b) && a.totalWork < b.totalWork
    ensures ShouldReorg(a, b, digest) <==> a.height >= b.height + 7
  {
  }

  /** With equal work the PoH bytes that are smaller at their first difference win, and not the other way round at
      heights up to six apart. */
  lemma SmallerPoHDisplaces(a: ChainInfo, b: ChainInfo, common: Bytes, x: Byte, y: Byte, s: Bytes, t: Bytes,
                            digest: Digest)
    requires a.totalWork == b.totalWork && x < y
    requires a.tip.pohSequence == common + [x] + s && b.tip.pohSequence == common + [y] + t
    ensures ShouldReorg(a, b, digest)
    ensures NoWrap(a) && b.height <= a.height + 6 ==> !ShouldReorg(b, a, digest)
  {
    FirstDifferenceDecides(common, x, y, s, t);
    CompareAntisymmetric(a.tip.pohSequence, b.tip.pohSequence);
    CompareZero(a.tip.pohSequence, b.tip.pohSequence);
  }

  /** With equal PoH bytes too, the block hash that is smaller at its first difference. */
  lemma SmallerHashDisplaces(a: ChainInfo, b: ChainInfo, common: Bytes, x: Byte, y: Byte, s: Bytes, t: Bytes,
                             digest: Digest)
    requires a.totalWork == b.totalWork && a.tip.pohSequence == b.tip.pohSequence && x < y
    requires HashBlock(a.tip, digest) == common + [x] + s && HashBlock(b.tip, digest) == common + [y] + t
    ensures ShouldReorg(a, b, digest)
    ensures NoWrap(a) && b.height <= a.height + 6 ==> !ShouldReorg(b, a, digest)
  {
    FirstDifferenceDecides(common, x, y, s, t);
    CompareAntisymmetric(HashBlock(a.tip, digest), HashBlock(b.tip, digest));
    CompareZero(a.tip.pohSequence, b.tip.pohSequence);
  }
}
