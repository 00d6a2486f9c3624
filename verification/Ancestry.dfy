/** Looking blocks up by hash, chain work, and the lowest common ancestor (fork_resolver.go). */
module Ancestry {
  import opened Prelude
  import opened Blocks
  import opened Chain
  import opened ForkChoice

  /** AddBlock's invariant: a block is indexed under its own height. */
  ghost predicate IndexOk(byHeight: map<Uint64, Block>) {
    forall h :: h in byHeight ==> byHeight[h].header.height == h
  }

  /** The blocks findBlock meets going down the height index from a block. */
  ghost function Walk(byHeight: map<Uint64, Block>, from: Block): set<Block>
    requires IndexOk(byHeight)
    decreases from.header.height
  {
    var h := from.header.height - 1;
    {from} + if h >= 0 && h in byHeight then Walk(byHeight, byHeight[h]) else {}
  }

  /** The body of the block with the given hash among the known ones. */
  ghost function Lookup(known: set<Block>, hash: Bytes, digest: Digest): Option<Block> {
    if exists b :: b in known && HashBlock(b, digest) == hash
    then
      var b :| b in known && HashBlock(b, digest) == hash;
      Some(Body(b))
    else None
  }

  lemma LookupIs(known: set<Block>, b: Block, digest: Digest)
    requires CollisionFree(digest) && b in known
    ensures Lookup(known, HashBlock(b, digest), digest) == Some(Body(b))
  {
  }

  ghost function Parent(known: set<Block>, b: Block, digest: Digest): Option<Block> {
    Lookup(known, b.header.prevBlockHash, digest)
  }

  /** The body of the k-th block below b, following hash links. */
  ghost function Up(known: set<Block>, b: Block, k: nat, digest: Digest): Option<Block>
    decreases k
  {
    if k == 0 then Some(Body(b))
    else
      var parent := Parent(known, b, digest);
      if parent.None? then None else Up(known, parent.value, k - 1, digest)
  }

  /** Hash links go down one height at a time. */
  ghost predicate LinksDescend(known: set<Block>, digest: Digest) {
    forall b, p :: b in known && p in known && HashBlock(p, digest) == b.header.prevBlockHash
      ==> p.header.height + 1 == b.header.height
  }

  lemma {:induction false} UpAppend(known: set<Block>, b: Block, i: nat, j: nat, digest: Digest)
    requires Up(known, b, i, digest).Some?
    ensures Up(known, b, i + j, digest) == Up(known, Up(known, b, i, digest).value, j, digest)
    decreases i
  {
    if i == 0 {
      UpIgnoresSignature(known, b, j, digest);
    } else {
      UpAppend(known, Parent(known, b, digest).value, i - 1, j, digest);
    }
  }

  lemma UpIgnoresSignature(known: set<Block>, b: Block, k: nat, digest: Digest)
    ensures Up(known, b, k, digest) == Up(known, Body(b), k, digest)
  {
  }

  ghost predicate Bodied(known: set<Block>, body: Block) {
    exists b :: b in known && Body(b) == body
  }

  lemma {:induction false} UpDescends(known: set<Block>, b: Block, k: nat, digest: Digest)
    requires LinksDescend(known, digest) && Bodied(known, Body(b)) && Up(known, b, k, digest).Some?
    ensures Up(known, b, k, digest).value.header.height + k == b.header.height
    ensures Bodied(known, Up(known, b, k, digest).value)
    decreases k
  {
    if k > 0 {
      var own :| own in known && Body(own) == Body(b);
      var parent := Parent(known, b, digest).value;
      var p :| p in known && HashBlock(p, digest) == b.header.prevBlockHash && Body(p) == parent;
      assert own.header == b.header && p.header == parent.header;
      UpDescends(known, parent, k - 1, digest);
    }
  }

  ghost predicate IsAncestor(known: set<Block>, b: Block, a: Block, digest: Digest) {
    exists k: nat :: Up(known, b, k, digest) == Some(Body(a))
  }

  ghost predicate CommonAncestor(known: set<Block>, b: Block, c: Block, a: Block, digest: Digest) {
    IsAncestor(known, b, a, digest) && IsAncestor(known, c, a, digest)
  }

  lemma AncestorBound(known: set<Block>, b: Block, a: Block, digest: Digest)
    requires LinksDescend(known, digest) && Bodied(known, Body(b)) && IsAncestor(known, b, a, digest)
    ensures a.header.height <= b.header.height
    ensures a.header.height == b.header.height ==> Body(a) == Body(b)
  {
    var k: nat :| Up(known, b, k, digest) == Some(Body(a));
    UpDescends(known, b, k, digest);
  }

  /** A common ancestor of two different blocks is an ancestor of the parent of the one not lower. */
  lemma CommonIsBelow(known: set<Block>, low: Block, high: Block, a: Block, digest: Digest)
    requires LinksDescend(known, digest) && low in known && high in known
    requires low.header.height <= high.header.height && Body(low) != Body(high)
    requires CommonAncestor(known, low, high, a, digest)
    ensures Parent(known, high, digest).Some? && IsAncestor(known, Parent(known, high, digest).value, a, digest)
  {
    AncestorBound(known, low, a, digest);
    var k: nat :| Up(known, high, k, digest) == Some(Body(a));
    if k == 0 {
      assert false;
    }
    assert Up(known, Parent(known, high, digest).value, k - 1, digest) == Some(Body(a));
  }

  lemma AncestorStep(known: set<Block>, top: Block, b: Block, parent: Block, digest: Digest)
    requires IsAncestor(known, top, b, digest) && Parent(known, b, digest) == Some(Body(parent))
    ensures IsAncestor(known, top, parent, digest)
  {
    var k: nat :| Up(known, top, k, digest) == Some(Body(b));
    UpAppend(known, top, k, 1, digest);
    assert Up(known, Body(b), 1, digest) == Up(known, Body(parent), 0, digest);
    assert Up(known, top, k + 1, digest) == Some(Body(parent));
  }

  lemma AncestorIgnoresSignature(known: set<Block>, b: Block, a: Block, digest: Digest)
    requires IsAncestor(known, Body(b), a, digest)
    ensures IsAncestor(known, b, a, digest)
  {
    var k: nat :| Up(known, Body(b), k, digest) == Some(Body(a));
    UpIgnoresSignature(known, b, k, digest);
  }

  /** Each cursor is an ancestor of its tip, and the tips' common ancestors are the cursors' common ancestors. */
  ghost predicate Cursors(known: set<Block>, mainTip: Block, forkTip: Block, main: Block, fork: Block, digest: Digest) {
    && main in known && fork in known
    && IsAncestor(known, mainTip, main, digest) && IsAncestor(known, forkTip, fork, digest)
    && forall a :: CommonAncestor(known, mainTip, forkTip, a, digest) ==> CommonAncestor(known, main, fork, a, digest)
  }

  lemma CursorsStart(known: set<Block>, mainTip: Block, forkTip: Block, digest: Digest)
    requires mainTip in known && forkTip in known
    ensures Cursors(known, mainTip, forkTip, mainTip, forkTip, digest)
  {
    assert Up(known, mainTip, 0, digest) == Some(Body(mainTip));
    assert Up(known, forkTip, 0, digest) == Some(Body(forkTip));
  }

  /** Moving the cursor that is not lower to its parent loses no common ancestor. */
  lemma StepDown(known: set<Block>, low: Block, high: Block, parent: Block, digest: Digest)
    requires LinksDescend(known, digest) && low in known && high in known
    requires low.header.height <= high.header.height && Body(low) != Body(high)
    requires Parent(known, high, digest) == Some(Body(parent))
    ensures forall a :: CommonAncestor(known, low, high, a, digest) ==> IsAncestor(known, parent, a, digest)
  {
    forall a | CommonAncestor(known, low, high, a, digest) ensures IsAncestor(known, parent, a, digest) {
      CommonIsBelow(known, low, high, a, digest);
      AncestorIgnoresSignature(known, parent, a, digest);
    }
  }

  /** A cursor whose parent is unknown has no ancestor in common with a different block not above it. */
  lemma NoParentNoCommon(known: set<Block>, low: Block, high: Block, digest: Digest)
    requires LinksDescend(known, digest) && low in known && high in known
    requires low.header.height <= high.header.height && Body(low) != Body(high)
    requires Parent(known, high, digest).None?
    ensures forall a :: !CommonAncestor(known, low, high, a, digest)
  {
    forall a ensures !CommonAncestor(known, low, high, a, digest) {
      if CommonAncestor(known, low, high, a, digest) {
        CommonIsBelow(known, low, high, a, digest);
      }
    }
  }

  /** Found by hash among the known blocks: its body is the parent's. */
  lemma FoundIsParent(known: set<Block>, b: Block, found: Block, digest: Digest)
    requires CollisionFree(digest) && found in known && HashBlock(found, digest) == b.header.prevBlockHash
    ensures Parent(known, b, digest) == Some(Body(found))
  {
    LookupIs(known, found, digest);
  }

  lemma ForkCursorDown(known: set<Block>, mainTip: Block, forkTip: Block, main: Block, fork: Block, found: Block,
                       digest: Digest)
    requires LinksDescend(known, digest) && CollisionFree(digest)
    requires Cursors(known, mainTip, forkTip, main, fork, digest)
    requires main.header.height <= fork.header.height && Body(main) != Body(fork)
    requires found in known && HashBlock(found, digest) == fork.header.prevBlockHash
    ensures Cursors(known, mainTip, forkTip, main, found, digest)
  {
    FoundIsParent(known, fork, found, digest);
    AncestorStep(known, forkTip, fork, found, digest);
    StepDown(known, main, fork, found, digest);
  }

  lemma MainCursorDown(known: set<Block>, mainTip: Block, forkTip: Block, main: Block, fork: Block, found: Block,
                       digest: Digest)
    requires LinksDescend(known, digest) && CollisionFree(digest)
    requires Cursors(known, mainTip, forkTip, main, fork, digest)
    requires fork.header.height <= main.header.height && Body(main) != Body(fork)
    requires found in known && HashBlock(found, digest) == main.header.prevBlockHash
    ensures Cursors(known, mainTip, forkTip, found, fork, digest)
  {
    FoundIsParent(known, main, found, digest);
    AncestorStep(known, mainTip, main, found, digest);
    CommonSymmetric(known, main, fork, digest);
    StepDown(known, fork, main, found, digest);
  }

  lemma BothCursorsDown(known: set<Block>, mainTip: Block, forkTip: Block, main: Block, fork: Block,
                        mainParent: Block, forkParent: Block, digest: Digest)
    requires LinksDescend(known, digest) && CollisionFree(digest)
    requires Cursors(known, mainTip, forkTip, main, fork, digest)
    requires main.header.height == fork.header.height && Body(main) != Body(fork)
    requires mainParent in known && HashBlock(mainParent, digest) == main.header.prevBlockHash
    requires forkParent in known && HashBlock(forkParent, digest) == fork.header.prevBlockHash
    ensures Cursors(known, mainTip, forkTip, mainParent, forkParent, digest)
  {
    MainCursorDown(known, mainTip, forkTip, main, fork, mainParent, digest);
    ForkCursorDown(known, mainTip, forkTip, main, fork, forkParent, digest);
  }

  lemma CommonSymmetric(known: set<Block>, b: Block, c: Block, digest: Digest)
    ensures forall a :: CommonAncestor(known, b, c, a, digest) <==> CommonAncestor(known, c, b, a, digest)
  {
  }

  /** A cursor whose parent cannot be found, the other one not above it and different: nothing is in common. */
  lemma CursorStuck(known: set<Block>, mainTip: Block, forkTip: Block, main: Block, fork: Block, onMain: bool,
                    digest: Digest)
    requires LinksDescend(known, digest) && Cursors(known, mainTip, forkTip, main, fork, digest)
    requires Body(main) != Body(fork)
    requires var (low, high) := if onMain then (fork, main) else (main, fork);
             && low.header.height <= high.header.height
             && forall b :: b in known ==> HashBlock(b, digest) != high.header.prevBlockHash
    ensures forall a :: !CommonAncestor(known, mainTip, forkTip, a, digest)
  {
    var (low, high) := if onMain then (fork, main) else (main, fork);
    CommonSymmetric(known, main, fork, digest);
    NoParentNoCommon(known, low, high, digest);
  }

  /** Where the two cursors are one block, it is the highest common ancestor. */
  lemma MeetingPoint(known: set<Block>, mainTip: Block, forkTip: Block, main: Block, fork: Block, digest: Digest)
    requires LinksDescend(known, digest) && Cursors(known, mainTip, forkTip, main, fork, digest)
    requires Body(main) == Body(fork)
    ensures CommonAncestor(known, mainTip, forkTip, main, digest)
    ensures forall a :: CommonAncestor(known, mainTip, forkTip, a, digest) ==> a.header.height <= main.header.height
  {
    var k: nat :| Up(known, forkTip, k, digest) == Some(Body(fork));
    assert Up(known, forkTip, k, digest) == Some(Body(main));
    forall a | CommonAncestor(known, mainTip, forkTip, a, digest) ensures a.header.height <= main.header.height {
      AncestorBound(known, main, a, digest);
    }
  }

  /** calculateBlockWork: the PoB weight, or 1 for a block without one. */
  function BlockWork(b: Block): Uint64 {
    if b.header.pobWeight > 0 then b.header.pobWeight else 1
  }

  /** The work of b and the k blocks below it, as far as they are known. */
  ghost function WorkBelow(known: set<Block>, b: Block, k: nat, digest: Digest): nat
    decreases k
  {
    BlockWork(b) + if k == 0 || Parent(known, b, digest).None? then 0
                   else WorkBelow(known, Parent(known, b, digest).value, k - 1, digest)
  }

  /** The work from b down to a height; nothing when b is already below it. */
  ghost function WorkDownTo(known: set<Block>, b: Block, h: int, digest: Digest): nat {
    if b.header.height < h then 0 else WorkBelow(known, b, b.header.height - h, digest)
  }

  lemma WorkIgnoresSignature(known: set<Block>, b: Block, k: nat, digest: Digest)
    ensures WorkBelow(known, b, k, digest) == WorkBelow(known, Body(b), k, digest)
  {
  }

  /** The work of a path is the work of its upper part and of what lies below it. */
  lemma {:induction false} WorkSplits(known: set<Block>, b: Block, i: nat, j: nat, digest: Digest)
    requires Up(known, b, i + 1, digest).Some?
    ensures WorkBelow(known, b, i + 1 + j, digest)
            == WorkBelow(known, b, i, digest) + WorkBelow(known, Up(known, b, i + 1, digest).value, j, digest)
    decreases i
  {
    var parent := Parent(known, b, digest).value;
    WorkIgnoresSignature(known, parent, j, digest);
    if i > 0 {
      WorkSplits(known, parent, i - 1, j, digest);
    }
  }

  /** The weights along a path, and how many of its blocks have none. */
  ghost function PathWeight(known: set<Block>, b: Block, k: nat, digest: Digest): nat
    decreases k
  {
    b.header.pobWeight + if k == 0 || Parent(known, b, digest).None? then 0
                         else PathWeight(known, Parent(known, b, digest).value, k - 1, digest)
  }

  ghost function Weightless(known: set<Block>, b: Block, k: nat, digest: Digest): nat
    decreases k
  {
    (if b.header.pobWeight == 0 then 1 else 0)
    + if k == 0 || Parent(known, b, digest).None? then 0
      else Weightless(known, Parent(known, b, digest).value, k - 1, digest)
  }

  /** The work of a path is the sum of its weights, a block without one counting one. */
  lemma {:induction false} WorkIsWeight(known: set<Block>, b: Block, k: nat, digest: Digest)
    ensures WorkBelow(known, b, k, digest) == PathWeight(known, b, k, digest) + Weightless(known, b, k, digest)
    decreases k
  {
    if k > 0 && Parent(known, b, digest).Some? {
      WorkIsWeight(known, Parent(known, b, digest).value, k - 1, digest);
    }
  }

  lemma WorkStep(known: set<Block>, b: Block, found: Block, h: nat, digest: Digest)
    requires LinksDescend(known + {b}, digest) && CollisionFree(digest) && h < b.header.height
    requires found in known && HashBlock(found, digest) == b.header.prevBlockHash
    ensures found.header.height + 1 == b.header.height
    ensures WorkDownTo(known, b, h, digest) == BlockWork(b) + WorkDownTo(known, found, h, digest)
  {
    FoundIsParent(known, b, found, digest);
    WorkIgnoresSignature(known, found, b.header.height - h - 1, digest);
  }

  /** The same for a block of a path that starts at a block not stored yet. */
  lemma PathStep(known: set<Block>, to: Block, b: Block, found: Block, h: nat, digest: Digest)
    requires LinksDescend(known + {to}, digest) && CollisionFree(digest) && (b in known || b == to)
    requires h < b.header.height && found in known && HashBlock(found, digest) == b.header.prevBlockHash
    ensures found.header.height + 1 == b.header.height
    ensures WorkDownTo(known, b, h, digest) == BlockWork(b) + WorkDownTo(known, found, h, digest)
  {
    assert known + {b} <= known + {to};
    WorkStep(known, b, found, h, digest);
  }

  /** Addition of Go's uint64. */
  function WrapAdd(a: Uint64, b: Uint64): Uint64 {
    if a + b < U64 then a + b else a + b - U64
  }

  lemma WrappedSum(wrapped: Uint64, carries: nat, sum: nat)
    requires wrapped + carries * U64 == sum
    ensures wrapped == sum % U64
  {
  }

  class ForkResolver {
    const mainChain: Blockchain
    var candidateChains: map<string, ChainInfo>

    constructor (bc: Blockchain)
      ensures mainChain == bc && candidateChains == map[]
    {
      mainChain, candidateChains := bc, map[];
    }

    /** The blocks findBlock can return: the main chain through the height index, and the candidate tips. */
    ghost function Known(): set<Block>
      requires IndexOk(mainChain.byHeight)
      reads this, mainChain
    {
      Walk(mainChain.byHeight, mainChain.currentBlock) + set id | id in candidateChains :: candidateChains[id].tip
    }

    method FindBlock(hash: Bytes) returns (found: Option<Block>)
      requires IndexOk(mainChain.byHeight)
      ensures found.Some? ==> found.value in Known() && HashBlock(found.value, mainChain.digest) == hash
      ensures found.None? ==> forall b :: b in Known() ==> HashBlock(b, mainChain.digest) != hash
    {
      var current := mainChain.currentBlock;
      while true
        invariant Walk(mainChain.byHeight, current) <= Walk(mainChain.byHeight, mainChain.currentBlock)
        invariant forall b :: b in Walk(mainChain.byHeight, mainChain.currentBlock) ==>
                    b in Walk(mainChain.byHeight, current) || HashBlock(b, mainChain.digest) != hash
        decreases current.header.height
      {
        if HashBlock(current, mainChain.digest) == hash {
          return Some(current);
        }
        if current.header.height == 0 {
          break;
        }
        var parent := mainChain.GetBlockByHeight(current.header.height - 1);
        if parent.Err? {
          break;
        }
        current := parent.value;
      }
      assert forall b :: b in Walk(mainChain.byHeight, mainChain.currentBlock) ==>
          HashBlock(b, mainChain.digest) != hash;
      var todo := candidateChains.Keys;
      while todo != {}
        invariant todo <= candidateChains.Keys
        invariant forall id :: id in candidateChains && id !in todo
                    ==> HashBlock(candidateChains[id].tip, mainChain.digest) != hash
        decreases |todo|
      {
        var id :| id in todo;
        todo := todo - {id};
        if HashBlock(candidateChains[id].tip, mainChain.digest) == hash {
          return Some(candidateChains[id].tip);
        }
      }
      return None;
    }

    /** Sums work from a block down to the height of another; the block itself need not be stored yet. The sum
        wraps as uint64. */
    method CalculateChainWork(from: Block, to: Block) returns (totalWork: Uint64)
      requires IndexOk(mainChain.byHeight) && CollisionFree(mainChain.digest)
      requires LinksDescend(Known() + {to}, mainChain.digest)
      ensures totalWork == WorkDownTo(Known(), to, from.header.height, mainChain.digest) % U64
    {
      ghost var known, digest, h := Known(), mainChain.digest, from.header.height;
      totalWork := 0;
      ghost var carries := 0;
      var current := to;
      while current.header.height >= from.header.height
        invariant current in known || current == to
        invariant totalWork + carries * U64 + WorkDownTo(known, current, h, digest) == WorkDownTo(known, to, h, digest)
        decreases current.header.height
      {
        carries := carries + if totalWork + BlockWork(current) < U64 then 0 else 1;
        totalWork := WrapAdd(totalWork, BlockWork(current));
        if current.header.height == from.header.height {
          break;
        }
        var parent := FindBlock(current.header.prevBlockHash);
        if parent.None? {
          break;
        }
        PathStep(known, to, current, parent.value, h, digest);
        current := parent.value;
      }
      WrappedSum(totalWork, carries, WorkDownTo(known, to, h, digest));
    }

    /** The first two loops: walk the higher cursor down until both are at one height. */
    method AlignHeights(forkTip: Block) returns (cursors: Option<(Block, Block)>)
      requires IndexOk(mainChain.byHeight) && CollisionFree(mainChain.digest)
      requires forkTip in Known() && LinksDescend(Known(), mainChain.digest)
      ensures cursors.Some? ==>
                && cursors.value.0.header.height == cursors.value.1.header.height
                && Cursors(Known(), mainChain.currentBlock, forkTip, cursors.value.0, cursors.value.1, mainChain.digest)
      ensures cursors.None? ==>
                forall a :: !CommonAncestor(Known(), mainChain.currentBlock, forkTip, a, mainChain.digest)
    {
      ghost var known, digest := Known(), mainChain.digest;
      var mainTip := mainChain.currentBlock;
      var fork := forkTip;
      CursorsStart(known, mainTip, forkTip, digest);
      while fork.header.height > mainTip.header.height
        invariant Cursors(known, mainTip, forkTip, mainTip, fork, digest)
        decreases fork.header.height
      {
        var parent := FindBlock(fork.header.prevBlockHash);
        if parent.None? {
          CursorStuck(known, mainTip, forkTip, mainTip, fork, false, digest);
          return None;
        }
        ForkCursorDown(known, mainTip, forkTip, mainTip, fork, parent.value, digest);
        fork := parent.value;
      }
      var main := mainTip;
      while main.header.height > fork.header.height
        invariant Cursors(known, mainTip, forkTip, main, fork, digest)
        invariant main.header.height >= fork.header.height
        decreases main.header.height
      {
        var parent := FindBlock(main.header.prevBlockHash);
        if parent.None? {
          CursorStuck(known, mainTip, forkTip, main, fork, true, digest);
          return None;
        }
        MainCursorDown(known, mainTip, forkTip, main, fork, parent.value, digest);
        main := parent.value;
      }
      return Some((main, fork));
    }

    /** The block where the chain of forkTip leaves the main chain; None when a parent cannot be found. */
    method FindCommonAncestor(forkTip: Block) returns (ancestor: Option<Block>)
      requires IndexOk(mainChain.byHeight) && CollisionFree(mainChain.digest)
      requires forkTip in Known() && LinksDescend(Known(), mainChain.digest)
      ensures ancestor.Some? ==>
                && CommonAncestor(Known(), mainChain.currentBlock, forkTip, ancestor.value, mainChain.digest)
                && forall a :: CommonAncestor(Known(), mainChain.currentBlock, forkTip, a, mainChain.digest)
                     ==> a.header.height <= ancestor.value.header.height
      ensures ancestor.None? ==>
                forall a :: !CommonAncestor(Known(), mainChain.currentBlock, forkTip, a, mainChain.digest)
    {
      ghost var known, digest, mainTip := Known(), mainChain.digest, mainChain.currentBlock;
      var aligned := AlignHeights(forkTip);
      if aligned.None? {
        return None;
      }
      var (main, fork) := aligned.value;
      while true
        invariant Cursors(known, mainTip, forkTip, main, fork, digest)
        invariant main.header.height == fork.header.height
        decreases main.header.height
      {
        if HashBlock(main, mainChain.digest) == HashBlock(fork, mainChain.digest) {
          MeetingPoint(known, mainTip, forkTip, main, fork, digest);
          return Some(main);
        }
        var mainParent := FindBlock(main.header.prevBlockHash);
        if mainParent.None? {
          CursorStuck(known, mainTip, forkTip, main, fork, true, digest);
          return None;
        }
        var forkParent := FindBlock(fork.header.prevBlockHash);
        if forkParent.None? {
          CursorStuck(known, mainTip, forkTip, main, fork, false, digest);
          return None;
        }
        BothCursorsDown(known, mainTip, forkTip, main, fork, mainParent.value, forkParent.value, digest);
        main := mainParent.value;
        fork := forkParent.value;
      }
    }
  }
}
