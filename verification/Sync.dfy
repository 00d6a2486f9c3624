/** The catch-up protocol between two nodes (sync_manager.go). */
module Sync {
  import opened Prelude
  import opened Blocks
  import opened Chain

  datatype Status = Syncing | Synced | Behind

  datatype State = State(store: Store, status: Status, target: Uint64, current: Uint64, peer: string)

  datatype Request = Request(start: Uint64, end: Uint64)

  datatype SyncError = EmptyResponse | InvalidBlock(why: ChainError) | AddFailed | InvalidRange

  function Start(s: State, peerHeight: Uint64, peer: string): State {
    var fresh' := s.(current := s.store.tip.header.height);
    if peerHeight <= fresh'.current then fresh'.(status := Synced)
    else fresh'.(status := Syncing, target := peerHeight, peer := peer)
  }

  /** CreateBlockRequest, with uint64 sums that wrap. */
  function MakeRequest(s: State, batchSize: Uint64): Request {
    var start := (s.current + 1) % U64;
    var end := (start + batchSize - 1) % U64;
    Request(start, if end > s.target then s.target else end)
  }

  /** Blocks stored at consecutive heights from h, up to end or the first gap. */
  function Serve(store: Store, h: int, end: int): seq<Block>
    requires 0 <= h && end < U64
    decreases end - h
  {
    if h > end || h !in store.byHeight then [] else [store.byHeight[h]] + Serve(store, h + 1, end)
  }

  function Handle(store: Store, request: Request): Result<seq<Block>, SyncError> {
    if request.start > request.end then Err(InvalidRange)
    else if request.start > store.tip.header.height then Ok([])
    else Ok(Serve(store, request.start, request.end))
  }

  /** The verify-and-append loop; it stops at the first block that is refused. */
  function Append(s: State, blocks: seq<Block>, writes: seq<Writes>, digest: Digest): (State, Option<SyncError>)
    requires |writes| == |blocks|
    decreases |blocks|
  {
    if blocks == [] then (s, None)
    else
      var bad := Verify(s.store, blocks[0], digest);
      if bad.Some? then (s, Some(InvalidBlock(bad.value)))
      else
        var (store, failed) := Add(s.store, blocks[0], writes[0]);
        if failed.Some? then (s.(store := store), Some(AddFailed))
        else Append(s.(store := store, current := blocks[0].header.height), blocks[1..], writes[1..], digest)
  }

  function Process(s: State, blocks: seq<Block>, writes: seq<Writes>, digest: Digest): (State, Option<SyncError>)
    requires |writes| == |blocks|
  {
    if blocks == [] then (s, Some(EmptyResponse))
    else
      var (appended, error) := Append(s, blocks, writes, digest);
      if error.Some? then (appended, error)
      else if appended.current >= appended.target then (appended.(status := Synced), None)
      else (appended, None)
  }

  class SyncManager {
    const blockchain: Blockchain
    var status: Status
    var targetHeight: Uint64
    var currentHeight: Uint64
    var syncPeer: string

    ghost function View(): State
      reads this, blockchain
    {
      State(blockchain.View(), status, targetHeight, currentHeight, syncPeer)
    }

    constructor (bc: Blockchain)
      ensures blockchain == bc
      ensures View() == State(bc.View(), Synced, 0, bc.currentBlock.header.height, "")
    {
      blockchain, status, targetHeight, currentHeight, syncPeer := bc, Synced, 0, bc.currentBlock.header.height, "";
    }

    method StartSync(peerHeight: Uint64, peerID: string)
      modifies this
      ensures View() == Start(old(View()), peerHeight, peerID)
    {
      currentHeight := blockchain.currentBlock.header.height;
      if peerHeight <= currentHeight {
        status := Synced;
        return;
      }
      status := Syncing;
      targetHeight := peerHeight;
      syncPeer := peerID;
    }

    method CreateBlockRequest(batchSize: Uint64) returns (request: Request)
      ensures request == MakeRequest(View(), batchSize)
    {
      var startHeight := (currentHeight + 1) % U64;
      var endHeight := (startHeight + batchSize - 1) % U64;
      if endHeight > targetHeight {
        endHeight := targetHeight;
      }
      return Request(startHeight, endHeight);
    }

    method HandleBlockRequest(request: Request) returns (result: Result<seq<Block>, SyncError>)
      ensures result == Handle(blockchain.View(), request)
    {
      if request.start > request.end {
        return Err(InvalidRange);
      }
      var blocks: seq<Block> := [];
      if request.start > blockchain.currentBlock.header.height {
        return Ok(blocks);
      }
      var height: int := request.start;
      while height <= request.end
        invariant request.start <= height
        invariant blocks + Serve(blockchain.View(), height, request.end)
                  == Serve(blockchain.View(), request.start, request.end)
      {
        var found := blockchain.GetBlockByHeight(height);
        if found.Err? {
          assert blocks + [] == blocks;
          break;
        }
        assert blocks + Serve(blockchain.View(), height, request.end)
            == (blocks + [found.value]) + Serve(blockchain.View(), height + 1, request.end);
        blocks := blocks + [found.value];
        height := height + 1;
      }
      assert blocks + [] == blocks;
      return Ok(blocks);
    }

    method ProcessBlockResponse(blocks: seq<Block>, writes: seq<Writes>) returns (error: Option<SyncError>)
      requires |writes| == |blocks|
      modifies this, blockchain
      ensures (View(), error) == Process(old(View()), blocks, writes, blockchain.digest)
    {
      if |blocks| == 0 {
        return Some(EmptyResponse);
      }
      var i := 0;
      while i < |blocks|
        invariant 0 <= i <= |blocks|
        invariant Append(View(), blocks[i..], writes[i..], blockchain.digest)
                  == Append(old(View()), blocks, writes, blockchain.digest)
      {
        assert blocks[i..][1..] == blocks[i + 1..] && writes[i..][1..] == writes[i + 1..];
        var bad := blockchain.VerifyBlock(blocks[i]);
        if bad.Some? {
          return Some(InvalidBlock(bad.value));
        }
        var failed := blockchain.AddBlock(blocks[i], writes[i]);
        if failed.Some? {
          return Some(AddFailed);
        }
        currentHeight := blocks[i].header.height;
        i := i + 1;
      }
      if currentHeight >= targetHeight {
        status := Synced;
      }
      return None;
    }
  }

  // ---- Safety against any peer ----

  /** The later store still has every block up to the tip of the earlier one. */
  ghost predicate Keeps(before: Store, after: Store) {
    forall h :: h <= before.tip.header.height && h in before.byHeight ==>
      h in after.byHeight && after.byHeight[h] == before.byHeight[h]
  }

  lemma {:induction false} AppendIsSafe(s: State, blocks: seq<Block>, writes: seq<Writes>, base: Block, digest: Digest)
    requires |writes| == |blocks|
    requires ChainOk(s.store, base, digest) && s.current == s.store.tip.header.height
    requires s.current + |blocks| < U64 - 1
    ensures var after := Append(s, blocks, writes, digest).0;
            && ChainOk(after.store, base, digest) && after.current == after.store.tip.header.height
            && s.current <= after.current
    decreases |blocks|
  {
    if blocks != [] && Verify(s.store, blocks[0], digest).None? {
      AddKeepsChainOk(s.store, base, blocks[0], digest, writes[0]);
      var (store, failed) := Add(s.store, blocks[0], writes[0]);
      if failed.None? {
        AppendIsSafe(s.(store := store, current := blocks[0].header.height), blocks[1..], writes[1..], base, digest);
      }
    }
  }

  lemma {:induction false} AppendKeepsBlocks(s: State, blocks: seq<Block>, writes: seq<Writes>, top: int,
                                             digest: Digest)
    requires |writes| == |blocks| && top <= s.store.tip.header.height
    requires s.store.tip.header.height + |blocks| < U64
    ensures var after := Append(s, blocks, writes, digest).0;
            forall h :: h <= top && h in s.store.byHeight ==>
              h in after.store.byHeight && after.store.byHeight[h] == s.store.byHeight[h]
    decreases |blocks|
  {
    if blocks != [] && Verify(s.store, blocks[0], digest).None? {
      var (store, failed) := Add(s.store, blocks[0], writes[0]);
      if failed.None? {
        var next := s.(store := store, current := blocks[0].header.height);
        AppendKeepsBlocks(next, blocks[1..], writes[1..], top, digest);
      }
    }
  }

  /** Whatever a peer sends, even when it is refused midway or a write fails, our stored chain stays linked with
      consecutive heights, keeps every block it had, and currentHeight is the height of the tip. */
  lemma ArbitraryResponseIsSafe(s: State, blocks: seq<Block>, writes: seq<Writes>, base: Block, digest: Digest)
    requires |writes| == |blocks|
    requires ChainOk(s.store, base, digest) && s.current == s.store.tip.header.height
    requires s.current + |blocks| < U64 - 1
    ensures var after := Process(s, blocks, writes, digest).0;
            && ChainOk(after.store, base, digest) && after.current == after.store.tip.header.height
            && s.current <= after.current
            && Keeps(s.store, after.store)
  {
    AppendIsSafe(s, blocks, writes, base, digest);
    AppendKeepsBlocks(s, blocks, writes, s.current, digest);
  }

  // ---- Progress against an honest peer ----

  /** A request names a non-empty range exactly when the batch is non-empty and its end does not wrap. */
  lemma RequestIsValidIff(s: State, batchSize: Uint64)
    requires s.current < s.target
    ensures var request := MakeRequest(s, batchSize);
            request.start <= request.end <==> 1 <= batchSize && s.current + batchSize < U64
  {
  }

  /** The peer's chain goes at least as far as ours and agrees with it everywhere. */
  ghost predicate Extends(peer: Store, ours: Store, base: Block) {
    && ours.tip.header.height <= peer.tip.header.height
    && forall h :: base.header.height < h <= ours.tip.header.height ==>
         h in ours.byHeight && h in peer.byHeight && ours.byHeight[h] == peer.byHeight[h]
  }

  ghost predicate IsStored(store: Store, h: int, b: Block) {
    0 <= h < U64 && h in store.byHeight && b == store.byHeight[h]
  }

  /** The blocks are those the store holds at consecutive heights from h. */
  ghost predicate ArePeers(store: Store, h: int, blocks: seq<Block>) {
    forall i :: 0 <= i < |blocks| ==> IsStored(store, h + i, blocks[i])
  }

  lemma ArePeersTail(store: Store, h: int, blocks: seq<Block>)
    requires ArePeers(store, h, blocks) && blocks != []
    ensures ArePeers(store, h + 1, blocks[1..])
  {
    forall i | 0 <= i < |blocks[1..]| ensures IsStored(store, h + 1 + i, blocks[1..][i]) {
      assert IsStored(store, h + (i + 1), blocks[i + 1]);
    }
  }

  lemma {:induction false} ServeIsSlice(store: Store, h: int, end: int)
    requires 0 <= h && end < U64
    requires forall k :: h <= k <= end ==> k in store.byHeight
    ensures |Serve(store, h, end)| == if h <= end then end - h + 1 else 0
    ensures ArePeers(store, h, Serve(store, h, end))
    decreases end - h
  {
    if h <= end {
      ServeIsSlice(store, h + 1, end);
      var blocks := Serve(store, h, end);
      forall i | 0 <= i < |blocks| ensures IsStored(store, h + i, blocks[i]) {
        if i > 0 {
          assert IsStored(store, h + 1 + (i - 1), blocks[1..][i - 1]);
        }
      }
    }
  }

  ghost predicate AllWritten(writes: seq<Writes>) {
    forall i :: 0 <= i < |writes| ==> writes[i] == BothWritten
  }

  /** The peer's block after our tip passes our checks. */
  lemma NextBlockVerifies(ours: Store, peer: Store, base: Block, digest: Digest)
    requires ChainOk(ours, base, digest) && ChainOk(peer, base, digest) && Extends(peer, ours, base)
    requires ours.tip.header.height < peer.tip.header.height
    ensures var h := ours.tip.header.height + 1;
            h in peer.byHeight && peer.byHeight[h].header.height == h && Verify(ours, peer.byHeight[h], digest).None?
  {
    var h := ours.tip.header.height + 1;
    assert LinkedAt(peer.byHeight, base, h, digest);
    var below :| IsAt(peer.byHeight, base, h - 1, below)
                 && peer.byHeight[h].header.prevBlockHash == HashBlock(below, digest);
    assert below == ours.tip;
  }

  /** Blocks that are the peer's next ones are all taken. */
  lemma {:induction false} AppendHonest(s: State, blocks: seq<Block>, writes: seq<Writes>, peer: Store,
                                        base: Block, digest: Digest)
    requires |writes| == |blocks| && AllWritten(writes)
    requires ChainOk(s.store, base, digest) && ChainOk(peer, base, digest) && Extends(peer, s.store, base)
    requires s.current == s.store.tip.header.height && s.current + |blocks| <= peer.tip.header.height
    requires ArePeers(peer, s.current + 1, blocks)
    ensures var (after, error) := Append(s, blocks, writes, digest);
            && error.None? && after.current == s.current + |blocks| == after.store.tip.header.height
            && ChainOk(after.store, base, digest) && Extends(peer, after.store, base)
            && after.target == s.target && after.status == s.status
    decreases |blocks|
  {
    if blocks != [] {
      var h := s.current + 1;
      NextBlockVerifies(s.store, peer, base, digest);
      assert IsStored(peer, h, blocks[0]);
      AddKeepsChainOk(s.store, base, blocks[0], digest, writes[0]);
      var next := s.(store := Add(s.store, blocks[0], writes[0]).0, current := blocks[0].header.height);
      assert Extends(peer, next.store, base);
      ArePeersTail(peer, h, blocks);
      AppendHonest(next, blocks[1..], writes[1..], peer, base, digest);
    }
  }

  /** One round: ask for a batch, let the peer serve it, process the answer. */
  ghost function Round(s: State, peer: Store, batchSize: Uint64, digest: Digest): State {
    match Handle(peer, MakeRequest(s, batchSize))
    case Err(_) => s
    case Ok(blocks) => Process(s, blocks, seq(|blocks|, _ => BothWritten), digest).0
  }

  /** The state of a node in the middle of catching up with this peer. */
  ghost predicate CatchingUp(s: State, peer: Store, base: Block, digest: Digest) {
    && ChainOk(s.store, base, digest) && ChainOk(peer, base, digest) && Extends(peer, s.store, base)
    && s.current == s.store.tip.header.height <= s.target <= peer.tip.header.height
    && (s.status == Synced <==> s.current == s.target)
  }

  /** The honest peer answers a usable request with exactly its blocks in the range. */
  lemma HandleHonest(peer: Store, request: Request, base: Block, digest: Digest)
    requires ChainOk(peer, base, digest)
    requires base.header.height < request.start <= request.end <= peer.tip.header.height
    ensures Handle(peer, request).Ok?
    ensures var blocks := Handle(peer, request).value;
            && |blocks| == request.end - request.start + 1
            && ArePeers(peer, request.start, blocks)
  {
    forall k | request.start <= k <= request.end ensures k in peer.byHeight {
      assert LinkedAt(peer.byHeight, base, k, digest);
    }
    ServeIsSlice(peer, request.start, request.end);
  }

  /** A round with a usable batch takes exactly min(batch, remaining) blocks. */
  lemma RoundAdvances(s: State, peer: Store, batchSize: Uint64, base: Block, digest: Digest)
    requires CatchingUp(s, peer, base, digest) && s.current < s.target
    requires 1 <= batchSize && s.current + batchSize < U64
    ensures var after := Round(s, peer, batchSize, digest);
            && CatchingUp(after, peer, base, digest) && after.target == s.target
            && after.current == if s.current + batchSize <= s.target then s.current + batchSize else s.target
  {
    var request := MakeRequest(s, batchSize);
    assert request.start == s.current + 1
        && request.end == if s.current + batchSize <= s.target then s.current + batchSize else s.target;
    HandleHonest(peer, request, base, digest);
    var blocks := Handle(peer, request).value;
    var writes := seq(|blocks|, _ => BothWritten);
    AppendHonest(s, blocks, writes, peer, base, digest);
    assert Round(s, peer, batchSize, digest) == Process(s, blocks, writes, digest).0;
  }

  /** A request whose end wraps is refused by the peer, so the round changes nothing. */
  lemma WrappedRoundStalls(s: State, peer: Store, batchSize: Uint64, digest: Digest)
    requires s.current < s.target && !(1 <= batchSize && s.current + batchSize < U64)
    ensures Round(s, peer, batchSize, digest) == s
  {
    RequestIsValidIff(s, batchSize);
  }

  ghost function Rounds(s: State, peer: Store, batches: seq<Uint64>, digest: Digest): State
    decreases |batches|
  {
    if batches == [] || s.status == Synced then s
    else Rounds(Round(s, peer, batches[0], digest), peer, batches[1..], digest)
  }

  /** The peer's chain cut at a height. */
  ghost predicate EqualsPrefix(ours: Store, peer: Store, base: Block, top: int) {
    && ours.tip.header.height == top <= peer.tip.header.height
    && (forall h :: base.header.height < h <= top ==>
          h in ours.byHeight && h in peer.byHeight && ours.byHeight[h] == peer.byHeight[h])
  }

  /** Against an honest, unpruned peer, rounds with any usable batch sizes end synced on the peer's own chain. */
  lemma {:induction false} RoundsConverge(s: State, peer: Store, batches: seq<Uint64>, base: Block, digest: Digest)
    requires CatchingUp(s, peer, base, digest)
    requires forall i :: 0 <= i < |batches| ==> 1 <= batches[i] && s.target + batches[i] < U64
    requires |batches| >= s.target - s.current
    ensures var after := Rounds(s, peer, batches, digest);
            && after.status == Synced && after.current == after.target == s.target
            && ChainOk(after.store, base, digest) && EqualsPrefix(after.store, peer, base, s.target)
    decreases |batches|
  {
    if s.status != Synced {
      RoundAdvances(s, peer, batches[0], base, digest);
      RoundsConverge(Round(s, peer, batches[0], digest), peer, batches[1..], base, digest);
    }
  }

  /** Starting a sync with a higher honest peer puts the node into that state. */
  lemma StartCatchesUp(s: State, peer: Store, peerID: string, base: Block, digest: Digest)
    requires ChainOk(s.store, base, digest) && ChainOk(peer, base, digest) && Extends(peer, s.store, base)
    requires s.store.tip.header.height < peer.tip.header.height
    ensures CatchingUp(Start(s, peer.tip.header.height, peerID), peer, base, digest)
    ensures Start(s, peer.tip.header.height, peerID).target == peer.tip.header.height
  {
  }

  // ---- What a start and a response change ----

  /** A peer that is not higher leaves us synced; a higher one makes its height our target. */
  lemma StartLooksAtTheTip(s: State, peerHeight: Uint64, peerID: string)
    ensures var after := Start(s, peerHeight, peerID);
            && after.store == s.store && after.current == s.store.tip.header.height
            && (after.status == Synced <==> peerHeight <= s.store.tip.header.height)
            && (peerHeight > s.store.tip.header.height ==>
                  after.status == Syncing && after.target == peerHeight && after.peer == peerID)
  {
  }

  /** A response that is accepted leaves us synced exactly when the tip has reached the target, or we were already; one
      that is refused leaves the status as it was. */
  lemma SyncedIffReached(s: State, blocks: seq<Block>, writes: seq<Writes>, digest: Digest)
    requires |writes| == |blocks| && s.current == s.store.tip.header.height
    ensures var (after, error) := Process(s, blocks, writes, digest);
            && after.target == s.target && after.current == after.store.tip.header.height
            && (error.None? ==>
                  (after.status == Synced <==> after.store.tip.header.height >= s.target || s.status == Synced))
            && (error.Some? ==> after.status == s.status)
  {
    AppendFrame(s, blocks, writes, digest);
  }

  lemma {:induction false} AppendFrame(s: State, blocks: seq<Block>, writes: seq<Writes>, digest: Digest)
    requires |writes| == |blocks| && s.current == s.store.tip.header.height
    ensures var after := Append(s, blocks, writes, digest).0;
            after.status == s.status && after.target == s.target && after.current == after.store.tip.header.height
    decreases |blocks|
  {
    if blocks != [] && Verify(s.store, blocks[0], digest).None? && writes[0] == BothWritten {
      var store := Add(s.store, blocks[0], writes[0]).0;
      AppendFrame(s.(store := store, current := blocks[0].header.height), blocks[1..], writes[1..], digest);
    }
  }

  /** The first k blocks were appended, and no more. */
  ghost predicate Appended(s: State, after: State, blocks: seq<Block>, k: nat) {
    && k <= |blocks|
    && after.store.tip == (if k == 0 then s.store.tip else blocks[k - 1])
    && after.store.tip.header.height == s.store.tip.header.height + k
  }

  /** The block does not continue the chain. */
  ghost predicate DoesNotFit(after: State, b: Block, digest: Digest) {
    b.header.height != after.store.tip.header.height + 1 || b.header.prevBlockHash != HashBlock(after.store.tip, digest)
  }

  /** An accepted response has been appended whole; of a refused one exactly the blocks before the first that does not
      fit, or that the database does not take. */
  lemma {:induction false} AppendsUpToRefusal(s: State, blocks: seq<Block>, writes: seq<Writes>, digest: Digest)
    requires |writes| == |blocks| && s.store.tip.header.height + |blocks| < 0xFFFF_FFFF_FFFF_FFFF
    ensures var (after, error) := Append(s, blocks, writes, digest);
            match error
            case None => Appended(s, after, blocks, |blocks|)
            case Some(InvalidBlock(_)) =>
              exists k :: 0 <= k < |blocks| && Appended(s, after, blocks, k) && DoesNotFit(after, blocks[k], digest)
            case Some(AddFailed) =>
              exists k :: 0 <= k < |blocks| && Appended(s, after, blocks, k) && writes[k] != BothWritten
            case _ => false
    decreases |blocks|
  {
    if blocks != [] {
      PassesIff(s.store, blocks[0], digest);
      if Verify(s.store, blocks[0], digest).Some? {
        assert Appended(s, s, blocks, 0);
      } else if writes[0] != BothWritten {
        assert Appended(s, Append(s, blocks, writes, digest).0, blocks, 0);
      } else {
        var next := s.(store := Add(s.store, blocks[0], writes[0]).0, current := blocks[0].header.height);
        AppendsUpToRefusal(next, blocks[1..], writes[1..], digest);
        AppendedShifts(s, next, Append(s, blocks, writes, digest).0, blocks);
      }
    }
  }

  lemma AppendedShifts(s: State, next: State, after: State, blocks: seq<Block>)
    requires blocks != [] && next.store.tip == blocks[0]
    requires blocks[0].header.height == s.store.tip.header.height + 1
    ensures forall k :: 0 <= k < |blocks| && Appended(next, after, blocks[1..], k) ==>
              Appended(s, after, blocks, k + 1)
    ensures forall k :: 0 <= k < |blocks| - 1 ==> blocks[1..][k] == blocks[k + 1]
  {
  }

  /** A peer refuses a range that is upside down, has nothing to give above its tip, and otherwise gives the blocks it
      stores from the start, none above the end. */
  lemma ServedIs(store: Store, request: Request)
    ensures Handle(store, request).Err? <==> request.start > request.end
    ensures request.end >= request.start > store.tip.header.height ==> Handle(store, request) == Ok([])
    ensures request.start <= request.end && request.start <= store.tip.header.height ==>
              Handle(store, request).Ok?
              && ArePeers(store, request.start, Handle(store, request).value)
              && |Handle(store, request).value| <= request.end - request.start + 1
              && (|Handle(store, request).value| <= request.end - request.start ==>
                    request.start + |Handle(store, request).value| !in store.byHeight)
  {
    if request.start <= request.end {
      ServeIs(store, request.start, request.end);
    }
  }

  lemma {:induction false} ServeIs(store: Store, h: int, end: int)
    requires 0 <= h <= end + 1 && end < U64
    ensures var blocks := Serve(store, h, end);
            && ArePeers(store, h, blocks) && |blocks| <= end - h + 1
            && (|blocks| <= end - h ==> h + |blocks| !in store.byHeight)
    decreases end - h
  {
    if h <= end && h in store.byHeight {
      ServeIs(store, h + 1, end);
      var rest := Serve(store, h + 1, end);
      assert forall i :: 1 <= i < |Serve(store, h, end)| ==> Serve(store, h, end)[i] == rest[i - 1];
      assert forall i :: 0 <= i < |rest| ==> IsStored(store, h + 1 + i, rest[i]);
    }
  }
}
