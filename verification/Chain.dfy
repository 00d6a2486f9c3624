/** The block store and its tip (blockchain.go). */
module Chain {
  import opened Prelude
  import opened Blocks

  /** Blocks by height in LevelDB, the record under "current_block", and the tip held in memory. */
  datatype Store = Store(byHeight: map<Uint64, Block>, record: Block, tip: Block)

  /** Which of AddBlock's two writes LevelDB takes. */
  datatype Writes = BothWritten | FirstFails | SecondFails

  datatype ChainError = InvalidHeight | InvalidPrevHash | WriteFailed | NotFound | Unreadable

  function Verify(s: Store, b: Block, digest: Digest): Option<ChainError> {
    if b.header.height != (s.tip.header.height + 1) % U64 then Some(InvalidHeight)
    else if b.header.prevBlockHash != HashBlock(s.tip, digest) then Some(InvalidPrevHash)
    else None
  }

  function Add(s: Store, b: Block, writes: Writes): (Store, Option<ChainError>) {
    if writes == FirstFails then (s, Some(WriteFailed))
    else
      var indexed := s.(byHeight := s.byHeight[b.header.height := b]);
      if writes == SecondFails then (indexed, Some(WriteFailed))
      else (indexed.(record := b, tip := b), None)
  }

  /** The block at a height of a chain that starts at the given base (genesis, or the oldest block kept). */
  ghost predicate IsAt(byHeight: map<Uint64, Block>, base: Block, h: int, b: Block) {
    if h <= base.header.height then b == base else h in byHeight && b == byHeight[h]
  }

  /** The block stored at h has height h and names the hash of the block below it. */
  ghost predicate LinkedAt(byHeight: map<Uint64, Block>, base: Block, h: int, digest: Digest) {
    && h in byHeight && byHeight[h].header.height == h
    && exists below :: IsAt(byHeight, base, h - 1, below)
         && byHeight[h].header.prevBlockHash == HashBlock(below, digest)
  }

  /** The store holds every block from above the base to the tip, each one linked to the one below. */
  ghost predicate ChainOk(s: Store, base: Block, digest: Digest) {
    && base.header.height <= s.tip.header.height < U64 - 1
    && s.record == s.tip
    && IsAt(s.byHeight, base, s.tip.header.height, s.tip)
    && forall h :: base.header.height < h <= s.tip.header.height ==> LinkedAt(s.byHeight, base, h, digest)
  }

  /** What LevelDB holds under "current_block". */
  datatype Current = Missing | Garbled | Stored(tip: Block)

  /** A start on the given database; written tells whether LevelDB takes the genesis block if it has to be stored. */
  function Opened(byHeight: map<Uint64, Block>, current: Current, genesis: Block, written: bool)
    : Result<Store, ChainError>
  {
    match current
    case Missing => if written then Ok(Store(byHeight, genesis, genesis)) else Err(WriteFailed)
    case Garbled => Err(Unreadable)
    case Stored(tip) => Ok(Store(byHeight, tip, tip))
  }

  /** NewBlockchain: resumes from current_block, or on a database without one stores the genesis block there, and
      only there. */
  method NewBlockchain(genesis: Block, digest: Digest, byHeight: map<Uint64, Block>, current: Current, written: bool)
    returns (result: Result<Blockchain, ChainError>)
    ensures match Opened(byHeight, current, genesis, written)
            case Ok(store) => result.Ok? && result.value.View() == store && result.value.digest == digest
            case Err(error) => result == Err(error)
    ensures result.Ok? ==> fresh(result.value)
  {
    if current.Missing? && !written {
      return Err(WriteFailed);
    }
    if current.Garbled? {
      return Err(Unreadable);
    }
    var bc := new Blockchain(byHeight, if current.Stored? then current.tip else genesis, digest);
    return Ok(bc);
  }

  /** An empty database opens as a chain of the genesis block alone; a restart opens the chain it left, whatever
      writes of its last block succeeded. */
  lemma OpenedIsChainOk(s: Store, base: Block, genesis: Block, digest: Digest, written: bool)
    ensures genesis.header.height == 0 ==>
              Opened(map[], Missing, genesis, true).Ok?
              && ChainOk(Opened(map[], Missing, genesis, true).value, genesis, digest)
    ensures ChainOk(s, base, digest) ==> Opened(s.byHeight, Stored(s.record), genesis, written) == Ok(s)
  {
  }

  class Blockchain {
    var byHeight: map<Uint64, Block>
    var record: Block
    var currentBlock: Block
    const digest: Digest

    ghost function View(): Store
      reads this
    {
      Store(byHeight, record, currentBlock)
    }

    constructor (byHeight: map<Uint64, Block>, tip: Block, digest: Digest)
      ensures this.digest == digest && View() == Store(byHeight, tip, tip)
    {
      this.byHeight, this.record, this.currentBlock, this.digest := byHeight, tip, tip, digest;
    }

    method AddBlock(b: Block, writes: Writes) returns (error: Option<ChainError>)
      modifies this
      ensures (View(), error) == Add(old(View()), b, writes)
    {
      if writes == FirstFails {
        return Some(WriteFailed);
      }
      byHeight := byHeight[b.header.height := b];
      if writes == SecondFails {
        return Some(WriteFailed);
      }
      record := b;
      currentBlock := b;
      return None;
    }

    method GetBlockByHeight(h: Uint64) returns (result: Result<Block, ChainError>)
      ensures result == if h in byHeight then Ok(byHeight[h]) else Err(NotFound)
    {
      if h !in byHeight {
        return Err(NotFound);
      }
      return Ok(byHeight[h]);
    }

    method VerifyBlock(b: Block) returns (error: Option<ChainError>)
      ensures error == Verify(View(), b, digest)
    {
      if b.header.height != (currentBlock.header.height + 1) % U64 {
        return Some(InvalidHeight);
      }
      if b.header.prevBlockHash != HashBlock(currentBlock, digest) {
        return Some(InvalidPrevHash);
      }
      return None;
    }
  }

  /** Storing a block above h leaves the links up to h alone. */
  lemma LinkSurvives(byHeight: map<Uint64, Block>, base: Block, h: int, b: Block, digest: Digest)
    requires LinkedAt(byHeight, base, h, digest) && h < b.header.height
    ensures LinkedAt(byHeight[b.header.height := b], base, h, digest)
  {
    var below :| IsAt(byHeight, base, h - 1, below) && byHeight[h].header.prevBlockHash == HashBlock(below, digest);
    assert IsAt(byHeight[b.header.height := b], base, h - 1, below);
  }

  /** A verified block extends a good chain, and a failed write leaves it good. */
  lemma AddKeepsChainOk(s: Store, base: Block, b: Block, digest: Digest, writes: Writes)
    requires ChainOk(s, base, digest) && s.tip.header.height < U64 - 2
    requires Verify(s, b, digest).None?
    ensures ChainOk(Add(s, b, writes).0, base, digest)
  {
    var next := Add(s, b, writes).0;
    if writes != FirstFails {
      forall h | base.header.height < h <= s.tip.header.height
        ensures LinkedAt(next.byHeight, base, h, digest)
      {
        LinkSurvives(s.byHeight, base, h, b, digest);
      }
      assert IsAt(next.byHeight, base, b.header.height - 1, s.tip);
      assert LinkedAt(next.byHeight, base, b.header.height, digest);
    }
  }

  /** A block that is added is found at its height and is the tip, in memory and on disk; one that is not leaves the
      tip alone, and no other height ever changes. */
  lemma AddedIsFound(s: Store, b: Block, writes: Writes, h: Uint64)
    ensures var (after, error) := Add(s, b, writes);
            && (error.None? <==> writes == BothWritten)
            && (error.None? ==> b.header.height in after.byHeight && after.byHeight[b.header.height] == b)
            && (after.tip, after.record) == (if error.None? then (b, b) else (s.tip, s.record))
            && (h != b.header.height || writes == FirstFails ==>
                  (h in after.byHeight <==> h in s.byHeight)
                  && (h in s.byHeight ==> after.byHeight[h] == s.byHeight[h]))
  {
  }

  /** A block passes exactly at the next height and with the hash of the tip. */
  lemma PassesIff(s: Store, b: Block, digest: Digest)
    requires s.tip.header.height < 0xFFFF_FFFF_FFFF_FFFF
    ensures Verify(s, b, digest).None?
            <==> b.header.height == s.tip.header.height + 1 && b.header.prevBlockHash == HashBlock(s.tip, digest)
  {
  }
}
