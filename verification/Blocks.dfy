/** Block shapes and block hashes (core/types.go). */
module Blocks {
  import opened Prelude

  datatype Transaction = Transaction(id: string, from: string, to: string, amount: int, fee: int, nonce: Uint64,
                                     signature: Bytes)

  datatype Header = Header(prevBlockHash: Bytes, merkleRoot: Bytes, height: Uint64, pobWeight: Uint64,
                           vrfOutput: Option<Bytes>)

  datatype Block = Block(header: Header, transactions: seq<Transaction>, proposerID: string, pohSequence: Bytes,
                         signature: Bytes, vrfProof: Option<Bytes>)

  /** A validator record. Scores are real numbers. */
  datatype ValidatorInfo = ValidatorInfo(id: string, publicKey: Bytes, score: real, active: bool, suspended: bool,
                                         networkASN: string, ipAddress: string)

  /** SHA-256 of a marshalled block. */
  type Digest = Block -> Bytes

  /** The block with its signature cleared: what the hash covers. */
  function Body(b: Block): Block {
    b.(signature := [])
  }

  /** Block.Hash: two blocks that differ only in their signature have one hash. */
  function HashBlock(b: Block, digest: Digest): Bytes {
    digest(Body(b))
  }

  ghost predicate CollisionFree(digest: Digest) {
    forall a, b :: digest(a) == digest(b) ==> a == b
  }

  /** With a collision-free digest two blocks share a hash exactly when they differ in nothing but the signature. */
  lemma SameHashIff(a: Block, b: Block, digest: Digest)
    requires CollisionFree(digest)
    ensures HashBlock(a, digest) == HashBlock(b, digest)
            <==> && a.header == b.header && a.transactions == b.transactions && a.proposerID == b.proposerID
                 && a.pohSequence == b.pohSequence && a.vrfProof == b.vrfProof
  {
  }
}
