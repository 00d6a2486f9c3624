/** Merkle roots, built recursively (blockchain.go, concurrent_validation.go) and level by level (pob_speedtest.go). */
module Merkle {
  import opened Prelude
  import opened ByteCodec

  /** SHA-256 as a parameter. */
  type Sha = Bytes -> Bytes

  const HASH_SIZE: nat := 32

  /** The level above: neighbours hashed in pairs, an odd last hash promoted. */
  function Level(sha: Sha, hashes: seq<Bytes>): (next: seq<Bytes>)
    ensures |next| == (|hashes| + 1) / 2
  {
    if |hashes| < 2 then hashes
    else [sha(hashes[0] + hashes[1])] + Level(sha, hashes[2..])
  }

  ghost function Root(sha: Sha, hashes: seq<Bytes>): Bytes
    decreases |hashes|
  {
    if |hashes| == 0 then []
    else if |hashes| == 1 then hashes[0]
    else Root(sha, Level(sha, hashes))
  }

  lemma {:induction false} LevelPrefix(sha: Sha, hashes: seq<Bytes>, i: nat)
    requires i % 2 == 0 && i < |hashes|
    ensures i + 1 < |hashes| ==>
              Level(sha, hashes[..i + 2]) == Level(sha, hashes[..i]) + [sha(hashes[i] + hashes[i + 1])]
    ensures i + 1 == |hashes| ==> Level(sha, hashes) == Level(sha, hashes[..i]) + [hashes[i]]
    decreases i
  {
    if i == 0 {
      if i + 1 < |hashes| {
        assert hashes[..2][2..] == [];
      }
    } else {
      LevelPrefix(sha, hashes[2..], i - 2);
      assert hashes[2..][..i - 2] == hashes[..i][2..];
      if i + 1 < |hashes| {
        assert hashes[2..][..i] == hashes[..i + 2][2..];
      }
    }
  }

  /** The inner loop both builders share: two hashes a turn. */
  method NextLevel(sha: Sha, hashes: seq<Bytes>) returns (next: seq<Bytes>)
    ensures next == Level(sha, hashes)
  {
    next := [];
    var i := 0;
    while i < |hashes|
      invariant i % 2 == 0 || i >= |hashes|
      invariant 0 <= i
      invariant next == if i < |hashes| then Level(sha, hashes[..i]) else Level(sha, hashes)
    {
      LevelPrefix(sha, hashes, i);
      if i + 1 < |hashes| {
        next := next + [sha(hashes[i] + hashes[i + 1])];
        assert i + 2 >= |hashes| ==> hashes[..i + 2] == hashes;
      } else {
        next := next + [hashes[i]];
      }
      i := i + 2;
    }
  }

  /** ComputeMerkleRoot and computeMerkleTree. */
  method ComputeMerkleRoot(sha: Sha, hashes: seq<Bytes>) returns (root: Bytes)
    ensures root == Root(sha, hashes)
    decreases |hashes|
  {
    if |hashes| == 0 {
      return [];
    }
    if |hashes| == 1 {
      return hashes[0];
    }
    var newHashes := NextLevel(sha, hashes);
    root := ComputeMerkleRoot(sha, newHashes);
  }

  /** calculateMerkleRootFromHashes: hex in, hex out, the level replaced in a loop. */
  method CalculateMerkleRootFromHashes(sha: Sha, chunkHashes: seq<string>) returns (root: string)
    ensures root == if chunkHashes == [] then "" else HexEncode(Root(sha, Decoded(chunkHashes)))
  {
    if |chunkHashes| == 0 {
      return "";
    }
    var hashes: seq<Bytes> := [];
    for i := 0 to |chunkHashes|
      invariant hashes == Decoded(chunkHashes[..i])
    {
      assert chunkHashes[..i + 1][..i] == chunkHashes[..i];
      hashes := hashes + [HexDecode(chunkHashes[i])];
    }
    assert chunkHashes[..|chunkHashes|] == chunkHashes;
    while |hashes| > 1
      invariant |hashes| >= 1 && Root(sha, hashes) == Root(sha, Decoded(chunkHashes))
      decreases |hashes|
    {
      hashes := NextLevel(sha, hashes);
    }
    return HexEncode(hashes[0]);
  }

  ghost function Decoded(chunkHashes: seq<string>): (hashes: seq<Bytes>)
    ensures |hashes| == |chunkHashes|
  {
    if chunkHashes == [] then []
    else
      var n := |chunkHashes| - 1;
      Decoded(chunkHashes[..n]) + [HexDecode(chunkHashes[n])]
  }

  ghost function Encoded(leaves: seq<Bytes>): (hashes: seq<string>)
    ensures |hashes| == |leaves|
  {
    if leaves == [] then [] else Encoded(leaves[..|leaves| - 1]) + [HexEncode(leaves[|leaves| - 1])]
  }

  lemma {:induction false} DecodedEncoded(leaves: seq<Bytes>)
    ensures Decoded(Encoded(leaves)) == leaves
    decreases |leaves|
  {
    if leaves != [] {
      var n := |leaves| - 1;
      DecodedEncoded(leaves[..n]);
      HexRoundTrip(leaves[n]);
      DecodedNext(Encoded(leaves[..n]), HexEncode(leaves[n]));
      assert leaves == leaves[..n] + [leaves[n]];
    }
  }

  lemma DecodedNext(chunkHashes: seq<string>, chunk: string)
    ensures Decoded(chunkHashes + [chunk]) == Decoded(chunkHashes) + [HexDecode(chunk)]
  {
    assert (chunkHashes + [chunk])[..|chunkHashes|] == chunkHashes;
  }

  /** The two builders agree on every non-empty leaf list: the iterative one over hex gives the hex of the root
      of the recursive one. */
  method BuildersAgree(sha: Sha, leaves: seq<Bytes>, hexLeaves: seq<string>)
    returns (recursive: Bytes, iterative: string)
    requires leaves != [] && hexLeaves == Encoded(leaves)
    ensures iterative == HexEncode(recursive) && HexDecode(iterative) == recursive
  {
    DecodedEncoded(leaves);
    recursive := ComputeMerkleRoot(sha, leaves);
    iterative := CalculateMerkleRootFromHashes(sha, hexLeaves);
    HexRoundTrip(recursive);
  }

  // ---- Binding ----

  ghost predicate Sized(sha: Sha) {
    forall x :: |sha(x)| == HASH_SIZE
  }

  ghost predicate AllSized(hashes: seq<Bytes>) {
    forall i :: 0 <= i < |hashes| ==> |hashes[i]| == HASH_SIZE
  }

  ghost predicate Collision(sha: Sha, x: Bytes, y: Bytes) {
    x != y && sha(x) == sha(y)
  }

  lemma {:induction false} LevelSized(sha: Sha, hashes: seq<Bytes>)
    requires Sized(sha) && AllSized(hashes)
    ensures AllSized(Level(sha, hashes))
    decreases |hashes|
  {
    if |hashes| >= 2 {
      assert AllSized(hashes[2..]);
      LevelSized(sha, hashes[2..]);
    }
  }

  /** Two different levels of one length under the same level above give two inputs with one hash. */
  lemma {:induction false} LevelBinding(sha: Sha, a: seq<Bytes>, b: seq<Bytes>) returns (x: Bytes, y: Bytes)
    requires AllSized(a) && AllSized(b) && |a| == |b| && Level(sha, a) == Level(sha, b)
    ensures a == b || Collision(sha, x, y)
    decreases |a|
  {
    x, y := [], [];
    if |a| >= 2 {
      x, y := a[0] + a[1], b[0] + b[1];
      assert Level(sha, a)[0] == sha(x) && Level(sha, b)[0] == sha(y);
      if x == y {
        assert a[0] == x[..HASH_SIZE] == b[0] && a[1] == x[HASH_SIZE..] == b[1];
        assert Level(sha, a)[1..] == Level(sha, a[2..]) && Level(sha, b)[1..] == Level(sha, b[2..]);
        x, y := LevelBinding(sha, a[2..], b[2..]);
        assert a == [a[0], a[1]] + a[2..] && b == [b[0], b[1]] + b[2..];
      }
    }
  }

  /** A root binds its leaves: equally many 32-byte leaves with the same root are equal, or the proof hands over
      two different inputs with the same hash. */
  lemma {:induction false} RootBinding(sha: Sha, a: seq<Bytes>, b: seq<Bytes>) returns (x: Bytes, y: Bytes)
    requires Sized(sha) && AllSized(a) && AllSized(b) && |a| == |b|
    requires Root(sha, a) == Root(sha, b)
    ensures a == b || Collision(sha, x, y)
    decreases |a|
  {
    x, y := [], [];
    if |a| >= 2 {
      LevelSized(sha, a);
      LevelSized(sha, b);
      x, y := RootBinding(sha, Level(sha, a), Level(sha, b));
      if !Collision(sha, x, y) {
        x, y := LevelBinding(sha, a, b);
      }
    }
  }

  // ---- Lists of different lengths ----

  /** How many of n leaves lie under the left child of the root. */
  function LeftSize(n: nat): (left: nat)
    requires n >= 2
    ensures 1 <= left < n && (n > 2 ==> left % 2 == 0)
  {
    if n == 2 then 1 else 2 * LeftSize((n + 1) / 2)
  }

  lemma {:induction false} LevelAppend(sha: Sha, xs: seq<Bytes>, ys: seq<Bytes>)
    requires |xs| % 2 == 0
    ensures Level(sha, xs + ys) == Level(sha, xs) + Level(sha, ys)
    decreases |xs|
  {
    if xs == [] {
      assert xs + ys == ys;
    } else {
      assert (xs + ys)[2..] == xs[2..] + ys;
      LevelAppend(sha, xs[2..], ys);
    }
  }

  /** The root hashes the roots of the left and the right leaves. */
  lemma {:induction false} RootSplits(sha: Sha, xs: seq<Bytes>, ys: seq<Bytes>)
    requires |xs| + |ys| >= 2 && |xs| == LeftSize(|xs| + |ys|)
    ensures Root(sha, xs + ys) == sha(Root(sha, xs) + Root(sha, ys))
    decreases |xs| + |ys|
  {
    if |xs| + |ys| == 2 {
      assert Level(sha, xs + ys) == [sha((xs + ys)[0] + (xs + ys)[1])];
    } else {
      LevelAppend(sha, xs, ys);
      RootSplits(sha, Level(sha, xs), Level(sha, ys));
    }
  }

  lemma RootSized(sha: Sha, hashes: seq<Bytes>)
    requires Sized(sha) && AllSized(hashes) && hashes != []
    ensures |Root(sha, hashes)| == HASH_SIZE
    decreases |hashes|
  {
    if |hashes| >= 2 {
      LevelSized(sha, hashes);
      RootSized(sha, Level(sha, hashes));
    }
  }

  lemma AppendSized(xs: seq<Bytes>, ys: seq<Bytes>)
    requires AllSized(xs) && AllSized(ys)
    ensures AllSized(xs + ys)
  {
  }

  lemma SameChildrenSameRoot(sha: Sha, xs: seq<Bytes>, ys: seq<Bytes>, xs': seq<Bytes>, ys': seq<Bytes>)
    requires |xs| + |ys| >= 2 && |xs| == LeftSize(|xs| + |ys|)
    requires |xs'| + |ys'| >= 2 && |xs'| == LeftSize(|xs'| + |ys'|)
    requires Root(sha, xs) == Root(sha, xs') && Root(sha, ys) == Root(sha, ys')
    ensures Root(sha, xs + ys) == Root(sha, xs' + ys')
  {
    RootSplits(sha, xs, ys);
    RootSplits(sha, xs', ys');
  }

  lemma LeavesUnderHash(sha: Sha, n: nat) returns (a: seq<Bytes>, b: seq<Bytes>)
    requires Sized(sha) && n > 0
    ensures |a| == 1 && |b| == n && AllSized(a) && AllSized(b) && Root(sha, a) == Root(sha, b)
  {
    b := seq(n, _ => Zeros(HASH_SIZE));
    RootSized(sha, b);
    a := [Root(sha, b)];
  }

  /** The root never binds the number of leaves: for any two positive numbers there are lists of 32-byte leaves of
      those lengths with one root, whatever the hash. */
  lemma {:induction false} LengthIsNotBound(sha: Sha, m: nat, n: nat) returns (a: seq<Bytes>, b: seq<Bytes>)
    requires Sized(sha) && m > 0 && n > 0
    ensures |a| == m && |b| == n && AllSized(a) && AllSized(b) && Root(sha, a) == Root(sha, b)
    decreases m + n
  {
    if m == 1 {
      a, b := LeavesUnderHash(sha, n);
    } else if n == 1 {
      b, a := LeavesUnderHash(sha, m);
    } else {
      var left, left' := LeftSize(m), LeftSize(n);
      var xs, xs' := LengthIsNotBound(sha, left, left');
      var ys, ys' := LengthIsNotBound(sha, m - left, n - left');
      a, b := xs + ys, xs' + ys';
      AppendSized(xs, ys);
      AppendSized(xs', ys');
      SameChildrenSameRoot(sha, xs, ys, xs', ys');
    }
  }
}
