/** Public keys and vote signatures as byte strings. ECDSA itself is foreign and enters as a parameter. */
module Signatures {
  import opened Prelude
  import opened ByteCodec

  datatype PublicKey = PublicKey(x: nat, y: nat)

  /** The curve arithmetic the node calls: the square root for legacy keys, and ecdsa.Verify. */
  datatype Curve = Curve(legacyY: nat -> nat, verify: (PublicKey, Bytes, nat, nat) -> bool)

  datatype KeyError = EmptyKey

  const COORDINATE_SIZE: nat := 32

  /** A coordinate's bytes, left-padded with zeros to 32. */
  function Padded(n: nat): Bytes
    requires |ToBytes(n)| <= COORDINATE_SIZE
  {
    Zeros(COORDINATE_SIZE - |ToBytes(n)|) + ToBytes(n)
  }

  /** Fills two zeroed 32-byte buffers from the right, as the encoder does with copy. */
  method EncodePublicKey(key: PublicKey) returns (encoded: Bytes)
    requires key.x < Pow256(COORDINATE_SIZE) && key.y < Pow256(COORDINATE_SIZE)
    ensures |ToBytes(key.x)| <= COORDINATE_SIZE && |ToBytes(key.y)| <= COORDINATE_SIZE
    ensures encoded == Padded(key.x) + Padded(key.y)
  {
    ToBytesLength(key.x, COORDINATE_SIZE);
    ToBytesLength(key.y, COORDINATE_SIZE);
    var xPadded := PadInto(ToBytes(key.x));
    var yPadded := PadInto(ToBytes(key.y));
    encoded := xPadded[..] + yPadded[..];
  }

  method PadInto(bytes: Bytes) returns (buffer: array<Byte>)
    requires |bytes| <= COORDINATE_SIZE
    ensures fresh(buffer) && buffer[..] == Zeros(COORDINATE_SIZE - |bytes|) + bytes
  {
    buffer := new Byte[COORDINATE_SIZE](_ => 0);
    var start := COORDINATE_SIZE - |bytes|;
    for i := 0 to |bytes|
      invariant forall k :: 0 <= k < start ==> buffer[k] == 0
      invariant forall k :: 0 <= k < i ==> buffer[start + k] == bytes[k]
    {
      buffer[start + i] := bytes[i];
    }
    assert forall k :: start <= k < COORDINATE_SIZE ==> buffer[k] == bytes[k - start] by {
      forall k | start <= k < COORDINATE_SIZE ensures buffer[k] == bytes[k - start] {
        assert buffer[start + (k - start)] == bytes[k - start];
      }
    }
  }

  /** 64 bytes hold both coordinates; any other non-empty string is a legacy X-only key. */
  function DecodePublicKey(encoded: Bytes, curve: Curve): Result<PublicKey, KeyError> {
    if |encoded| == 0 then Err(EmptyKey)
    else if |encoded| == 64 then Ok(PublicKey(FromBytes(encoded[..32]), FromBytes(encoded[32..])))
    else
      var x := FromBytes(encoded);
      Ok(PublicKey(x, curve.legacyY(x)))
  }

  lemma KeyRoundTrip(key: PublicKey, curve: Curve)
    requires |ToBytes(key.x)| <= COORDINATE_SIZE && |ToBytes(key.y)| <= COORDINATE_SIZE
    ensures DecodePublicKey(Padded(key.x) + Padded(key.y), curve) == Ok(key)
  {
    var encoded := Padded(key.x) + Padded(key.y);
    assert encoded[..32] == Padded(key.x) && encoded[32..] == Padded(key.y);
    forall n: nat | |ToBytes(n)| <= COORDINATE_SIZE ensures FromBytes(Padded(n)) == n {
      FromPadded(COORDINATE_SIZE - |ToBytes(n)|, ToBytes(n));
      FromToBytes(n);
    }
  }

  /** Byte strings of one length are equal when their values are. */
  lemma {:induction false} FromBytesInjective(a: Bytes, b: Bytes)
    requires |a| == |b| && FromBytes(a) == FromBytes(b)
    ensures a == b
  {
    if a != [] {
      var n := |a| - 1;
      FromBytesInjective(a[..n], b[..n]);
      assert a == a[..n] + [a[n]] && b == b[..n] + [b[n]];
    }
  }

  /** Every 64-byte string is the encoding of the key it decodes to: no two encodings name one key. */
  lemma DecodeThenEncode(encoded: Bytes, curve: Curve)
    requires |encoded| == 64
    ensures var key := DecodePublicKey(encoded, curve).value;
            && |ToBytes(key.x)| <= COORDINATE_SIZE && |ToBytes(key.y)| <= COORDINATE_SIZE
            && Padded(key.x) + Padded(key.y) == encoded
  {
    var xs, ys := encoded[..32], encoded[32..];
    PaddedInverse(xs);
    PaddedInverse(ys);
    assert xs + ys == encoded;
  }

  lemma PaddedInverse(b: Bytes)
    requires |b| == COORDINATE_SIZE
    ensures |ToBytes(FromBytes(b))| <= COORDINATE_SIZE && Padded(FromBytes(b)) == b
  {
    LeftPadInverse(b);
  }

  /** A byte string of any size is its value's bytes, left-padded with zeros. */
  lemma LeftPadInverse(b: Bytes)
    ensures var bytes := ToBytes(FromBytes(b)); |bytes| <= |b| && Zeros(|b| - |bytes|) + bytes == b
  {
    var bytes := ToBytes(FromBytes(b));
    FromUpper(b);
    ToBytesLength(FromBytes(b), |b|);
    FromPadded(|b| - |bytes|, bytes);
    FromToBytes(FromBytes(b));
    FromBytesInjective(Zeros(|b| - |bytes|) + bytes, b);
  }

  /** The signature SignVote writes: r.Bytes() followed by s.Bytes(), with no lengths. */
  function JoinSignature(r: nat, s: nat): Bytes {
    ToBytes(r) + ToBytes(s)
  }

  /** VerifyVote reads r and s back by cutting the signature in the middle. */
  function SplitSignature(signature: Bytes): (nat, nat) {
    (FromBytes(signature[..|signature| / 2]), FromBytes(signature[|signature| / 2..]))
  }

  function VerifyVote(blockHash: Bytes, signature: Bytes, key: PublicKey, curve: Curve): bool {
    if |signature| < 32 then false
    else
      var (r, s) := SplitSignature(signature);
      curve.verify(key, blockHash, r, s)
  }

  lemma {:induction false} LongerIsLarger(bytes: Bytes, tail: Bytes)
    requires FromBytes(bytes) > 0 && tail != []
    ensures FromBytes(bytes + tail) > FromBytes(bytes)
  {
    var front := tail[..|tail| - 1];
    assert (bytes + tail)[..|bytes + tail| - 1] == bytes + front;
    if front == [] {
      assert bytes + front == bytes;
    } else {
      LongerIsLarger(bytes, front);
    }
  }

  /** Cutting a longer or shorter prefix than r's own bytes reads a number that is not r. */
  lemma WrongCut(r: nat, s: nat, cut: nat)
    requires r > 0 && cut <= |JoinSignature(r, s)| && cut != |ToBytes(r)|
    ensures FromBytes(JoinSignature(r, s)[..cut]) != r
  {
    var bytes := ToBytes(r);
    FromToBytes(r);
    ToBytesLeading(r);
    if cut < |bytes| {
      assert JoinSignature(r, s)[..cut] == bytes[..cut];
      FromUpper(bytes[..cut]);
      FromLower(bytes);
      Pow256Monotone(cut, |bytes| - 1);
    } else {
      var tail := ToBytes(s)[..cut - |bytes|];
      assert JoinSignature(r, s)[..cut] == bytes + tail;
      LongerIsLarger(bytes, tail);
    }
  }

  /** The midpoint cut gives back (r, s) exactly when s has as many bytes as r or one more. */
  lemma SplitRecoversIff(r: nat, s: nat)
    requires r > 0 && s > 0
    ensures SplitSignature(JoinSignature(r, s)) == (r, s)
            <==> 0 <= |ToBytes(s)| - |ToBytes(r)| <= 1
  {
    var signature := JoinSignature(r, s);
    var cut := |signature| / 2;
    if cut == |ToBytes(r)| {
      assert signature[..cut] == ToBytes(r) && signature[cut..] == ToBytes(s);
      FromToBytes(r);
      FromToBytes(s);
    } else {
      WrongCut(r, s, cut);
    }
  }

  /** VerifyVote puts the vote to ecdsa.Verify with the pair it was signed with. */
  ghost predicate PutAsSigned(blockHash: Bytes, r: nat, s: nat, key: PublicKey, curve: Curve) {
    VerifyVote(blockHash, JoinSignature(r, s), key, curve) == curve.verify(key, blockHash, r, s)
  }

  /** So a vote signed with (r, s) is judged as signed, whatever the curve, exactly when its signature has at least
      32 bytes and the lengths fit. */
  lemma SignedVoteIsJudgedIff(blockHash: Bytes, r: nat, s: nat, key: PublicKey)
    requires r > 0 && s > 0
    ensures (forall curve :: PutAsSigned(blockHash, r, s, key, curve))
            <==> |JoinSignature(r, s)| >= 32 && 0 <= |ToBytes(s)| - |ToBytes(r)| <= 1
  {
    SplitRecoversIff(r, s);
    if !(|JoinSignature(r, s)| >= 32 && 0 <= |ToBytes(s)| - |ToBytes(r)| <= 1) {
      var curve := Curve(x => 0, (k, h, r', s') => r' == r && s' == s);
      assert !PutAsSigned(blockHash, r, s, key, curve);
    }
  }
}
