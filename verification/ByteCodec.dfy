/** Big-endian byte strings (math/big Bytes and SetBytes), their order (bytes.Compare) and hex. */
module ByteCodec {
  import opened Prelude

  /** 256 to the power k. */
  ghost function Pow256(k: nat): (p: nat)
    ensures p >= 1
  {
    if k == 0 then 1 else 256 * Pow256(k - 1)
  }

  /** big.Int.SetBytes: the unsigned big-endian value of a byte string. */
  function FromBytes(b: Bytes): nat {
    if b == [] then 0 else FromBytes(b[..|b| - 1]) * 256 + b[|b| - 1]
  }

  /** big.Int.Bytes: the shortest big-endian byte string of a number. */
  function ToBytes(n: nat): Bytes {
    if n == 0 then [] else ToBytes(n / 256) + [n % 256]
  }

  function Zeros(k: nat): (z: Bytes)
    ensures |z| == k && forall i :: 0 <= i < k ==> z[i] == 0
  {
    seq(k, i => 0)
  }

  lemma {:induction false} FromToBytes(n: nat)
    ensures FromBytes(ToBytes(n)) == n
  {
    if n > 0 {
      FromToBytes(n / 256);
      var b := ToBytes(n);
      assert b[..|b| - 1] == ToBytes(n / 256);
    }
  }

  lemma {:induction false} FromConcat(a: Bytes, b: Bytes)
    ensures FromBytes(a + b) == FromBytes(a) * Pow256(|b|) + FromBytes(b)
  {
    if b == [] {
      assert a + b == a;
    } else {
      var front := b[..|b| - 1];
      assert (a + b)[..|a + b| - 1] == a + front;
      FromConcat(a, front);
      assert FromBytes(a + b) == FromBytes(a + front) * 256 + b[|b| - 1];
      Shift(FromBytes(a), Pow256(|front|), FromBytes(front), b[|b| - 1]);
    }
  }

  lemma Shift(a: int, power: int, rest: int, last: int)
    ensures (a * power + rest) * 256 + last == a * (256 * power) + (rest * 256 + last)
  {
  }

  lemma {:induction false} FromUpper(b: Bytes)
    ensures FromBytes(b) < Pow256(|b|)
  {
    if b != [] {
      FromUpper(b[..|b| - 1]);
    }
  }

  lemma {:induction false} FromLower(b: Bytes)
    requires b != [] && b[0] != 0
    ensures FromBytes(b) >= Pow256(|b| - 1)
  {
    if |b| > 1 {
      FromLower(b[..|b| - 1]);
    } else {
      assert b[..0] == [];
    }
  }

  lemma {:induction false} FromZeros(k: nat)
    ensures FromBytes(Zeros(k)) == 0
  {
    if k > 0 {
      assert Zeros(k)[..k - 1] == Zeros(k - 1);
      FromZeros(k - 1);
    }
  }

  lemma FromPadded(k: nat, b: Bytes)
    ensures FromBytes(Zeros(k) + b) == FromBytes(b)
  {
    FromConcat(Zeros(k), b);
    FromZeros(k);
  }

  lemma {:induction false} ToBytesLeading(n: nat)
    requires n > 0
    ensures ToBytes(n) != [] && ToBytes(n)[0] != 0
  {
    if n >= 256 {
      ToBytesLeading(n / 256);
    } else {
      assert ToBytes(n / 256) == [];
    }
  }

  /** Bytes() of a number fits in k bytes exactly when the number is below 256^k. */
  lemma ToBytesLength(n: nat, k: nat)
    ensures |ToBytes(n)| <= k <==> n < Pow256(k)
  {
    FromToBytes(n);
    FromUpper(ToBytes(n));
    if n > 0 {
      ToBytesLeading(n);
      FromLower(ToBytes(n));
      if |ToBytes(n)| <= k {
        Pow256Monotone(|ToBytes(n)|, k);
      } else {
        Pow256Monotone(k, |ToBytes(n)| - 1);
      }
    }
  }

  lemma {:induction false} Pow256Monotone(a: nat, b: nat)
    requires a <= b
    ensures Pow256(a) <= Pow256(b)
  {
    if a < b {
      Pow256Monotone(a, b - 1);
    }
  }

  /** bytes.Compare: lexicographic three-way comparison. */
  function Compare(a: Bytes, b: Bytes): int {
    if a == [] then (if b == [] then 0 else -1)
    else if b == [] then 1
    else if a[0] < b[0] then -1
    else if a[0] > b[0] then 1
    else Compare(a[1..], b[1..])
  }

  lemma {:induction false} CompareZero(a: Bytes, b: Bytes)
    ensures Compare(a, b) == 0 <==> a == b
  {
    if a != [] && b != [] && a[0] == b[0] {
      CompareZero(a[1..], b[1..]);
      assert a == [a[0]] + a[1..] && b == [b[0]] + b[1..];
    }
  }

  lemma {:induction false} CompareAntisymmetric(a: Bytes, b: Bytes)
    ensures Compare(a, b) == -Compare(b, a)
  {
    if a != [] && b != [] && a[0] == b[0] {
      CompareAntisymmetric(a[1..], b[1..]);
    }
  }

  lemma {:induction false} CompareTransitive(a: Bytes, b: Bytes, c: Bytes)
    requires Compare(a, b) < 0 && Compare(b, c) < 0
    ensures Compare(a, c) < 0
  {
    if a != [] && b != [] && c != [] && a[0] == b[0] == c[0] {
      CompareTransitive(a[1..], b[1..], c[1..]);
    }
  }

  function HexDigit(d: int): char
    requires 0 <= d < 16
  {
    if d < 10 then ('0' as int + d) as char else ('a' as int + d - 10) as char
  }

  /** The value of one hex character, either case; None for any other character. */
  function HexValue(c: char): (v: Option<int>)
    ensures v.Some? ==> 0 <= v.value < 16
  {
    if '0' <= c <= '9' then Some(c as int - '0' as int)
    else if 'a' <= c <= 'f' then Some(c as int - 'a' as int + 10)
    else if 'A' <= c <= 'F' then Some(c as int - 'A' as int + 10)
    else None
  }

  /** hex.EncodeToString */
  function HexEncode(b: Bytes): string {
    if b == [] then "" else [HexDigit(b[0] / 16), HexDigit(b[0] % 16)] + HexEncode(b[1..])
  }

  /** hex.DecodeString, its error dropped: the bytes decoded before the first malformed pair. */
  function HexDecode(s: string): Bytes {
    if |s| < 2 then []
    else
      var high, low := HexValue(s[0]), HexValue(s[1]);
      if high.None? || low.None? then []
      else [high.value * 16 + low.value] + HexDecode(s[2..])
  }

  lemma HexDigitValue(d: int)
    requires 0 <= d < 16
    ensures HexValue(HexDigit(d)) == Some(d)
  {
  }

  lemma {:induction false} HexRoundTrip(b: Bytes)
    ensures HexDecode(HexEncode(b)) == b
  {
    if b != [] {
      HexRoundTrip(b[1..]);
      var s := HexEncode(b);
      assert s[2..] == HexEncode(b[1..]);
      HexDigitValue(b[0] / 16);
      HexDigitValue(b[0] % 16);
    }
  }

  /** bytes.Compare is lexicographic: the first difference decides, and a proper prefix comes first. */
  lemma {:induction false} FirstDifferenceDecides(common: Bytes, x: Byte, y: Byte, a: Bytes, b: Bytes)
    ensures Compare(common + [x] + a, common + [y] + b) < 0 <== x < y
    ensures Compare(common, common + [y] + b) < 0
    decreases |common|
  {
    var s, t := common + [x] + a, common + [y] + b;
    if common != [] {
      FirstDifferenceDecides(common[1..], x, y, a, b);
      assert s[1..] == common[1..] + [x] + a && t[1..] == common[1..] + [y] + b;
    }
  }

  /** Two lower-case digits a byte, the high one first. */
  lemma HexOfByte(b: Byte)
    ensures |HexEncode([b])| == 2
    ensures b == 0xab ==> HexEncode([b]) == "ab"
    ensures b == 0x09 ==> HexEncode([b]) == "09"
  {
    assert [b][1..] == [];
  }

  /** A number's bytes have the most significant one first. */
  lemma MostSignificantFirst(high: Byte, low: Byte)
    ensures FromBytes([high, low]) == 256 * high + low
  {
    assert [high, low][..1] == [high] && [high][..0] == [];
    assert FromBytes([high]) == high;
  }
}
