/**
  Bytes, fixed-width unsigned words and the big-endian field encoding that
  every structure of a GameCube disc image uses.

  `EncodeBE(v, n)` is the model of the stream's `writem(v, n)`: the low `n`
  bytes of `v`, most significant first. For a negative `v` Dafny's Euclidean
  `/` and `%` give exactly the two's-complement truncation that a C++
  unsigned conversion performs.
 */
module Bytes {

  type byte = b: int | 0 <= b < 0x100
  type u32 = n: int | 0 <= n < 0x1_0000_0000

  const U32Limit: nat := 0x1_0000_0000

  /** 256 to the power n: the number of values an n-byte field can hold. */
  function Pow256(n: nat): (r: nat)
    ensures r > 0
  {
    if n == 0 then 1 else 256 * Pow256(n - 1)
  }

  /** The ranges of the 1-, 3- and 4-byte fields the codecs use. */
  lemma FieldLimits()
    ensures Pow256(1) == 0x100 && Pow256(2) == 0x1_0000 && Pow256(3) == 0x100_0000 && Pow256(4) == U32Limit
  {
  }

  /** A run of n zero bytes. */
  function Zeros(n: nat): (r: seq<byte>)
    ensures |r| == n
    ensures forall i :: 0 <= i < n ==> r[i] == 0
  {
    seq(n, _ => 0)
  }

  /** The low `width` bytes of `v`, most significant byte first. */
  function EncodeBE(v: int, width: nat): (r: seq<byte>)
    ensures |r| == width
    decreases width
  {
    if width == 0 then [] else EncodeBE(v / 256, width - 1) + [v % 256]
  }

  /** The unsigned value of a big-endian byte string. */
  function DecodeBE(s: seq<byte>): (v: nat)
    ensures v < Pow256(|s|)
  {
    if |s| == 0 then 0
    else
      var hi := DecodeBE(s[..|s| - 1]);
      assert hi <= Pow256(|s| - 1) - 1;
      assert hi * 256 <= Pow256(|s| - 1) * 256 - 256;
      hi * 256 + s[|s| - 1]
  }

  /** Euclidean remainders are unique. */
  lemma ModUnique(v: int, m: int, a: int, c: int)
    requires m > 0 && 0 <= c < m && v == m * a + c
    ensures v % m == c && v / m == a
  {
    var q, r := v / m, v % m;
    assert v == m * q + r;
    if q > a {
      assert m * q >= m * (a + 1) by { MulMonotone(m, a + 1, q); }
      assert false;
    } else if q < a {
      assert m * a >= m * (q + 1) by { MulMonotone(m, q + 1, a); }
      assert false;
    }
  }

  lemma MulMonotone(m: int, x: int, y: int)
    requires m > 0 && x <= y
    ensures m * x <= m * y
  {
  }

  /** Decoding an encoded field gives back the value truncated to the field width. */
  lemma {:induction false} DecodeEncode(v: int, width: nat)
    ensures DecodeBE(EncodeBE(v, width)) == v % Pow256(width)
    decreases width
  {
    if width > 0 {
      var p := Pow256(width - 1);
      var hi := EncodeBE(v / 256, width - 1);
      var d := DecodeBE(hi);
      assert DecodeBE(EncodeBE(v, width)) == d * 256 + v % 256 by {
        assert EncodeBE(v, width) == hi + [v % 256];
        DecodeSnoc(hi, v % 256);
      }
      assert d == (v / 256) % p by { DecodeEncode(v / 256, width - 1); }
      assert d * 256 + v % 256 == v % Pow256(width) by { ShiftMod(v, p); }
    }
  }

  /** Appending a byte shifts the value up by one byte. */
  lemma DecodeSnoc(a: seq<byte>, x: byte)
    ensures DecodeBE(a + [x]) == DecodeBE(a) * 256 + x
  {
    assert (a + [x])[..|a|] == a;
  }

  /** One step of the encoding: dropping the low byte and re-attaching it. */
  lemma ShiftMod(v: int, p: nat)
    requires p > 0
    ensures ((v / 256) % p) * 256 + v % 256 == v % (256 * p)
  {
    var q, r := v / 256, v % 256;
    var a, b := q / p, q % p;
    assert q == p * a + b;
    assert v == 256 * q + r;
    assert v == (256 * p) * a + (256 * b + r) by {
      assert 256 * q == 256 * (p * a) + 256 * b;
      assert 256 * (p * a) == (256 * p) * a;
    }
    assert 256 * b + r < 256 * p by { MulMonotone(256, b, p - 1); }
    ModUnique(v, 256 * p, a, 256 * b + r);
  }

  /** A value that fits its field survives encoding unchanged. */
  lemma DecodeEncodeFits(v: int, width: nat)
    requires 0 <= v < Pow256(width)
    ensures DecodeBE(EncodeBE(v, width)) == v
  {
    DecodeEncode(v, width);
  }

  /** Every byte string is the encoding of its own value. */
  lemma {:induction false} EncodeDecode(s: seq<byte>)
    ensures EncodeBE(DecodeBE(s), |s|) == s
  {
    if |s| > 0 {
      var init, last := s[..|s| - 1], s[|s| - 1];
      assert DecodeBE(s) == DecodeBE(init) * 256 + last;
      EncodeSnoc(DecodeBE(init), last, |init|);
      EncodeDecode(init);
      assert s == init + [last];
    }
  }

  /** Encoding a value with one more low byte appends that byte. */
  lemma EncodeSnoc(hi: int, last: byte, width: nat)
    ensures EncodeBE(hi * 256 + last, width + 1) == EncodeBE(hi, width) + [last]
  {
    ModUnique(hi * 256 + last, 256, hi, last);
  }

  /** The smallest multiple of `a` at or above `x`. */
  function AlignUp(x: nat, a: nat): (r: nat)
    requires a > 0
    ensures x <= r < x + a
  {
    (x + a - 1) / a * a
  }

  /** The rounded value is a multiple of the alignment. */
  lemma AlignUpAligned(x: nat, a: nat)
    requires a > 0
    ensures AlignUp(x, a) % a == 0
  {
    var q := (x + a - 1) / a;
    ModUnique(q * a, a, q, 0);
  }

  function Max(a: int, b: int): int
  {
    if a >= b then a else b
  }

  /**
    `n` bytes taken from a buffer that is meant to hold exactly `n`: the
    first `n` bytes of `x`, zero-padded when `x` is shorter.
   */
  function Fit(x: seq<byte>, n: nat): (r: seq<byte>)
    ensures |r| == n
    ensures |x| == n ==> r == x
  {
    if |x| >= n then x[..n] else x + Zeros(n - |x|)
  }
}
