/**
  The byte stream every codec reads from and writes to.

  The stream library the codec is built on is not part of this model; it is
  assumed to behave as a seekable byte file:
  - a stream is its contents plus a cursor, and it says whether it can be
    read, written and sought;
  - a read of n bytes succeeds only when n bytes remain after the cursor
    (a short read is reported as `Truncated`, a modelling choice);
  - a write overwrites the bytes at the cursor and grows the contents when
    it runs past the end, zero-filling any gap left by a seek past the end;
  - `writem(v, n)` writes the low n bytes of v most significant first and
    `readm(n)` reads n bytes as a big-endian unsigned number.
 */
module Streams {
  import opened Bytes

  /** The ways an operation of the model can fail. */
  datatype Error =
    | NotReadable
    | NotSeekable
    | NotWritable
    | Truncated         // a read ran past the end of the stream
    | UnterminatedName  // no NUL within the 256 bytes a file name may span
    | BadAllocation     // a buffer size that converts to a negative int

  datatype Option<+T> = None | Some(value: T)

  datatype Result<+T> = Ok(value: T) | Fail(error: Error) {
    predicate IsFailure() { Fail? }

    function PropagateFailure<U>(): Result<U>
      requires Fail?
    {
      Fail(error)
    }

    function Extract(): T
      requires Ok?
    {
      value
    }
  }

  datatype Stream = Stream(bytes: seq<byte>, pos: nat, readable: bool, writable: bool, seekable: bool)

  /** A value read from a stream together with the stream after the read. */
  datatype Got<+T> = Got(value: T, rest: Stream)

  function Seek(s: Stream, p: nat): Stream
  {
    s.(pos := p)
  }

  /** Seeking away and back to the cursor gives the stream itself. */
  lemma SeekBack(s: Stream, p: nat)
    ensures Seek(Seek(s, p), s.pos) == s
  {
  }

  /** Seeking to the cursor changes nothing. */
  lemma SeekHere(s: Stream)
    ensures Seek(s, s.pos) == s
  {
  }

  function ReadBytes(s: Stream, n: nat): (r: Result<Got<seq<byte>>>)
    ensures r.Ok? <==> s.pos + n <= |s.bytes|
    ensures r.Ok? ==> |r.value.value| == n && r.value.rest == Seek(s, s.pos + n)
  {
    if s.pos + n <= |s.bytes| then Ok(Got(s.bytes[s.pos..s.pos + n], Seek(s, s.pos + n)))
    else Fail(Truncated)
  }

  /** `readm(n)`: n bytes read as a big-endian unsigned number. */
  function ReadBE(s: Stream, n: nat): (r: Result<Got<nat>>)
    ensures r.Ok? <==> s.pos + n <= |s.bytes|
    ensures r.Ok? ==> r.value.value < Pow256(n) && r.value.rest == Seek(s, s.pos + n)
  {
    var g :- ReadBytes(s, n);
    Ok(Got(DecodeBE(g.value), g.rest))
  }

  /** The contents after writing `x` at `at`: a gap past the end reads as zeros. */
  function Overwrite(b: seq<byte>, at: nat, x: seq<byte>): (r: seq<byte>)
    ensures |r| == Max(|b|, at + |x|)
    ensures forall i :: 0 <= i < |r| ==>
      r[i] == (if at <= i < at + |x| then x[i - at] else if i < |b| then b[i] else 0)
  {
    seq(Max(|b|, at + |x|), i requires 0 <= i < Max(|b|, at + |x|) =>
      if at <= i < at + |x| then x[i - at] else if i < |b| then b[i] else 0)
  }

  function WriteBytes(s: Stream, x: seq<byte>): Stream
  {
    s.(bytes := Overwrite(s.bytes, s.pos, x), pos := s.pos + |x|)
  }

  /** `writem(v, n)`: the low n bytes of v, most significant first. */
  function WriteBE(s: Stream, v: int, n: nat): Stream
  {
    WriteBytes(s, EncodeBE(v, n))
  }

  /** `r` can be read, written and sought exactly when `s` can. */
  predicate SameFlags(s: Stream, r: Stream)
  {
    r.readable == s.readable && r.writable == s.writable && r.seekable == s.seekable
  }

  /** The bytes of `b` starting at `at` are exactly `x`. */
  predicate At(b: seq<byte>, at: nat, x: seq<byte>)
  {
    at + |x| <= |b| && b[at..at + |x|] == x
  }

  /** `b` and `b'` agree everywhere below |b| except on [lo, hi). */
  predicate SameOutside(b: seq<byte>, b': seq<byte>, lo: int, hi: int)
  {
    |b| <= |b'| && forall q :: 0 <= q < |b| && !(lo <= q < hi) ==> b'[q] == b[q]
  }

  lemma AtSlice(b: seq<byte>, at: nat, x: seq<byte>)
    requires At(b, at, x)
    ensures b[at..at + |x|] == x
  {
  }

  /** A write leaves its bytes at the cursor and changes nothing else. */
  lemma WriteBytesEffect(s: Stream, x: seq<byte>)
    ensures At(WriteBytes(s, x).bytes, s.pos, x)
    ensures SameOutside(s.bytes, WriteBytes(s, x).bytes, s.pos, s.pos + |x|)
  {
  }

  /** Reading back bytes that are known to be at the cursor. */
  lemma ReadBytesAt(s: Stream, x: seq<byte>)
    requires At(s.bytes, s.pos, x)
    ensures ReadBytes(s, |x|) == Ok(Got(x, Seek(s, s.pos + |x|)))
  {
    AtSlice(s.bytes, s.pos, x);
  }

  /** Reading back a number whose encoding is known to be at the cursor. */
  lemma ReadBEAt(s: Stream, e: seq<byte>)
    requires At(s.bytes, s.pos, e)
    ensures ReadBE(s, |e|) == Ok(Got(DecodeBE(e), Seek(s, s.pos + |e|)))
  {
    ReadBytesAt(s, e);
  }

  /** Reading back a value that fits the width it was written with. */
  lemma ReadBEValueAt(s: Stream, v: int, n: nat)
    requires 0 <= v < Pow256(n)
    requires At(s.bytes, s.pos, EncodeBE(v, n))
    ensures ReadBE(s, n) == Ok(Got(v, Seek(s, s.pos + n)))
  {
    ReadBEAt(s, EncodeBE(v, n));
    DecodeEncodeFits(v, n);
  }

  /** Writing back the bytes already at the cursor only moves the cursor. */
  lemma WriteSame(s: Stream, n: nat)
    requires s.pos + n <= |s.bytes|
    ensures WriteBytes(s, s.bytes[s.pos..s.pos + n]) == Seek(s, s.pos + n)
  {
    var b := WriteBytes(s, s.bytes[s.pos..s.pos + n]).bytes;
    assert |b| == |s.bytes|;
    forall i | 0 <= i < |b| ensures b[i] == s.bytes[i] {
    }
  }

  /** Writing, at `p`, bytes that are already there only moves the cursor past them. */
  lemma WriteSameAt(s: Stream, p: nat, x: seq<byte>)
    requires At(s.bytes, p, x)
    ensures WriteBytes(Seek(s, p), x) == Seek(s, p + |x|)
  {
    WriteSame(Seek(s, p), |x|);
  }

  /** Two consecutive writes are one write of the concatenation. */
  lemma WriteConcat(s: Stream, x: seq<byte>, y: seq<byte>)
    ensures WriteBytes(WriteBytes(s, x), y) == WriteBytes(s, x + y)
  {
    var a := WriteBytes(WriteBytes(s, x), y).bytes;
    var b := WriteBytes(s, x + y).bytes;
    assert |a| == |b|;
    forall i | 0 <= i < |a| ensures a[i] == b[i] {
    }
  }

  lemma AtConcat(b: seq<byte>, at: nat, x: seq<byte>, y: seq<byte>)
    ensures At(b, at, x + y) <==> At(b, at, x) && At(b, at + |x|, y)
  {
    if At(b, at, x) && At(b, at + |x|, y) {
      forall k | 0 <= k < |x + y| ensures b[at + k] == (x + y)[k] {
        if k >= |x| {
          assert b[(at + |x|) + (k - |x|)] == y[k - |x|];
        }
      }
    }
    if At(b, at, x + y) {
      forall k | 0 <= k < |x| ensures b[at + k] == x[k] {
        assert b[at + k] == (x + y)[k];
      }
      forall k | 0 <= k < |y| ensures b[at + |x| + k] == y[k] {
        assert b[at + (|x| + k)] == (x + y)[|x| + k];
      }
    }
  }

  /** `At` only looks at the bytes it names. */
  lemma AtTransfer(b: seq<byte>, b': seq<byte>, at: nat, x: seq<byte>, lo: int, hi: int)
    requires At(b, at, x)
    requires SameOutside(b, b', lo, hi)
    requires at + |x| <= lo || hi <= at
    ensures At(b', at, x)
  {
    forall k | 0 <= k < |x| ensures b'[at + k] == x[k] {
      assert b[at + k] == x[k];
    }
  }

  /** Every byte of `b` below `lo` is unchanged in `b'`, and nothing is lost. */
  predicate KeptBelow(b: seq<byte>, b': seq<byte>, lo: nat)
  {
    |b| <= |b'| && forall q :: 0 <= q < lo && q < |b| ==> b'[q] == b[q]
  }

  lemma AtKeptBelow(b: seq<byte>, b': seq<byte>, lo: nat, at: nat, x: seq<byte>)
    requires KeptBelow(b, b', lo) && At(b, at, x) && at + |x| <= lo
    ensures At(b', at, x)
  {
    forall k | 0 <= k < |x| ensures b'[at + k] == x[k] {
      assert b[at..at + |x|][k] == x[k];
    }
  }

  lemma WriteKeepsBelow(s: Stream, x: seq<byte>, lo: nat)
    requires lo <= s.pos
    ensures KeptBelow(s.bytes, WriteBytes(s, x).bytes, lo)
  {
    WriteBytesEffect(s, x);
  }
}
