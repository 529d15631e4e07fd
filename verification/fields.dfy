/**
  Fixed layouts of fields. The disc's boot header, its debug-info block and
  the apploader header are each read and written as a fixed sequence of
  fields, every field either a byte array copied verbatim or a big-endian
  number written with `writem` and read with `readm`.

  The source reads such a header one field at a time; since every read
  advances the cursor by exactly the field's width, that is the same as
  reading the header's bytes in one go and splitting them in field order,
  which is how `ReadFields` is written.
 */
module Fields {
  import opened Bytes
  import opened Streams

  /** How a field is stored: `n` bytes copied verbatim, or an `n`-byte big-endian number. */
  datatype Kind = Raw(n: nat) | Num(n: nat)

  /** The value of a field: the bytes of a raw field, the number of a numeric one. */
  datatype Field = Blob(bytes: seq<byte>) | Word(value: nat)

  /** The bytes of a raw field (empty for a numeric one). */
  function BlobOf(f: Field): seq<byte>
  {
    if f.Blob? then f.bytes else []
  }

  /** The value of a 4-byte numeric field (0 when out of range). */
  function WordOf(f: Field): u32
  {
    if f.Word? && f.value < U32Limit then f.value else 0
  }

  /** The number of bytes a layout occupies. */
  function Span(ks: seq<Kind>): nat
  {
    if |ks| == 0 then 0 else ks[0].n + Span(ks[1..])
  }

  lemma {:induction false} SpanAppend(ks: seq<Kind>, ks': seq<Kind>)
    ensures Span(ks + ks') == Span(ks) + Span(ks')
    decreases |ks|
  {
    if |ks| > 0 {
      assert (ks + ks')[1..] == ks[1..] + ks';
      SpanAppend(ks[1..], ks');
    } else {
      assert ks + ks' == ks';
    }
  }

  /** A value that the field can hold: an array of the right length, a number in range. */
  predicate FieldFits(f: Field, k: Kind)
  {
    match k
    case Raw(n) => f.Blob? && |f.bytes| == n
    case Num(n) => f.Word? && f.value < Pow256(n)
  }

  /** Every field fits its kind, in order. */
  predicate Conforms(fs: seq<Field>, ks: seq<Kind>)
  {
    |fs| == |ks| && forall i :: 0 <= i < |fs| ==> FieldFits(fs[i], ks[i])
  }

  lemma ConformsCons(f: Field, fs: seq<Field>, ks: seq<Kind>)
    requires |ks| > 0
    ensures Conforms([f] + fs, ks) <==> FieldFits(f, ks[0]) && Conforms(fs, ks[1..])
  {
    if FieldFits(f, ks[0]) && Conforms(fs, ks[1..]) {
      forall i | 0 < i < |[f] + fs| ensures FieldFits(([f] + fs)[i], ks[i]) {
        assert ([f] + fs)[i] == fs[i - 1] && ks[i] == ks[1..][i - 1];
      }
    }
    if Conforms([f] + fs, ks) {
      forall i | 0 <= i < |fs| ensures FieldFits(fs[i], ks[1..][i]) {
        assert ([f] + fs)[i + 1] == fs[i];
      }
    }
  }

  /** One field from the bytes it is stored as. */
  function DecodeField(x: seq<byte>, k: Kind): (f: Field)
    requires |x| == k.n
    ensures FieldFits(f, k)
  {
    match k
    case Raw(n) => Blob(x)
    case Num(n) => Word(DecodeBE(x))
  }

  /** The fields of a layout from the bytes the layout occupies, split in order. */
  function DecodeFields(b: seq<byte>, ks: seq<Kind>): (fs: seq<Field>)
    requires |b| == Span(ks)
    ensures Conforms(fs, ks)
    decreases |ks|
  {
    if |ks| == 0 then []
    else
      var n := ks[0].n;
      var f := DecodeField(b[..n], ks[0]);
      var rest := DecodeFields(b[n..], ks[1..]);
      ConformsCons(f, rest, ks);
      [f] + rest
  }

  /** The fields of a layout, read in order from the cursor. */
  function ReadFields(s: Stream, ks: seq<Kind>): (r: Result<Got<seq<Field>>>)
    ensures r.Ok? <==> s.pos + Span(ks) <= |s.bytes|
    ensures r.Ok? ==> r.value.rest == Seek(s, s.pos + Span(ks))
  {
    var g :- ReadBytes(s, Span(ks));
    Ok(Got(DecodeFields(g.value, ks), g.rest))
  }

  /** The bytes a field is stored as. */
  function FieldBytes(f: Field, k: Kind): (b: seq<byte>)
    requires FieldFits(f, k)
    ensures |b| == k.n
  {
    match k
    case Raw(n) => f.bytes
    case Num(n) => EncodeBE(f.value, n)
  }

  function EncodeFields(fs: seq<Field>, ks: seq<Kind>): (b: seq<byte>)
    requires Conforms(fs, ks)
    ensures |b| == Span(ks)
    decreases |ks|
  {
    if |ks| == 0 then []
    else
      ConformsCons(fs[0], fs[1..], ks);
      assert [fs[0]] + fs[1..] == fs;
      FieldBytes(fs[0], ks[0]) + EncodeFields(fs[1..], ks[1..])
  }

  function WriteField(s: Stream, f: Field, k: Kind): Stream
    requires FieldFits(f, k)
  {
    match k
    case Raw(n) => WriteBytes(s, f.bytes)
    case Num(n) => WriteBE(s, f.value, n)
  }

  /** The fields of a layout, written in order from the cursor. */
  function WriteFields(s: Stream, fs: seq<Field>, ks: seq<Kind>): Stream
    requires Conforms(fs, ks)
    decreases |ks|
  {
    if |ks| == 0 then s
    else
      ConformsCons(fs[0], fs[1..], ks);
      assert [fs[0]] + fs[1..] == fs;
      WriteFields(WriteField(s, fs[0], ks[0]), fs[1..], ks[1..])
  }

  /** Writing the fields one after another is one write of their encoding. */
  lemma {:induction false} WriteFieldsBytes(s: Stream, fs: seq<Field>, ks: seq<Kind>)
    requires Conforms(fs, ks) && |ks| > 0
    ensures WriteFields(s, fs, ks) == WriteBytes(s, EncodeFields(fs, ks))
    decreases |ks|
  {
    ConformsCons(fs[0], fs[1..], ks);
    assert [fs[0]] + fs[1..] == fs;
    var x := FieldBytes(fs[0], ks[0]);
    assert WriteField(s, fs[0], ks[0]) == WriteBytes(s, x);
    if |ks| == 1 {
      assert EncodeFields(fs, ks) == x + [];
    } else {
      WriteFieldsBytes(WriteBytes(s, x), fs[1..], ks[1..]);
      WriteConcat(s, x, EncodeFields(fs[1..], ks[1..]));
    }
  }

  /** Decoding the encoding of fields that fit their layout gives the fields back. */
  lemma {:induction false} DecodeEncodeFields(fs: seq<Field>, ks: seq<Kind>)
    requires Conforms(fs, ks)
    ensures DecodeFields(EncodeFields(fs, ks), ks) == fs
    decreases |ks|
  {
    if |ks| > 0 {
      ConformsCons(fs[0], fs[1..], ks);
      assert [fs[0]] + fs[1..] == fs;
      var x, y := FieldBytes(fs[0], ks[0]), EncodeFields(fs[1..], ks[1..]);
      assert (x + y)[..|x|] == x && (x + y)[|x|..] == y;
      DecodeFieldBytes(fs[0], ks[0]);
      DecodeEncodeFields(fs[1..], ks[1..]);
    }
  }

  lemma DecodeFieldBytes(f: Field, k: Kind)
    requires FieldFits(f, k)
    ensures DecodeField(FieldBytes(f, k), k) == f
  {
    if k.Num? {
      DecodeEncodeFits(f.value, k.n);
    }
  }

  /** Every block of bytes is the encoding of the fields it decodes to. */
  lemma {:induction false} EncodeDecodeFields(b: seq<byte>, ks: seq<Kind>)
    requires |b| == Span(ks)
    ensures EncodeFields(DecodeFields(b, ks), ks) == b
    decreases |ks|
  {
    if |ks| > 0 {
      var n := ks[0].n;
      var f, rest := DecodeField(b[..n], ks[0]), DecodeFields(b[n..], ks[1..]);
      ConformsCons(f, rest, ks);
      assert ([f] + rest)[0] == f && ([f] + rest)[1..] == rest;
      FieldBytesDecode(b[..n], ks[0]);
      EncodeDecodeFields(b[n..], ks[1..]);
      assert b == b[..n] + b[n..];
    }
  }

  lemma FieldBytesDecode(x: seq<byte>, k: Kind)
    requires |x| == k.n
    ensures FieldBytes(DecodeField(x, k), k) == x
  {
    if k.Num? {
      EncodeDecode(x);
    }
  }

  /** Fields whose encoding lies at the cursor read back as themselves. */
  lemma ReadFieldsAt(s: Stream, fs: seq<Field>, ks: seq<Kind>)
    requires Conforms(fs, ks)
    requires At(s.bytes, s.pos, EncodeFields(fs, ks))
    ensures ReadFields(s, ks) == Ok(Got(fs, Seek(s, s.pos + Span(ks))))
  {
    ReadBytesAt(s, EncodeFields(fs, ks));
    DecodeEncodeFields(fs, ks);
  }

  /** Fields read from a stream encode back to exactly the bytes they were read from. */
  lemma ReadFieldsEncode(s: Stream, ks: seq<Kind>)
    requires ReadFields(s, ks).Ok?
    ensures EncodeFields(ReadFields(s, ks).value.value, ks) == s.bytes[s.pos..s.pos + Span(ks)]
  {
    EncodeDecodeFields(s.bytes[s.pos..s.pos + Span(ks)], ks);
  }
  /** The fields of a layout that fit it leave their encoding at the cursor and nothing else changes. */
  lemma WriteFieldsEffect(s: Stream, fs: seq<Field>, ks: seq<Kind>)
    requires Conforms(fs, ks) && |ks| > 0
    ensures At(WriteFields(s, fs, ks).bytes, s.pos, EncodeFields(fs, ks))
    ensures SameOutside(s.bytes, WriteFields(s, fs, ks).bytes, s.pos, s.pos + Span(ks))
    ensures WriteFields(s, fs, ks).pos == s.pos + Span(ks)
    ensures SameFlags(s, WriteFields(s, fs, ks))
  {
    WriteFieldsBytes(s, fs, ks);
    WriteBytesEffect(s, EncodeFields(fs, ks));
  }

  /** Fields written at the cursor read back as themselves. */
  lemma ReadWriteFields(s: Stream, fs: seq<Field>, ks: seq<Kind>)
    requires Conforms(fs, ks) && |ks| > 0
    ensures ReadFields(Seek(WriteFields(s, fs, ks), s.pos), ks)
      == Ok(Got(fs, WriteFields(s, fs, ks)))
  {
    var w := WriteFields(s, fs, ks);
    WriteFieldsEffect(s, fs, ks);
    ReadFieldsAt(Seek(w, s.pos), fs, ks);
  }

  /** Writing back the fields just read changes nothing but the cursor. */
  lemma WriteReadFields(s: Stream, ks: seq<Kind>)
    requires ReadFields(s, ks).Ok? && |ks| > 0
    ensures WriteFields(s, ReadFields(s, ks).value.value, ks) == Seek(s, s.pos + Span(ks))
  {
    var fs := ReadFields(s, ks).value.value;
    WriteFieldsBytes(s, fs, ks);
    ReadFieldsEncode(s, ks);
  }
}
