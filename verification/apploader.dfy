/**
  The apploader: a 32-byte header at 0x2440 followed by the apploader's
  code. The header gives the code's length and the length of a trailer
  after it; the reader and the writer both derive from them the number of
  payload bytes that follow the header.
 */
module Apploaders {
  import opened Bytes
  import opened Streams
  import opened Fields
  import opened Variants

  datatype AppHeader = AppHeader(
    date: seq<byte>,           // 16 bytes
    entrypoint: u32,
    length: u32,
    trailer: u32,
    padding: seq<byte>)        // 4 bytes

  datatype Apploader = Apploader(header: AppHeader, data: seq<byte>)

  /** A freshly constructed apploader: no payload (header fields uninitialised, modelled as zero). */
  const EmptyApploader: Apploader := Apploader(AppHeader(Zeros(16), 0, 0, 0, Zeros(4)), [])

  const AppHeaderSize: nat := 0x20

  const AppLayout: seq<Kind> := [Raw(16), Num(4), Num(4), Num(4), Raw(4)]

  lemma AppLayoutSpan()
    ensures Span(AppLayout) == AppHeaderSize
  {
    assert AppLayout == [Raw(16), Num(4), Num(4), Num(4), Raw(4)];
  }

  predicate AppHeaderOk(h: AppHeader)
  {
    |h.date| == 16 && |h.padding| == 4
  }

  function AppFields(h: AppHeader): seq<Field>
  {
    [Blob(h.date), Word(h.entrypoint), Word(h.length), Word(h.trailer), Blob(h.padding)]
  }

  function AppHeaderOf(fs: seq<Field>): AppHeader
    requires |fs| == |AppLayout|
  {
    AppHeader(BlobOf(fs[0]), WordOf(fs[1]), WordOf(fs[2]), WordOf(fs[3]), BlobOf(fs[4]))
  }

  /** A well-formed apploader header is exactly a list of fields that fits its layout. */
  lemma AppFieldsConform(h: AppHeader)
    ensures Conforms(AppFields(h), AppLayout) <==> AppHeaderOk(h)
    ensures AppHeaderOf(AppFields(h)) == h
  {
    var fs := AppFields(h);
    if AppHeaderOk(h) {
      forall k | 0 <= k < |AppLayout| ensures FieldFits(fs[k], AppLayout[k]) {
        FieldLimits();
      }
    }
    if Conforms(fs, AppLayout) {
      assert FieldFits(fs[0], AppLayout[0]) && FieldFits(fs[4], AppLayout[4]);
    }
  }

  /** Fields that fit the apploader layout are the fields of the header they make. */
  lemma AppHeaderOfConforms(fs: seq<Field>)
    requires Conforms(fs, AppLayout)
    ensures AppHeaderOk(AppHeaderOf(fs))
    ensures AppFields(AppHeaderOf(fs)) == fs
  {
    var h := AppHeaderOf(fs);
    FieldLimits();
    forall k | 0 <= k < |fs| ensures AppFields(h)[k] == fs[k] {
      assert FieldFits(fs[k], AppLayout[k]);
    }
  }

  // ---------------------------------------------------------------------
  // Payload size
  // ---------------------------------------------------------------------

  /**
    The payload size as the source computes it: `length + trailer - 1` in
    32-bit unsigned arithmetic, rounded DOWN to a multiple of 32, then
    stored in a 32-bit signed `int` (a value of 2^31 or more wraps negative).
   */
  function PayloadSizeAsWritten(h: AppHeader): (r: int)
    ensures -0x8000_0000 <= r < 0x8000_0000 && r % 32 == 0
  {
    var t := ((h.length + h.trailer) % 0x1_0000_0000 + 0xffff_ffff) % 0x1_0000_0000;
    var size := t / 32 * 32;
    if size < 0x8000_0000 then size else size - 0x1_0000_0000
  }

  /** The payload size with the evidently intended rounding: `length + trailer` rounded UP to 32. */
  function PayloadSizeCorrected(h: AppHeader): (r: nat)
    ensures h.length + h.trailer <= r < h.length + h.trailer + 32
    ensures r % 32 == 0
  {
    AlignUpAligned(h.length + h.trailer, 32);
    AlignUp(h.length + h.trailer, 32)
  }

  function PayloadSize(v: Variant, h: AppHeader): int
  {
    match v
    case AsWritten => PayloadSizeAsWritten(h)
    case Corrected => PayloadSizeCorrected(h)
  }

  /**
    As written, the size never covers the bytes the header declares: when
    `length + trailer` is between 1 and 2^31 the payload is always at
    least one byte short, and a declared size of 0 wraps to a negative size.
   */
  lemma AsWrittenSizeShort(h: AppHeader)
    ensures 0 < h.length + h.trailer <= 0x8000_0000 ==>
      0 <= PayloadSizeAsWritten(h) < h.length + h.trailer &&
      h.length + h.trailer - 32 <= PayloadSizeAsWritten(h)
    ensures h.length + h.trailer == 0 ==> PayloadSizeAsWritten(h) < 0
  {
  }

  // ---------------------------------------------------------------------
  // Reading and writing
  // ---------------------------------------------------------------------

  /**
    `apploader::read`: the header at the cursor, then as many payload bytes
    as the derived size. A negative size makes the allocation fail.
   */
  function ReadApploader(v: Variant, s: Stream): (r: Result<Got<Apploader>>)
    ensures !s.readable ==> r == Fail(NotReadable)
    ensures r.Ok? ==> var size := PayloadSize(v, r.value.value.header);
      AppHeaderOk(r.value.value.header) && 0 <= size && |r.value.value.data| == size &&
      r.value.rest == Seek(s, s.pos + AppHeaderSize + size)
  {
    if !s.readable then Fail(NotReadable)
    else
      AppLayoutSpan();
      var g :- ReadFields(s, AppLayout);
      AppHeaderOfConforms(g.value);
      var h := AppHeaderOf(g.value);
      var size := PayloadSize(v, h);
      if size < 0 then Fail(BadAllocation)
      else
        var d :- ReadBytes(g.rest, size);
        Ok(Got(Apploader(h, d.value), d.rest))
  }

  /**
    `apploader::write`: the header at the cursor, then the derived number of
    payload bytes. A payload shorter than that is padded with zeros (the
    source reads past its buffer); a negative size is refused.
   */
  function WriteApploader(v: Variant, a: Apploader, s: Stream): (r: Result<Stream>)
    requires AppHeaderOk(a.header)
    ensures !s.writable <==> r == Fail(NotWritable)
    ensures r.Ok? <==> s.writable && PayloadSize(v, a.header) >= 0
    ensures r.Ok? ==> r.value.pos == s.pos + AppHeaderSize + PayloadSize(v, a.header)
    ensures r.Ok? ==> SameFlags(s, r.value)
  {
    if !s.writable then Fail(NotWritable)
    else
      AppFieldsConform(a.header);
      AppLayoutSpan();
      var w := WriteFields(s, AppFields(a.header), AppLayout);
      WriteFieldsEffect(s, AppFields(a.header), AppLayout);
      var size := PayloadSize(v, a.header);
      if size < 0 then Fail(BadAllocation)
      else Ok(WriteBytes(w, Fit(a.data, size)))
  }

  /** The 32 bytes a well-formed apploader header is stored as. */
  function AppBytes(h: AppHeader): (b: seq<byte>)
    requires AppHeaderOk(h)
    ensures |b| == AppHeaderSize
  {
    AppFieldsConform(h);
    AppLayoutSpan();
    EncodeFields(AppFields(h), AppLayout)
  }

  /** The bytes read as payload are the ones right after the header. */
  lemma ReadApploaderData(v: Variant, s: Stream)
    requires ReadApploader(v, s).Ok?
    ensures var a := ReadApploader(v, s).value.value;
      a.data == s.bytes[s.pos + AppHeaderSize..s.pos + AppHeaderSize + |a.data|]
  {
    AppLayoutSpan();
  }

  /** An apploader whose header and payload lie at the cursor reads back as itself. */
  lemma ReadApploaderAt(v: Variant, s: Stream, a: Apploader)
    requires s.readable && AppHeaderOk(a.header) && |a.data| == PayloadSize(v, a.header)
    requires At(s.bytes, s.pos, AppBytes(a.header))
    requires At(s.bytes, s.pos + AppHeaderSize, a.data)
    ensures ReadApploader(v, s) == Ok(Got(a, Seek(s, s.pos + AppHeaderSize + |a.data|)))
  {
    AppFieldsConform(a.header);
    AppLayoutSpan();
    ReadFieldsAt(s, AppFields(a.header), AppLayout);
    ReadBytesAt(Seek(s, s.pos + AppHeaderSize), a.data);
  }

  /** What `WriteApploader` leaves behind: the header's bytes, then the payload fitted to the derived size. */
  lemma WriteApploaderEffect(v: Variant, a: Apploader, s: Stream, w: Stream)
    requires AppHeaderOk(a.header) && WriteApploader(v, a, s) == Ok(w)
    ensures At(w.bytes, s.pos, AppBytes(a.header))
    ensures At(w.bytes, s.pos + AppHeaderSize, Fit(a.data, PayloadSize(v, a.header)))
    ensures w.readable == s.readable && w.pos == s.pos + AppHeaderSize + PayloadSize(v, a.header)
  {
    var x := Fit(a.data, PayloadSize(v, a.header));
    AppFieldsConform(a.header);
    AppLayoutSpan();
    var h := WriteFields(s, AppFields(a.header), AppLayout);
    WriteFieldsEffect(s, AppFields(a.header), AppLayout);
    WriteBytesEffect(h, x);
    AtTransfer(h.bytes, w.bytes, s.pos, AppBytes(a.header), h.pos, h.pos + |x|);
  }

  /** The writer never touches the bytes before its starting cursor. */
  lemma WriteApploaderKeepsBelow(v: Variant, a: Apploader, s: Stream, w: Stream)
    requires AppHeaderOk(a.header) && WriteApploader(v, a, s) == Ok(w)
    ensures KeptBelow(s.bytes, w.bytes, s.pos)
  {
    AppFieldsConform(a.header);
    AppLayoutSpan();
    var h := WriteFields(s, AppFields(a.header), AppLayout);
    WriteFieldsEffect(s, AppFields(a.header), AppLayout);
    WriteKeepsBelow(h, Fit(a.data, PayloadSize(v, a.header)), s.pos);
  }

  /**
    Reading back an apploader just written gives its header and the payload
    as written: the payload itself when it has the derived size.
   */
  lemma ReadWriteApploader(v: Variant, a: Apploader, s: Stream, w: Stream)
    requires AppHeaderOk(a.header) && s.readable
    requires WriteApploader(v, a, s) == Ok(w)
    ensures ReadApploader(v, Seek(w, s.pos)) == Ok(Got(a.(data := Fit(a.data, PayloadSize(v, a.header))), w))
  {
    var a' := a.(data := Fit(a.data, PayloadSize(v, a.header)));
    var t := Seek(w, s.pos);
    WriteApploaderEffect(v, a, s, w);
    ReadApploaderAt(v, t, a');
    assert Seek(t, t.pos + AppHeaderSize + |a'.data|) == w;
  }

  /** `ReadApploader` spelled out for a stream whose header fields have been read. */
  lemma ReadApploaderIs(v: Variant, s: Stream, fs: seq<Field>, size: nat)
    requires s.readable && ReadFields(s, AppLayout) == Ok(Got(fs, Seek(s, s.pos + AppHeaderSize)))
    requires |fs| == |AppLayout| && size == PayloadSize(v, AppHeaderOf(fs))
    requires s.pos + AppHeaderSize + size <= |s.bytes|
    ensures ReadApploader(v, s) == Ok(Got(
      Apploader(AppHeaderOf(fs), s.bytes[s.pos + AppHeaderSize..s.pos + AppHeaderSize + size]),
      Seek(s, s.pos + AppHeaderSize + size)))
  {
    AppLayoutSpan();
  }

  /** Writing back the apploader just read changes nothing but the cursor. */
  lemma WriteReadApploader(v: Variant, s: Stream)
    requires s.writable && ReadApploader(v, s).Ok?
    ensures WriteApploader(v, ReadApploader(v, s).value.value, s) == Ok(ReadApploader(v, s).value.rest)
  {
    AppLayoutSpan();
    var fs := ReadFields(s, AppLayout).value.value;
    var a := ReadApploader(v, s).value.value;
    AppHeaderOfConforms(fs);
    ReadApploaderIs(v, s, fs, |a.data|);
    ReadFieldsEncode(s, AppLayout);
    assert At(s.bytes, s.pos, AppBytes(a.header));
    WriteBack(v, s, a);
  }

  /** Writing an apploader whose header and payload are already at the cursor only moves the cursor. */
  lemma WriteBack(v: Variant, s: Stream, a: Apploader)
    requires s.writable && AppHeaderOk(a.header)
    requires At(s.bytes, s.pos, AppBytes(a.header))
    requires |a.data| == PayloadSize(v, a.header)
    requires At(s.bytes, s.pos + AppHeaderSize, a.data)
    ensures WriteApploader(v, a, s) == Ok(Seek(s, s.pos + AppHeaderSize + |a.data|))
  {
    AppFieldsConform(a.header);
    AppLayoutSpan();
    WriteFieldsBytes(s, AppFields(a.header), AppLayout);
    assert Seek(s, s.pos) == s;
    WriteSameAt(s, s.pos, AppBytes(a.header));
    WriteSameAt(s, s.pos + AppHeaderSize, a.data);
    WriteApploaderIs(v, a, s);
  }

  /** `WriteApploader` spelled out for a writable stream and a size it accepts. */
  lemma WriteApploaderIs(v: Variant, a: Apploader, s: Stream)
    requires AppHeaderOk(a.header) && s.writable && PayloadSize(v, a.header) >= 0
    ensures WriteApploader(v, a, s) ==
      Ok(WriteBytes(WriteFields(s, AppFields(a.header), AppLayout), Fit(a.data, PayloadSize(v, a.header))))
  {
  }

  /**
    As written, an apploader declaring between 1 and 2^31 bytes is never
    read whole: the payload read is shorter than `length + trailer`.
   */
  lemma AsWrittenReadsShort(s: Stream)
    requires ReadApploader(AsWritten, s).Ok?
    ensures var h := ReadApploader(AsWritten, s).value.value.header;
      h.length + h.trailer <= 0x8000_0000 ==>
      |ReadApploader(AsWritten, s).value.value.data| < h.length + h.trailer
  {
    AsWrittenSizeShort(ReadApploader(AsWritten, s).value.value.header);
  }

  /** Corrected, the payload read always covers the `length + trailer` bytes the header declares. */
  lemma CorrectedReadsWhole(s: Stream)
    requires ReadApploader(Corrected, s).Ok?
    ensures var a := ReadApploader(Corrected, s).value.value;
      a.header.length + a.header.trailer <= |a.data| < a.header.length + a.header.trailer + 32
  {
  }
}
