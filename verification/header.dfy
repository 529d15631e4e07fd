/**
  The two headers at the start of a disc image: the boot header (0x440
  bytes at offset 0) and the bi2 header that follows it (0x2000 bytes at
  0x440). Both are fixed layouts of raw byte arrays and big-endian numbers,
  read and written field by field in declaration order; the reserved and
  unknown fields are kept so that a header survives a round trip unchanged.
 */
module Headers {
  import opened Bytes
  import opened Streams
  import opened Fields

  // ---------------------------------------------------------------------
  // Boot header
  // ---------------------------------------------------------------------

  datatype BootHeader = BootHeader(
    gameCode: seq<byte>,       // 4 bytes
    developerId: seq<byte>,    // 2 bytes
    diskId: byte,
    version: byte,
    audioStrm: byte,
    strmBufferLen: byte,
    reserved1: seq<byte>,      // 0x12 bytes
    magicWord: seq<byte>,      // 4 bytes
    gameName: seq<byte>,       // 0x3e0 bytes
    dbgMonOffset: u32,
    dbgMonBaseAddr: u32,
    reserved2: seq<byte>,      // 0x18 bytes
    dolOffset: u32,            // where the boot program lies
    fstOffset: u32,            // where the file system table lies
    fstSize: u32,
    fstSizeMax: u32,
    unknown1: u32,
    unknown2: u32,
    unknown3: u32,
    reserved3: u32)

  const BootHeaderSize: nat := 0x440

  /** The boot header's fields in the order they are stored. */
  const BootLayout: seq<Kind> := [
    Raw(4), Raw(2), Num(1), Num(1), Num(1), Num(1), Raw(0x12), Raw(4), Raw(0x3e0),
    Num(4), Num(4), Raw(0x18), Num(4), Num(4), Num(4), Num(4), Num(4), Num(4), Num(4), Num(4)]

  lemma BootLayoutSpan()
    ensures Span(BootLayout) == BootHeaderSize
  {
    var ids, names, monitor, offsets := BootLayout[..6], BootLayout[6..9], BootLayout[9..12], BootLayout[12..];
    assert BootLayout == ids + (names + (monitor + offsets));
    assert ids == [Raw(4), Raw(2), Num(1), Num(1), Num(1), Num(1)];
    assert names == [Raw(0x12), Raw(4), Raw(0x3e0)];
    assert monitor == [Num(4), Num(4), Raw(0x18)];
    assert offsets == [Num(4), Num(4), Num(4), Num(4), Num(4), Num(4), Num(4), Num(4)];
    BootGroupSpans();
    SpanAppend(monitor, offsets);
    SpanAppend(names, monitor + offsets);
    SpanAppend(ids, names + (monitor + offsets));
  }

  lemma BootGroupSpans()
    ensures Span([Raw(4), Raw(2), Num(1), Num(1), Num(1), Num(1)]) == 10
    ensures Span([Raw(0x12), Raw(4), Raw(0x3e0)]) == 0x3f6
    ensures Span([Num(4), Num(4), Raw(0x18)]) == 0x20
    ensures Span([Num(4), Num(4), Num(4), Num(4), Num(4), Num(4), Num(4), Num(4)]) == 0x20
  {
  }

  /** The byte arrays of a header have the lengths the disc format gives them. */
  predicate BootHeaderOk(h: BootHeader)
  {
    |h.gameCode| == 4 && |h.developerId| == 2 && |h.reserved1| == 0x12 && |h.magicWord| == 4 &&
    |h.gameName| == 0x3e0 && |h.reserved2| == 0x18
  }

  function BootFields(h: BootHeader): seq<Field>
  {
    [Blob(h.gameCode), Blob(h.developerId), Word(h.diskId), Word(h.version), Word(h.audioStrm),
     Word(h.strmBufferLen), Blob(h.reserved1), Blob(h.magicWord), Blob(h.gameName),
     Word(h.dbgMonOffset), Word(h.dbgMonBaseAddr), Blob(h.reserved2), Word(h.dolOffset),
     Word(h.fstOffset), Word(h.fstSize), Word(h.fstSizeMax), Word(h.unknown1), Word(h.unknown2),
     Word(h.unknown3), Word(h.reserved3)]
  }

  /** The value of a 1-byte numeric field (0 when out of range). */
  function ByteOf(f: Field): byte
  {
    if f.Word? && f.value < 0x100 then f.value else 0
  }

  function BootHeaderOf(fs: seq<Field>): BootHeader
    requires |fs| == |BootLayout|
  {
    BootHeader(BlobOf(fs[0]), BlobOf(fs[1]), ByteOf(fs[2]), ByteOf(fs[3]), ByteOf(fs[4]),
      ByteOf(fs[5]), BlobOf(fs[6]), BlobOf(fs[7]), BlobOf(fs[8]), WordOf(fs[9]), WordOf(fs[10]),
      BlobOf(fs[11]), WordOf(fs[12]), WordOf(fs[13]), WordOf(fs[14]), WordOf(fs[15]),
      WordOf(fs[16]), WordOf(fs[17]), WordOf(fs[18]), WordOf(fs[19]))
  }

  /** A well-formed header is exactly a list of fields that fits the boot layout. */
  lemma BootFieldsConform(h: BootHeader)
    ensures Conforms(BootFields(h), BootLayout) <==> BootHeaderOk(h)
  {
    var fs := BootFields(h);
    if BootHeaderOk(h) {
      forall i | 0 <= i < |BootLayout| ensures FieldFits(fs[i], BootLayout[i]) {
        FieldLimits();
      }
    }
    if Conforms(fs, BootLayout) {
      assert FieldFits(fs[0], BootLayout[0]) && FieldFits(fs[1], BootLayout[1]);
      assert FieldFits(fs[6], BootLayout[6]) && FieldFits(fs[7], BootLayout[7]);
      assert FieldFits(fs[8], BootLayout[8]) && FieldFits(fs[11], BootLayout[11]);
    }
  }

  /** Taking a header apart into fields and back gives the same header. */
  lemma BootHeaderOfFields(h: BootHeader)
    ensures BootHeaderOf(BootFields(h)) == h
  {
  }

  /** Fields that fit the boot layout are the fields of the header they make. */
  lemma BootHeaderOfConforms(fs: seq<Field>)
    requires Conforms(fs, BootLayout)
    ensures BootHeaderOk(BootHeaderOf(fs))
    ensures BootFields(BootHeaderOf(fs)) == fs
  {
    var h := BootHeaderOf(fs);
    FieldLimits();
    forall i | 0 <= i < |fs| ensures BootFields(h)[i] == fs[i] {
      assert FieldFits(fs[i], BootLayout[i]);
    }
  }

  /** The 0x440 bytes a well-formed boot header is stored as. */
  function BootBytes(h: BootHeader): (b: seq<byte>)
    requires BootHeaderOk(h)
    ensures |b| == BootHeaderSize
  {
    BootFieldsConform(h);
    BootLayoutSpan();
    EncodeFields(BootFields(h), BootLayout)
  }

  /** `readBootHeader`: the boot header at the cursor. */
  function ReadBootHeader(s: Stream): (r: Result<Got<BootHeader>>)
    ensures r.Ok? <==> s.pos + BootHeaderSize <= |s.bytes|
    ensures r.Ok? ==> BootHeaderOk(r.value.value) && r.value.rest == Seek(s, s.pos + BootHeaderSize)
  {
    BootLayoutSpan();
    var g :- ReadFields(s, BootLayout);
    BootHeaderOfConforms(g.value);
    Ok(Got(BootHeaderOf(g.value), g.rest))
  }

  /** `writeBootHeader`: the header's fields written at the cursor. */
  function WriteBootHeader(h: BootHeader, s: Stream): (r: Stream)
    requires BootHeaderOk(h)
    ensures r.pos == s.pos + BootHeaderSize
    ensures At(r.bytes, s.pos, BootBytes(h))
    ensures SameOutside(s.bytes, r.bytes, s.pos, s.pos + BootHeaderSize)
    ensures SameFlags(s, r)
  {
    BootFieldsConform(h);
    BootLayoutSpan();
    WriteFieldsEffect(s, BootFields(h), BootLayout);
    WriteFields(s, BootFields(h), BootLayout)
  }

  /** A boot header whose bytes lie at the cursor reads back as itself. */
  lemma ReadBootHeaderAt(s: Stream, h: BootHeader)
    requires BootHeaderOk(h) && At(s.bytes, s.pos, BootBytes(h))
    ensures ReadBootHeader(s) == Ok(Got(h, Seek(s, s.pos + BootHeaderSize)))
  {
    BootFieldsConform(h);
    BootLayoutSpan();
    ReadFieldsAt(s, BootFields(h), BootLayout);
    ReadBootHeaderIs(s, BootFields(h), h);
  }

  lemma ReadBootHeaderIs(s: Stream, fs: seq<Field>, h: BootHeader)
    requires ReadFields(s, BootLayout) == Ok(Got(fs, Seek(s, s.pos + BootHeaderSize)))
    requires fs == BootFields(h)
    ensures ReadBootHeader(s) == Ok(Got(h, Seek(s, s.pos + BootHeaderSize)))
  {
    BootHeaderOfFields(h);
  }

  /** Reading back a boot header just written gives the header and the writer's cursor. */
  lemma ReadWriteBootHeader(h: BootHeader, s: Stream)
    requires BootHeaderOk(h)
    ensures ReadBootHeader(Seek(WriteBootHeader(h, s), s.pos)) == Ok(Got(h, WriteBootHeader(h, s)))
  {
    ReadBootHeaderAt(Seek(WriteBootHeader(h, s), s.pos), h);
  }

  /** Writing back the boot header just read changes nothing but the cursor. */
  lemma WriteReadBootHeader(s: Stream)
    requires ReadBootHeader(s).Ok?
    ensures WriteBootHeader(ReadBootHeader(s).value.value, s) == Seek(s, s.pos + BootHeaderSize)
  {
    BootLayoutSpan();
    var fs := ReadFields(s, BootLayout).value.value;
    BootHeaderOfConforms(fs);
    WriteReadFields(s, BootLayout);
  }

  // ---------------------------------------------------------------------
  // bi2 header
  // ---------------------------------------------------------------------

  datatype Info = Info(
    dbgMonSize: u32,
    simulatedMemSize: u32,
    argOffset: u32,
    dbgFlag: u32,
    trackLocation: u32,
    trackSize: u32,
    countryCode: u32,
    unknown1: u32,
    unknown2: seq<byte>)       // 0x1fe0 bytes

  const InfoSize: nat := 0x2000

  const InfoLayout: seq<Kind> := [Num(4), Num(4), Num(4), Num(4), Num(4), Num(4), Num(4), Num(4), Raw(0x1fe0)]

  lemma InfoLayoutSpan()
    ensures Span(InfoLayout) == InfoSize
  {
    var words := InfoLayout[..8];
    assert InfoLayout == words + [Raw(0x1fe0)];
    assert words == [Num(4), Num(4), Num(4), Num(4), Num(4), Num(4), Num(4), Num(4)];
    BootGroupSpans();
    SpanAppend(words, [Raw(0x1fe0)]);
  }

  predicate InfoOk(i: Info)
  {
    |i.unknown2| == 0x1fe0
  }

  function InfoFields(i: Info): seq<Field>
  {
    [Word(i.dbgMonSize), Word(i.simulatedMemSize), Word(i.argOffset), Word(i.dbgFlag),
     Word(i.trackLocation), Word(i.trackSize), Word(i.countryCode), Word(i.unknown1), Blob(i.unknown2)]
  }

  function InfoOf(fs: seq<Field>): Info
    requires |fs| == |InfoLayout|
  {
    Info(WordOf(fs[0]), WordOf(fs[1]), WordOf(fs[2]), WordOf(fs[3]), WordOf(fs[4]), WordOf(fs[5]),
      WordOf(fs[6]), WordOf(fs[7]), BlobOf(fs[8]))
  }

  /** A well-formed bi2 header is exactly a list of fields that fits the bi2 layout. */
  lemma InfoFieldsConform(i: Info)
    ensures Conforms(InfoFields(i), InfoLayout) <==> InfoOk(i)
  {
    var fs := InfoFields(i);
    if InfoOk(i) {
      forall k | 0 <= k < |InfoLayout| ensures FieldFits(fs[k], InfoLayout[k]) {
        FieldLimits();
      }
    }
    if Conforms(fs, InfoLayout) {
      assert FieldFits(fs[8], InfoLayout[8]);
    }
  }

  lemma InfoOfFields(i: Info)
    ensures InfoOf(InfoFields(i)) == i
  {
  }

  /** Fields that fit the bi2 layout are the fields of the header they make. */
  lemma InfoOfConforms(fs: seq<Field>)
    requires Conforms(fs, InfoLayout)
    ensures InfoOk(InfoOf(fs))
    ensures InfoFields(InfoOf(fs)) == fs
  {
    var i := InfoOf(fs);
    FieldLimits();
    forall k | 0 <= k < |fs| ensures InfoFields(i)[k] == fs[k] {
      assert FieldFits(fs[k], InfoLayout[k]);
    }
  }

  /** The 0x2000 bytes a well-formed bi2 header is stored as. */
  function InfoBytes(i: Info): (b: seq<byte>)
    requires InfoOk(i)
    ensures |b| == InfoSize
  {
    InfoFieldsConform(i);
    InfoLayoutSpan();
    EncodeFields(InfoFields(i), InfoLayout)
  }

  /** `readBi2Header`: the bi2 header at the cursor. */
  function ReadInfo(s: Stream): (r: Result<Got<Info>>)
    ensures r.Ok? <==> s.pos + InfoSize <= |s.bytes|
    ensures r.Ok? ==> InfoOk(r.value.value) && r.value.rest == Seek(s, s.pos + InfoSize)
  {
    InfoLayoutSpan();
    var g :- ReadFields(s, InfoLayout);
    InfoOfConforms(g.value);
    Ok(Got(InfoOf(g.value), g.rest))
  }

  /** `writeBi2Header`: the bi2 header's fields written at the cursor. */
  function WriteInfo(i: Info, s: Stream): (r: Stream)
    requires InfoOk(i)
    ensures r.pos == s.pos + InfoSize
    ensures At(r.bytes, s.pos, InfoBytes(i))
    ensures SameOutside(s.bytes, r.bytes, s.pos, s.pos + InfoSize)
    ensures SameFlags(s, r)
  {
    InfoFieldsConform(i);
    InfoLayoutSpan();
    WriteFieldsEffect(s, InfoFields(i), InfoLayout);
    WriteFields(s, InfoFields(i), InfoLayout)
  }

  /** A bi2 header whose bytes lie at the cursor reads back as itself. */
  lemma ReadInfoAt(s: Stream, i: Info)
    requires InfoOk(i) && At(s.bytes, s.pos, InfoBytes(i))
    ensures ReadInfo(s) == Ok(Got(i, Seek(s, s.pos + InfoSize)))
  {
    InfoFieldsConform(i);
    InfoLayoutSpan();
    ReadFieldsAt(s, InfoFields(i), InfoLayout);
    ReadInfoIs(s, InfoFields(i), i);
  }

  lemma ReadInfoIs(s: Stream, fs: seq<Field>, i: Info)
    requires ReadFields(s, InfoLayout) == Ok(Got(fs, Seek(s, s.pos + InfoSize)))
    requires fs == InfoFields(i)
    ensures ReadInfo(s) == Ok(Got(i, Seek(s, s.pos + InfoSize)))
  {
    InfoOfFields(i);
  }

  /** Reading back a bi2 header just written gives the header and the writer's cursor. */
  lemma ReadWriteInfo(i: Info, s: Stream)
    requires InfoOk(i)
    ensures ReadInfo(Seek(WriteInfo(i, s), s.pos)) == Ok(Got(i, WriteInfo(i, s)))
  {
    ReadInfoAt(Seek(WriteInfo(i, s), s.pos), i);
  }

  /** Writing back the bi2 header just read changes nothing but the cursor. */
  lemma WriteReadInfo(s: Stream)
    requires ReadInfo(s).Ok?
    ensures WriteInfo(ReadInfo(s).value.value, s) == Seek(s, s.pos + InfoSize)
  {
    InfoLayoutSpan();
    var fs := ReadFields(s, InfoLayout).value.value;
    InfoOfConforms(fs);
    WriteReadFields(s, InfoLayout);
  }
}
