/**
  A GameCube disc image: the boot header at 0, the bi2 header at 0x440,
  the apploader at 0x2440, the boot DOL at the header's DOL offset and the
  file system table at the header's FST offset.

  The image keeps the stream it was opened from until it is closed. The
  C++ object holds a pointer to that stream; here the stream is held by
  value, with its cursor where the last read left it.
 */
module Discs {
  import opened Bytes
  import opened Streams
  import opened Variants
  import opened DataRefs
  import opened Fst
  import opened Headers
  import opened Apploaders
  import opened Dols

  const InfoAt: nat := 0x440
  const ApploaderAt: nat := 0x2440
  /** The file system table is moved to a multiple of this when the DOL overruns it. */
  const FstAlign: nat := 0x1000

  datatype Gcm = Gcm(
    header: BootHeader,
    info: Info,
    appldr: Apploader,
    binary: Dol,
    filesystem: Entry,
    strm: Option<Stream>)

  /** Every fixed-size array of the image has its declared size. */
  predicate GcmOk(g: Gcm)
  {
    BootHeaderOk(g.header) && InfoOk(g.info) && AppHeaderOk(g.appldr.header) && DolOk(g.binary)
  }

  /**
    `gcm::open`: refuse a stream that cannot be read or sought, then read
    each part at its place. The file system table's children are appended
    to the ones the image already holds, and the DOL's unused slots keep
    their buffers, as in the source. The source ignores the results of the
    part readers; here a part that runs off the end of the stream fails the
    whole open.
   */
  function Open(v: Variant, g: Gcm, s: Stream): (r: Result<Gcm>)
    requires DolOk(g.binary)
    ensures !s.readable ==> r == Fail(NotReadable)
    ensures s.readable && !s.seekable ==> r == Fail(NotSeekable)
    ensures r.Ok? ==> GcmOk(r.value)
    ensures r.Ok? ==> r.value.strm.Some? && r.value.strm.value.bytes == s.bytes
    ensures r.Ok? ==>
      |r.value.filesystem.children| >= |g.filesystem.children| &&
      r.value.filesystem.children[..|g.filesystem.children|] == g.filesystem.children
    ensures r.Ok? ==> PartsFrom(v, g.binary, g.filesystem, s, r.value)
  {
    OpenInto(v, g.binary, g.filesystem, s)
  }

  /**
    Each part of `img` is what its reader finds at the part's place in `s`:
    the boot header at 0, the bi2 header at 0x440, the apploader at 0x2440,
    the DOL (read into `into`) at the header's DOL offset and the file
    system table (read into `root`) at the header's FST offset.
   */
  predicate PartsFrom(v: Variant, into: Dol, root: Entry, s: Stream, img: Gcm)
    requires DolOk(into)
  {
    && ReadBootHeader(Seek(s, 0)) == Ok(Got(img.header, Seek(s, BootHeaderSize)))
    && ReadInfo(Seek(s, InfoAt)) == Ok(Got(img.info, Seek(s, InfoAt + InfoSize)))
    && ReadApploader(v, Seek(s, ApploaderAt)).Ok? && ReadApploader(v, Seek(s, ApploaderAt)).value.value == img.appldr
    && ReadDol(into, Seek(s, img.header.dolOffset)).Ok? && ReadDol(into, Seek(s, img.header.dolOffset)).value.value == img.binary
    && ReadFst(root, Seek(s, img.header.fstOffset)).Ok? && ReadFst(root, Seek(s, img.header.fstOffset)).value.root == img.filesystem
  }

  /**
    `gcm::open` into an image that holds the DOL `into` and the table
    `root`; nothing else the image holds is read before it is overwritten.
   */
  function OpenInto(v: Variant, into: Dol, root: Entry, s: Stream): (r: Result<Gcm>)
    requires DolOk(into)
    ensures !s.readable ==> r == Fail(NotReadable)
    ensures s.readable && !s.seekable ==> r == Fail(NotSeekable)
    ensures r.Ok? ==> GcmOk(r.value)
    ensures r.Ok? ==> r.value.strm.Some? && r.value.strm.value.bytes == s.bytes
    ensures r.Ok? ==>
      |r.value.filesystem.children| >= |root.children| &&
      r.value.filesystem.children[..|root.children|] == root.children
    ensures r.Ok? ==> PartsFrom(v, into, root, s, r.value)
  {
    if !s.readable then Fail(NotReadable)
    else if !s.seekable then Fail(NotSeekable)
    else
      var hb :- ReadBootHeader(Seek(s, 0));
      var bi :- ReadInfo(Seek(hb.rest, InfoAt));
      var ap :- ReadApploader(v, Seek(bi.rest, ApploaderAt));
      var bin :- ReadDol(into, Seek(ap.rest, hb.value.dolOffset));
      var fs :- ReadFst(root, Seek(bin.rest, hb.value.fstOffset));
      Ok(Gcm(hb.value, bi.value, ap.value, bin.value, fs.root, Some(Seek(s, fs.rest.pos))))
  }

  /**
    Where `gcm::write` puts the file system table once the DOL has been
    written and the cursor is at `pos`: unchanged unless the cursor is past
    it, else the cursor rounded up to the next 0x1000 boundary. The
    source's cursor and the rounding are 32-bit unsigned.
   */
  function Relocate(pos: nat, fstOffset: u32): (r: u32)
    ensures pos <= fstOffset ==> r == fstOffset
    ensures fstOffset < pos && pos + FstAlign <= U32Limit ==> r % FstAlign == 0 && pos <= r < pos + FstAlign
    ensures fstOffset < pos < U32Limit && U32Limit - FstAlign < pos ==> r == 0
  {
    var off := pos % U32Limit;
    if off > fstOffset then (off + 0xfff) % U32Limit / 0x1000 * 0x1000 else fstOffset
  }

  /** What `gcm::write` leaves: the image (its FST offset possibly moved) and the stream written. */
  datatype Written = Written(image: Gcm, out: Stream)

  /**
    The fixed parts of `gcm::write`: the boot header at 0, the bi2 header
    at 0x440, the apploader at 0x2440 and the DOL at the header's DOL
    offset. Only the apploader writer can refuse.
   */
  function WriteParts(v: Variant, g: Gcm, os: Stream): (r: Result<Stream>)
    requires GcmOk(g)
    ensures r.Ok? <==> os.writable && PayloadSize(v, g.appldr.header) >= 0
    ensures r.Ok? ==> SameFlags(os, r.value)
  {
    var w1 := WriteBootHeader(g.header, Seek(os, 0));
    var w2 := WriteInfo(g.info, Seek(w1, InfoAt));
    var w3 :- WriteApploader(v, g.appldr, Seek(w2, ApploaderAt));
    Ok(WriteDol(v, g.binary, Seek(w3, g.header.dolOffset)))
  }

  /**
    The boot header once the file system table's place is known: written
    again at 0 when corrected, left as first written when as written.
   */
  function Rewrite(v: Variant, h: BootHeader, s: Stream): (r: Stream)
    requires BootHeaderOk(h)
    ensures r.readable == s.readable && r.writable == s.writable && r.seekable == s.seekable
    ensures v == Corrected ==> At(r.bytes, 0, BootBytes(h))
    ensures v == AsWritten ==> r == s
  {
    if v == Corrected then WriteBootHeader(h, Seek(s, 0)) else s
  }

  /** The file system table and its file data, with the variant's writer. */
  function WriteTable(v: Variant, root: Entry, s: Stream): (r: Result<Stream>)
    ensures r.Ok? <==> s.writable
    ensures r.Ok? ==> r.value.pos == RecordAt(s.pos, Size(root)) && SameFlags(s, r.value)
  {
    if v == Corrected then WriteFst(root, s, true) else WriteFstAsWritten(root, s, true)
  }

  /**
    The rest of `gcm::write` once the DOL is written and the cursor is at
    its end: move the file system table past the DOL if the DOL overran it,
    and write the table with its file data.

    As written, the boot header on disc stays the one written first, before
    the move. Corrected, it is written again once the table's place is
    known.
   */
  function WriteRest(v: Variant, g: Gcm, w: Stream): (r: Result<Written>)
    requires GcmOk(g)
    ensures r.Ok? <==> w.writable
    ensures r.Ok? ==> r.value.image == g.(header := g.header.(fstOffset := Relocate(w.pos, g.header.fstOffset)))
  {
    var h := g.header.(fstOffset := Relocate(w.pos, g.header.fstOffset));
    var w' := Rewrite(v, h, w);
    var out :- WriteTable(v, g.filesystem, Seek(w', h.fstOffset));
    Ok(Written(g.(header := h), out))
  }

  /**
    `gcm::write`: refuse a stream that cannot be written, then write the
    fixed parts and the file system table. The variant selects the
    as-written or corrected apploader, DOL and file system table writers
    and whether the boot header is written again.
   */
  function WriteGcm(v: Variant, g: Gcm, os: Stream): (r: Result<Written>)
    requires GcmOk(g)
    ensures !os.writable ==> r == Fail(NotWritable)
    ensures r.Ok? ==> os.writable && PayloadSize(v, g.appldr.header) >= 0
    ensures os.writable && PayloadSize(v, g.appldr.header) >= 0 ==> r.Ok?
    ensures r.Ok? ==> r.value.image == g.(header := g.header.(fstOffset := r.value.image.header.fstOffset))
  {
    if !os.writable then Fail(NotWritable)
    else
      var w :- WriteParts(v, g, os);
      assert w.writable;
      WriteRest(v, g, w)
  }

  /**
    `gcm::close`: drop the stream and put the file system table, the DOL
    and the apploader back to their default-constructed values. The boot
    and bi2 headers are left as they are.
   */
  function Close(g: Gcm): (r: Gcm)
    ensures r.strm == None
    ensures r.header == g.header && r.info == g.info
    ensures r.filesystem.name == [] && r.filesystem.data == NoRef && r.filesystem.children == []
    ensures DolOk(r.binary) && forall j :: 0 <= j < Slots ==> !Present(r.binary.sections[j])
    ensures r.appldr.data == []
  {
    Gcm(g.header, g.info, EmptyApploader, EmptyDol, EmptyRoot, None)
  }
}
