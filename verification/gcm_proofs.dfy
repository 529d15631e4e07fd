/**
  What the disc image codec promises as a whole: an image written with the
  corrected writer opens as itself, and the boot header on disc records
  where the file system table went only once corrected.
 */
module DiscProofs {
  import opened Bytes
  import opened Streams
  import opened Variants
  import opened DataRefs
  import opened Fst
  import opened FstProofs
  import opened FstFindings
  import opened Headers
  import opened Apploaders
  import opened Dols
  import opened DolProofs
  import opened Discs

  // ---------------------------------------------------------------------
  // Bytes kept in a range
  // ---------------------------------------------------------------------

  /** Every byte of `b` in [lo, hi) is unchanged in `b'`, and nothing is lost. */
  predicate KeptWithin(b: seq<byte>, b': seq<byte>, lo: nat, hi: nat)
  {
    |b| <= |b'| && forall q :: lo <= q < hi && q < |b| ==> b'[q] == b[q]
  }

  lemma AtKeptWithin(b: seq<byte>, b': seq<byte>, lo: nat, hi: nat, at: nat, x: seq<byte>)
    requires KeptWithin(b, b', lo, hi) && At(b, at, x) && lo <= at && at + |x| <= hi
    ensures At(b', at, x)
  {
    forall k | 0 <= k < |x| ensures b'[at + k] == x[k] {
      assert b[at..at + |x|][k] == x[k];
    }
  }

  // ---------------------------------------------------------------------
  // The layout of an image
  // ---------------------------------------------------------------------

  /**
    An image whose parts do not overlap on disc when written with the
    variant's apploader writer: the writer accepts the apploader, which ends
    before the DOL starts,
    the DOL is placed, and the DOL ends at least 0x1000 bytes below 4 GiB,
    so that moving the table past it does not wrap.
   */
  predicate Separate(v: Variant, g: Gcm)
    requires GcmOk(g)
  {
    var base := g.header.dolOffset;
    && 0 <= PayloadSize(v, g.appldr.header)
    && ApploaderAt + AppHeaderSize + PayloadSize(v, g.appldr.header) <= base
    && Placed(g.binary)
    && base + DolHeaderSize + FstAlign <= U32Limit
    && forall j :: 0 <= j < Slots && Present(g.binary.sections[j]) ==>
         SectionEnd(base, g.binary.sections[j]) + FstAlign <= U32Limit
  }

  /** The apploader `a` is stored in `b` where the corrected writer puts it. */
  predicate AppAt(a: Apploader, b: seq<byte>)
    requires AppHeaderOk(a.header)
  {
    && At(b, ApploaderAt, AppBytes(a.header))
    && At(b, ApploaderAt + AppHeaderSize, Fit(a.data, PayloadSize(Corrected, a.header)))
  }

  /** The DOL `d` is stored in `b` from `base` on: its header and every present section. */
  predicate DolAt(d: Dol, base: nat, b: seq<byte>)
    requires DolOk(d)
  {
    && At(b, base, HeaderBytes(d))
    && forall j :: 0 <= j < Slots && Present(d.sections[j]) ==>
         At(b, base + d.sections[j].offset, DolProofs.Payload(d.sections[j]))
  }

  /** Everything the DOL `d` stored from `base` occupies lies below `hi`. */
  predicate DolBelow(d: Dol, base: nat, hi: nat)
    requires DolOk(d)
  {
    && base + DolHeaderSize <= hi
    && forall j :: 0 <= j < Slots && Present(d.sections[j]) ==> SectionEnd(base, d.sections[j]) <= hi
  }

  /**
    The bi2 header, the apploader and the DOL of `g` are stored in `b`
    where the corrected writer puts them.
   */
  predicate PartsAt(g: Gcm, b: seq<byte>)
    requires GcmOk(g)
  {
    At(b, InfoAt, InfoBytes(g.info)) && AppAt(g.appldr, b) && DolAt(g.binary, g.header.dolOffset, b)
  }

  lemma DolKept(d: Dol, base: nat, b: seq<byte>, b': seq<byte>, lo: nat, hi: nat)
    requires DolOk(d) && Placed(d) && DolAt(d, base, b) && DolBelow(d, base, hi)
    requires lo <= base && KeptWithin(b, b', lo, hi)
    ensures DolAt(d, base, b')
  {
    AtKeptWithin(b, b', lo, hi, base, HeaderBytes(d));
    forall j | 0 <= j < Slots && Present(d.sections[j])
      ensures At(b', base + d.sections[j].offset, DolProofs.Payload(d.sections[j]))
    {
      AtKeptWithin(b, b', lo, hi, base + d.sections[j].offset, DolProofs.Payload(d.sections[j]));
    }
  }

  /** The stored parts survive any change that keeps the bytes from the bi2 header up to `hi`. */
  lemma PartsKept(g: Gcm, b: seq<byte>, b': seq<byte>, hi: nat)
    requires GcmOk(g) && Separate(Corrected, g) && PartsAt(g, b) && DolBelow(g.binary, g.header.dolOffset, hi)
    requires KeptWithin(b, b', InfoAt, hi)
    ensures PartsAt(g, b')
  {
    var a := g.appldr;
    var size := PayloadSize(Corrected, a.header);
    AtKeptWithin(b, b', InfoAt, hi, InfoAt, InfoBytes(g.info));
    AtKeptWithin(b, b', InfoAt, hi, ApploaderAt, AppBytes(a.header));
    AtKeptWithin(b, b', InfoAt, hi, ApploaderAt + AppHeaderSize, Fit(a.data, size));
    DolKept(g.binary, g.header.dolOffset, b, b', InfoAt, hi);
  }

  // ---------------------------------------------------------------------
  // Writing the fixed parts
  // ---------------------------------------------------------------------

  /** After the bi2 header and the apploader are written, both are in place. */
  lemma HeadLaid(g: Gcm, w2: Stream, w3: Stream)
    requires GcmOk(g) && At(w2.bytes, InfoAt, InfoBytes(g.info))
    requires WriteApploader(Corrected, g.appldr, Seek(w2, ApploaderAt)) == Ok(w3)
    ensures At(w3.bytes, InfoAt, InfoBytes(g.info)) && AppAt(g.appldr, w3.bytes)
  {
    WriteApploaderKeepsBelow(Corrected, g.appldr, Seek(w2, ApploaderAt), w3);
    AtKeptBelow(w2.bytes, w3.bytes, ApploaderAt, InfoAt, InfoBytes(g.info));
    WriteApploaderEffect(Corrected, g.appldr, Seek(w2, ApploaderAt), w3);
  }

  /** The corrected DOL writer stores a placed DOL at the cursor and stops past its end. */
  lemma DolWritten(d: Dol, s: Stream)
    requires DolOk(d) && Placed(d)
    ensures var w := WriteDol(Corrected, d, s);
      DolAt(d, s.pos, w.bytes) && DolBelow(d, s.pos, w.pos)
  {
    WriteDolHeader(d, s);
    WriteDolPayloads(d, s);
    WriteDolCursor(Corrected, d, s);
  }

  /** After the DOL is written at its offset, every part is in place and the cursor is past the DOL. */
  lemma DolLaid(g: Gcm, w3: Stream, w: Stream)
    requires GcmOk(g) && Separate(Corrected, g)
    requires At(w3.bytes, InfoAt, InfoBytes(g.info)) && AppAt(g.appldr, w3.bytes)
    requires w == WriteDol(Corrected, g.binary, Seek(w3, g.header.dolOffset))
    ensures PartsAt(g, w.bytes) && DolBelow(g.binary, g.header.dolOffset, w.pos)
    ensures w.pos + FstAlign <= U32Limit
  {
    var a := g.appldr;
    var d := g.binary;
    var t := Seek(w3, g.header.dolOffset);
    WriteDolKeepsBelow(d, t, InfoAt, InfoBytes(g.info));
    WriteDolKeepsBelow(d, t, ApploaderAt, AppBytes(a.header));
    WriteDolKeepsBelow(d, t, ApploaderAt + AppHeaderSize, Fit(a.data, PayloadSize(Corrected, a.header)));
    DolWritten(d, t);
    WriteDolCursor(Corrected, d, t);
  }

  /** What the corrected writer leaves once the fixed parts are written. */
  lemma PartsLaid(g: Gcm, os: Stream, w: Stream)
    requires GcmOk(g) && Separate(Corrected, g) && WriteParts(Corrected, g, os) == Ok(w)
    ensures PartsAt(g, w.bytes) && DolBelow(g.binary, g.header.dolOffset, w.pos)
    ensures w.pos + FstAlign <= U32Limit
  {
    var w1 := WriteBootHeader(g.header, Seek(os, 0));
    var w2 := WriteInfo(g.info, Seek(w1, InfoAt));
    var w3 := WriteApploader(Corrected, g.appldr, Seek(w2, ApploaderAt)).value;
    HeadLaid(g, w2, w3);
    DolLaid(g, w3, w);
  }

  // ---------------------------------------------------------------------
  // Writing the file system table
  // ---------------------------------------------------------------------

  /** Either table writer leaves every byte below its start as it was. */
  lemma WriteTableKeepsBelow(v: Variant, root: Entry, s: Stream, out: Stream)
    requires WriteTable(v, root, s) == Ok(out)
    ensures KeptBelow(s.bytes, out.bytes, s.pos)
  {
    if v == Corrected {
      WriteFstIs(root, s, true, out);
      EmitTableKeepsBelow(Corrected, root, s, Size(root), NamesSize(root.children), true);
    } else {
      WriteFstAsWrittenIs(root, s, true, out);
      EmitTableKeepsBelow(AsWritten, root, s, Size(root), 0, true);
    }
  }

  /** What the rest of the write is made of: the header moved, then the table at the new offset. */
  lemma WriteRestIs(v: Variant, g: Gcm, w: Stream, img: Gcm, out: Stream)
    requires GcmOk(g) && WriteRest(v, g, w) == Ok(Written(img, out))
    ensures img.header == g.header.(fstOffset := Relocate(w.pos, g.header.fstOffset))
    ensures WriteTable(v, g.filesystem, Seek(Rewrite(v, img.header, w), img.header.fstOffset)) == Ok(out)
  {
  }

  /**
    The rest of the write, once the table's place `h.fstOffset` is at or
    past the cursor: every byte between the boot header and the cursor is
    kept, the corrected writer leaves the final boot header at 0, and the
    as-written one keeps every byte below the table.
   */
  lemma RestLaid(v: Variant, h: BootHeader, root: Entry, w: Stream, w': Stream, out: Stream)
    requires BootHeaderOk(h) && w' == Rewrite(v, h, w)
    requires WriteTable(v, root, Seek(w', h.fstOffset)) == Ok(out)
    requires BootHeaderSize <= w.pos <= h.fstOffset
    ensures KeptWithin(w.bytes, out.bytes, BootHeaderSize, w.pos) && SameFlags(w, out)
    ensures v == Corrected ==> At(out.bytes, 0, BootBytes(h))
    ensures v == AsWritten ==> KeptBelow(w.bytes, out.bytes, h.fstOffset)
  {
    if v == Corrected {
      RewrittenKept(h, root, w, w', out);
    } else {
      WriteTableKeepsBelow(v, root, Seek(w', h.fstOffset), out);
      KeptThrough(w.bytes, w'.bytes, out.bytes, w.pos, h.fstOffset);
    }
  }

  lemma RewrittenKept(h: BootHeader, root: Entry, w: Stream, w': Stream, out: Stream)
    requires BootHeaderOk(h) && w' == WriteBootHeader(h, Seek(w, 0))
    requires WriteTable(Corrected, root, Seek(w', h.fstOffset)) == Ok(out)
    requires BootHeaderSize <= w.pos <= h.fstOffset
    ensures KeptWithin(w.bytes, out.bytes, BootHeaderSize, w.pos) && SameFlags(w, out)
    ensures At(out.bytes, 0, BootBytes(h))
  {
    WriteTableKeepsBelow(Corrected, root, Seek(w', h.fstOffset), out);
    KeptThrough(w.bytes, w'.bytes, out.bytes, w.pos, h.fstOffset);
    AtKeptBelow(w'.bytes, out.bytes, h.fstOffset, 0, BootBytes(h));
  }

  /** The boot header rewritten, then a write from `at` on: the bytes from the boot header's end to `hi` survive. */
  lemma KeptThrough(b: seq<byte>, b': seq<byte>, b'': seq<byte>, hi: nat, at: nat)
    requires SameOutside(b, b', 0, BootHeaderSize) || b' == b
    requires KeptBelow(b', b'', at) && hi <= at
    ensures KeptWithin(b, b'', BootHeaderSize, hi)
  {
  }

  // ---------------------------------------------------------------------
  // Opening what was written
  // ---------------------------------------------------------------------

  /** The apploader as the corrected writer stores it: its payload fitted to the declared size. */
  function StoredApploader(a: Apploader): (r: Apploader)
    requires AppHeaderOk(a.header)
    ensures r.header == a.header && |r.data| == PayloadSize(Corrected, a.header)
    ensures |a.data| == PayloadSize(Corrected, a.header) ==> r == a
  {
    a.(data := Fit(a.data, PayloadSize(Corrected, a.header)))
  }

  /** The boot header stored at 0 reads back, and the reader stops at its end. */
  lemma BootHeaderFrom(out: Stream, h: BootHeader)
    requires BootHeaderOk(h) && At(out.bytes, 0, BootBytes(h))
    ensures ReadBootHeader(Seek(out, 0)) == Ok(Got(h, Seek(out, BootHeaderSize)))
  {
    var s := Seek(out, 0);
    ReadBootHeaderAt(s, h);
    assert Seek(s, s.pos + BootHeaderSize) == Seek(out, BootHeaderSize);
  }

  /** The bi2 header stored at 0x440 reads back, and the reader stops at its end. */
  lemma InfoFrom(out: Stream, i: Info)
    requires InfoOk(i) && At(out.bytes, InfoAt, InfoBytes(i))
    ensures ReadInfo(Seek(out, InfoAt)) == Ok(Got(i, Seek(out, InfoAt + InfoSize)))
  {
    var s := Seek(out, InfoAt);
    ReadInfoAt(s, i);
    assert Seek(s, s.pos + InfoSize) == Seek(out, InfoAt + InfoSize);
  }

  /** The apploader stored at 0x2440 reads back, and the reader stops at its end. */
  lemma ApploaderFrom(out: Stream, a: Apploader)
    requires out.readable && AppHeaderOk(a.header) && |a.data| == PayloadSize(Corrected, a.header)
    requires AppAt(a, out.bytes)
    ensures ReadApploader(Corrected, Seek(out, ApploaderAt)) ==
      Ok(Got(a, Seek(out, ApploaderAt + AppHeaderSize + |a.data|)))
  {
    var s := Seek(out, ApploaderAt);
    ReadApploaderAt(Corrected, s, a);
    assert Seek(s, s.pos + AppHeaderSize + |a.data|) == Seek(out, ApploaderAt + AppHeaderSize + |a.data|);
  }

  /** A DOL stored from `base` reads back, into a default-constructed DOL, as stored. */
  lemma ReadDolAt(d: Dol, out: Stream, base: nat)
    requires DolOk(d) && DolAt(d, base, out.bytes)
    ensures var r := ReadDol(EmptyDol, Seek(out, base));
      r.Ok? && r.value.value == Stored(d, EmptyDol) && r.value.rest == Seek(out, r.value.rest.pos)
  {
    ReadStored(d, EmptyDol, out, base);
  }

  /**
    After `gcm::close` nothing of the image's earlier parts survives: what a
    closed image opens from a stream does not depend on the image it was
    closed from.
   */
  lemma CloseForgets(v: Variant, g: Gcm, g': Gcm, s: Stream)
    ensures Open(v, Close(g), s) == Open(v, Close(g'), s)
  {
    assert Open(v, Close(g), s) == OpenInto(v, EmptyDol, EmptyRoot, s);
  }

  /**
    Opened after `gcm::close`, an image holds only what the stream holds:
    a root with no name and no data, and no payload in a DOL slot not in
    use (without the close, those slots would keep the earlier buffers and
    the table would keep the earlier entries).
   */
  lemma ClosedOpensClean(v: Variant, g: Gcm, s: Stream)
    requires Open(v, Close(g), s).Ok?
    ensures var r := Open(v, Close(g), s).value;
      && r.filesystem.name == [] && r.filesystem.data == NoRef
      && forall j :: 0 <= j < Slots && !Present(r.binary.sections[j]) ==> r.binary.sections[j].buffer == []
  {
    var r := Open(v, Close(g), s).value;
    ReadDolFresh(Seek(s, r.header.dolOffset));
  }

  /** `gcm::open` as the sequence of its part reads, each from its own offset. */
  lemma OpenSteps(v: Variant, g: Gcm, s: Stream, h: BootHeader, i: Info, a: Apploader, d: Dol, fs: FstRead, q: nat, q': nat)
    requires DolOk(g.binary) && s.readable && s.seekable
    requires ReadBootHeader(Seek(s, 0)) == Ok(Got(h, Seek(s, BootHeaderSize)))
    requires ReadInfo(Seek(s, InfoAt)) == Ok(Got(i, Seek(s, InfoAt + InfoSize)))
    requires ReadApploader(v, Seek(s, ApploaderAt)) == Ok(Got(a, Seek(s, q)))
    requires ReadDol(g.binary, Seek(s, h.dolOffset)) == Ok(Got(d, Seek(s, q')))
    requires ReadFst(g.filesystem, Seek(s, h.fstOffset)) == Ok(fs)
    ensures Open(v, g, s) == Ok(Gcm(h, i, a, d, fs.root, Some(Seek(s, fs.rest.pos))))
  {
    assert Seek(Seek(s, BootHeaderSize), InfoAt) == Seek(s, InfoAt);
    assert Seek(Seek(s, InfoAt + InfoSize), ApploaderAt) == Seek(s, ApploaderAt);
    assert Seek(Seek(s, q), h.dolOffset) == Seek(s, h.dolOffset);
    assert Seek(Seek(s, q'), h.fstOffset) == Seek(s, h.fstOffset);
  }

  /**
    Opening, into the closed image `img`, a stream that holds `img`'s boot
    header at 0 and the parts of `g` where they belong gives back those
    parts and the table found at the header's FST offset, and the image
    holds the stream where the table reader stopped.
   */
  lemma OpenLaid(g: Gcm, img: Gcm, out: Stream)
    requires GcmOk(g) && BootHeaderOk(img.header) && img.info == g.info
    requires img.header.dolOffset == g.header.dolOffset
    requires out.readable && out.seekable
    requires At(out.bytes, 0, BootBytes(img.header)) && PartsAt(g, out.bytes)
    requires ReadFst(EmptyRoot, Seek(out, img.header.fstOffset)).Ok?
    requires ReadFst(EmptyRoot, Seek(out, img.header.fstOffset)).value.rest == out
    ensures var fs := ReadFst(EmptyRoot, Seek(out, img.header.fstOffset)).value;
      Open(Corrected, Close(img), out) ==
        Ok(Gcm(img.header, g.info, StoredApploader(g.appldr), Stored(g.binary, EmptyDol), fs.root, Some(out)))
  {
    var h := img.header;
    var a := StoredApploader(g.appldr);
    var c := Close(img);
    var q := ApploaderAt + AppHeaderSize + |a.data|;
    BootHeaderFrom(out, h);
    InfoFrom(out, g.info);
    ApploaderFrom(out, a);
    ReadDolAt(g.binary, out, h.dolOffset);
    var d := ReadDol(EmptyDol, Seek(out, h.dolOffset)).value;
    var fs := ReadFst(EmptyRoot, Seek(out, h.fstOffset)).value;
    OpenSteps(Corrected, c, out, h, g.info, a, d.value, fs, q, d.rest.pos);
    SeekHere(out);
  }

  /** A successful `gcm::write` wrote the fixed parts. */
  lemma WriteGcmParts(v: Variant, g: Gcm, os: Stream, r: Written)
    requires GcmOk(g) && WriteGcm(v, g, os) == Ok(r)
    ensures WriteParts(v, g, os).Ok?
  {
  }

  /** `gcm::write` once its fixed parts are written is the rest of the write. */
  lemma WriteGcmRest(v: Variant, g: Gcm, os: Stream, w: Stream)
    requires GcmOk(g) && WriteParts(v, g, os) == Ok(w)
    ensures WriteGcm(v, g, os) == WriteRest(v, g, w)
  {
  }

  /**
    The rest of the corrected write, after the fixed parts are laid out
    and the DOL ends at least 0x1000 bytes below 4 GiB: the fixed parts
    stay, the final boot header is at 0, and the table reads back from the
    new FST offset.
   */
  lemma RestRead(g: Gcm, w: Stream, img: Gcm, out: Stream)
    requires GcmOk(g) && Separate(Corrected, g) && WriteRest(Corrected, g, w) == Ok(Written(img, out))
    requires PartsAt(g, w.bytes) && DolBelow(g.binary, g.header.dolOffset, w.pos) && w.pos + FstAlign <= U32Limit
    requires NamesOk(g.filesystem.children) && TableFits(g.filesystem, img.header.fstOffset)
    ensures SameFlags(w, out) && At(out.bytes, 0, BootBytes(img.header)) && PartsAt(g, out.bytes)
    ensures ReadFst(EmptyRoot, Seek(out, img.header.fstOffset)).Ok?
    ensures var r := ReadFst(EmptyRoot, Seek(out, img.header.fstOffset)).value;
      && r.root.name == [] && r.root.data == NoRef && r.rest == out
      && ReadsBackAll(Corrected, true, out.bytes, r.root.children, g.filesystem.children)
  {
    WriteRestIs(Corrected, g, w, img, out);
    var h := img.header;
    assert BootHeaderOk(h);
    assert BootHeaderSize <= w.pos <= h.fstOffset;
    var w' := Rewrite(Corrected, h, w);
    RestLaid(Corrected, h, g.filesystem, w, w', out);
    PartsKept(g, w.bytes, out.bytes, w.pos);
    WriteFstReadsBack(g.filesystem, Seek(w', h.fstOffset), true, out);
  }

  /**
    What the corrected `gcm::write` leaves on disc: the final boot header at
    0, the other parts where they belong, and the table, written from the
    new FST offset, that `fst::read` reads back from there.
   */
  lemma WrittenLaid(g: Gcm, os: Stream, img: Gcm, out: Stream)
    requires GcmOk(g) && Separate(Corrected, g) && WriteGcm(Corrected, g, os) == Ok(Written(img, out))
    requires NamesOk(g.filesystem.children) && TableFits(g.filesystem, img.header.fstOffset)
    ensures SameFlags(os, out) && img.info == g.info
    ensures BootHeaderOk(img.header) && img.header.dolOffset == g.header.dolOffset
    ensures At(out.bytes, 0, BootBytes(img.header)) && PartsAt(g, out.bytes)
    ensures ReadFst(EmptyRoot, Seek(out, img.header.fstOffset)).Ok?
    ensures var r := ReadFst(EmptyRoot, Seek(out, img.header.fstOffset)).value;
      && r.root.name == [] && r.root.data == NoRef && r.rest == out
      && ReadsBackAll(Corrected, true, out.bytes, r.root.children, g.filesystem.children)
  {
    WriteGcmParts(Corrected, g, os, Written(img, out));
    var w := WriteParts(Corrected, g, os).value;
    WriteGcmRest(Corrected, g, os, w);
    PartsLaid(g, os, w);
    RestRead(g, w, img, out);
  }

  /**
    Write, then open, with the corrected writers: an image whose parts do
    not overlap and whose table fits its fields opens as the image the
    writer reports. The boot header read back records where the table
    went; the bi2 header comes back unchanged; the apploader and the DOL
    come back as stored; the table found at the new FST offset reads back
    entry for entry; and the opened image holds the stream where the
    writer stopped.
   */
  lemma ReadWriteGcm(g: Gcm, os: Stream, img: Gcm, out: Stream)
    requires GcmOk(g) && Separate(Corrected, g) && os.readable && os.seekable
    requires WriteGcm(Corrected, g, os) == Ok(Written(img, out))
    requires NamesOk(g.filesystem.children) && TableFits(g.filesystem, img.header.fstOffset)
    ensures ReadFst(EmptyRoot, Seek(out, img.header.fstOffset)).Ok?
    ensures var t := ReadFst(EmptyRoot, Seek(out, img.header.fstOffset)).value.root;
      t.name == [] && t.data == NoRef && ReadsBackAll(Corrected, true, out.bytes, t.children, g.filesystem.children)
    ensures var t := ReadFst(EmptyRoot, Seek(out, img.header.fstOffset)).value.root;
      Open(Corrected, Close(img), out) ==
        Ok(Gcm(img.header, g.info, StoredApploader(g.appldr), Stored(g.binary, EmptyDol), t, Some(out)))
  {
    WrittenLaid(g, os, img, out);
    OpenLaid(g, img, out);
  }

  // ---------------------------------------------------------------------
  // The boot header on disc and the table's place
  // ---------------------------------------------------------------------

  /**
    When a present DOL section ends past the header's FST offset, and the
    DOL ends at least 0x1000 bytes below 4 GiB, `gcm::write` moves the table
    past the DOL: the FST offset changes.
   */
  lemma OverrunMoves(w: Stream, fstOffset: u32, hi: nat)
    requires fstOffset < hi <= w.pos && w.pos + FstAlign <= U32Limit
    ensures Relocate(w.pos, fstOffset) != fstOffset && w.pos <= Relocate(w.pos, fstOffset)
  {
  }

  /** The first boot header survives the bi2 header and the apploader written after it. */
  lemma StaleHead(g: Gcm, os: Stream, w3: Stream)
    requires GcmOk(g)
    requires WriteApploader(AsWritten, g.appldr, Seek(WriteInfo(g.info, Seek(WriteBootHeader(g.header, Seek(os, 0)), InfoAt)), ApploaderAt)) == Ok(w3)
    ensures At(w3.bytes, 0, BootBytes(g.header))
  {
    var w1 := WriteBootHeader(g.header, Seek(os, 0));
    var w2 := WriteInfo(g.info, Seek(w1, InfoAt));
    AtTransfer(w1.bytes, w2.bytes, 0, BootBytes(g.header), InfoAt, InfoAt + InfoSize);
    WriteApploaderKeepsBelow(AsWritten, g.appldr, Seek(w2, ApploaderAt), w3);
    AtKeptBelow(w2.bytes, w3.bytes, ApploaderAt, 0, BootBytes(g.header));
  }

  /** ... and the DOL written as written, when slot 0 of a placed DOL is in use. */
  lemma StaleDol(g: Gcm, w3: Stream, w: Stream)
    requires GcmOk(g) && Separate(AsWritten, g) && Present(g.binary.sections[0])
    requires At(w3.bytes, 0, BootBytes(g.header))
    requires w == WriteDol(AsWritten, g.binary, Seek(w3, g.header.dolOffset))
    ensures At(w.bytes, 0, BootBytes(g.header))
    ensures DolBelow(g.binary, g.header.dolOffset, w.pos) && w.pos + FstAlign <= U32Limit
  {
    var t3 := Seek(w3, g.header.dolOffset);
    AsWrittenAgrees(g.binary, t3);
    assert w == WriteDol(Corrected, g.binary, t3);
    DolCorrected(g, w3, w);
  }

  lemma DolCorrected(g: Gcm, w3: Stream, w: Stream)
    requires GcmOk(g) && Placed(g.binary)
    requires g.header.dolOffset + DolHeaderSize + FstAlign <= U32Limit
    requires forall j :: 0 <= j < Slots && Present(g.binary.sections[j]) ==>
      SectionEnd(g.header.dolOffset, g.binary.sections[j]) + FstAlign <= U32Limit
    requires At(w3.bytes, 0, BootBytes(g.header)) && BootHeaderSize <= g.header.dolOffset
    requires w == WriteDol(Corrected, g.binary, Seek(w3, g.header.dolOffset))
    ensures At(w.bytes, 0, BootBytes(g.header))
    ensures DolBelow(g.binary, g.header.dolOffset, w.pos) && w.pos + FstAlign <= U32Limit
  {
    var t3 := Seek(w3, g.header.dolOffset);
    WriteDolKeepsBelow(g.binary, t3, 0, BootBytes(g.header));
    DolWritten(g.binary, t3);
    WriteDolCursor(Corrected, g.binary, t3);
  }

  /**
    The fixed parts as written, when the apploader ends before the DOL and
    slot 0 of the DOL is in use: the first boot header is still at 0 and
    the cursor is past every section of the DOL.
   */
  lemma StaleParts(g: Gcm, os: Stream, w: Stream)
    requires GcmOk(g) && Separate(AsWritten, g) && Present(g.binary.sections[0])
    requires WriteParts(AsWritten, g, os) == Ok(w)
    ensures At(w.bytes, 0, BootBytes(g.header))
    ensures DolBelow(g.binary, g.header.dolOffset, w.pos) && w.pos + FstAlign <= U32Limit
  {
    var w1 := WriteBootHeader(g.header, Seek(os, 0));
    var w2 := WriteInfo(g.info, Seek(w1, InfoAt));
    var w3 := WriteApploader(AsWritten, g.appldr, Seek(w2, ApploaderAt)).value;
    StaleHead(g, os, w3);
    StaleDol(g, w3, w);
  }

  /** The corrected rest of the write leaves the final boot header at 0. */
  lemma RestHead(g: Gcm, w: Stream, img: Gcm, out: Stream)
    requires GcmOk(g) && WriteRest(Corrected, g, w) == Ok(Written(img, out))
    requires BootHeaderSize <= w.pos && w.pos + FstAlign <= U32Limit
    ensures At(out.bytes, 0, BootBytes(img.header))
  {
    WriteRestIs(Corrected, g, w, img, out);
    var h := img.header;
    assert BootHeaderOk(h) && BootHeaderSize <= w.pos <= h.fstOffset;
    RewrittenKept(h, g.filesystem, w, Rewrite(Corrected, h, w), out);
  }

  /**
    The rest of the write as written, after a DOL that overruns the table:
    the table moves, and the first boot header stays at 0.
   */
  lemma RestStale(g: Gcm, w: Stream, img: Gcm, out: Stream)
    requires GcmOk(g) && WriteRest(AsWritten, g, w) == Ok(Written(img, out))
    requires At(w.bytes, 0, BootBytes(g.header)) && g.header.fstOffset < w.pos
    requires BootHeaderSize <= w.pos && w.pos + FstAlign <= U32Limit
    ensures img.header.fstOffset != g.header.fstOffset
    ensures At(out.bytes, 0, BootBytes(g.header))
  {
    WriteRestIs(AsWritten, g, w, img, out);
    var h := img.header;
    OverrunMoves(w, g.header.fstOffset, w.pos);
    WriteTableKeepsBelow(AsWritten, g.filesystem, Seek(w, h.fstOffset), out);
    AtKeptBelow(w.bytes, out.bytes, h.fstOffset, 0, BootBytes(g.header));
  }

  /**
    Finding: as written, `gcm::write` writes the boot header before it
    knows where the file system table goes, and never writes it again.
    When the DOL overruns the table, the table is moved, but the boot
    header read back from the disc is the one first written: it still
    records the old FST offset, not the table's place.
   */
  lemma AsWrittenHeaderStale(g: Gcm, os: Stream, img: Gcm, out: Stream, j: nat)
    requires GcmOk(g) && Separate(AsWritten, g) && Present(g.binary.sections[0])
    requires WriteGcm(AsWritten, g, os) == Ok(Written(img, out))
    requires j < Slots && Present(g.binary.sections[j])
    requires g.header.fstOffset < SectionEnd(g.header.dolOffset, g.binary.sections[j])
    ensures img.header.fstOffset != g.header.fstOffset
    ensures ReadBootHeader(Seek(out, 0)) == Ok(Got(g.header, Seek(out, BootHeaderSize)))
    ensures ReadBootHeader(Seek(out, 0)).value.value != img.header
  {
    WriteGcmParts(AsWritten, g, os, Written(img, out));
    var w := WriteParts(AsWritten, g, os).value;
    WriteGcmRest(AsWritten, g, os, w);
    StaleParts(g, os, w);
    RestStale(g, w, img, out);
    BootHeaderFrom(out, g.header);
  }

  /**
    The corrected `gcm::write` writes the boot header again once the
    table's place is known: the header read back from the disc is the one
    the writer reports, with the table's actual offset.
   */
  lemma CorrectedHeaderCurrent(g: Gcm, os: Stream, img: Gcm, out: Stream)
    requires GcmOk(g) && Separate(Corrected, g) && WriteGcm(Corrected, g, os) == Ok(Written(img, out))
    ensures ReadBootHeader(Seek(out, 0)) == Ok(Got(img.header, Seek(out, BootHeaderSize)))
  {
    WriteGcmParts(Corrected, g, os, Written(img, out));
    var w := WriteParts(Corrected, g, os).value;
    WriteGcmRest(Corrected, g, os, w);
    PartsLaid(g, os, w);
    RestHead(g, w, img, out);
    BootHeaderFrom(out, img.header);
  }
}
