/**
  What the file system table writer lays out and what the reader recovers
  from it: the corrected writer's table reads back as the tree it was
  written from, and the two counterexamples behind the corrections.
 */
module FstProofs {
  import opened Bytes
  import opened Streams
  import opened DataRefs
  import opened Variants
  import opened Fst

  // ---------------------------------------------------------------------
  // Single records and names
  // ---------------------------------------------------------------------

  /** Four field writes are one write of the record's 12 bytes. */
  lemma WriteRecordBytes(s: Stream, r: Record)
    ensures WriteRecord(s, r) == WriteBytes(s, RecordBytes(r))
  {
    var f, n, a, b := EncodeBE(r.flags, 1), EncodeBE(r.nameOffset, 3), EncodeBE(r.a, 4), EncodeBE(r.b, 4);
    WriteConcat(s, f, n);
    WriteConcat(s, f + n, a);
    WriteConcat(s, f + n + a, b);
  }

  /** A written record sits at the cursor, and the cursor moves past it. */
  lemma WriteRecordAt(s: Stream, r: Record)
    ensures At(WriteRecord(s, r).bytes, s.pos, RecordBytes(r))
    ensures WriteRecord(s, r).pos == s.pos + RecordSize
  {
    WriteRecordBytes(s, r);
    WriteBytesEffect(s, RecordBytes(r));
  }

  /** A record whose fields fit reads back from its 12 bytes. */
  lemma ReadRecordAt(s: Stream, r: Record)
    requires RecordFits(r)
    requires At(s.bytes, s.pos, RecordBytes(r))
    ensures ReadRecord(s) == Ok(Got(r, Seek(s, s.pos + RecordSize)))
  {
    var p := s.pos;
    FieldLimits();
    RecordFields(s.bytes, p, r);
    ReadBEValueAt(s, r.flags, 1);
    ReadBEValueAt(Seek(s, p + 1), r.nameOffset, 3);
    ReadBEValueAt(Seek(s, p + 4), r.a, 4);
    ReadBEValueAt(Seek(s, p + 8), r.b, 4);
  }

  /** The four fields of a laid-out record, each at its own offset. */
  lemma RecordFields(b: seq<byte>, p: nat, r: Record)
    requires At(b, p, RecordBytes(r))
    ensures At(b, p, EncodeBE(r.flags, 1)) && At(b, p + 1, EncodeBE(r.nameOffset, 3))
    ensures At(b, p + 4, EncodeBE(r.a, 4)) && At(b, p + 8, EncodeBE(r.b, 4))
  {
    var f, n, a, c := EncodeBE(r.flags, 1), EncodeBE(r.nameOffset, 3), EncodeBE(r.a, 4), EncodeBE(r.b, 4);
    AtConcat(b, p, f + n + a, c);
    AtConcat(b, p, f + n, a);
    AtConcat(b, p, f, n);
  }

  /** The scan stops at the NUL that follows a name laid out at the cursor. */
  lemma {:induction false} ScanNameAt(s: Stream, count: nat, name: seq<byte>)
    requires count + |name| < NameScanLimit
    requires s.pos + |name| < |s.bytes| && s.bytes[s.pos + |name|] == 0
    requires forall k :: 0 <= k < |name| ==> name[k] != 0 && s.bytes[s.pos + k] == name[k]
    ensures ScanName(s, count) == Ok(Got(name, Seek(s, s.pos + |name| + 1)))
    decreases |name|
  {
    assert ReadBytes(s, 1).value.value == [s.bytes[s.pos]];
    if |name| > 0 {
      ScanNameAt(Seek(s, s.pos + 1), count + 1, name[1..]);
      assert [name[0]] + name[1..] == name;
    }
  }

  lemma GrabFilenameAt(s: Stream, offset: nat, name: seq<byte>)
    requires NameOk(name)
    requires At(s.bytes, offset, name + [0])
    ensures GrabFilename(s, offset) == Ok(Got(name, s))
  {
    forall k | 0 <= k <= |name| ensures s.bytes[offset + k] == (name + [0])[k] {
      assert s.bytes[offset..offset + |name| + 1][k] == (name + [0])[k];
    }
    ScanNameAt(Seek(s, offset), 0, name);
  }

  // ---------------------------------------------------------------------
  // Cursor progression
  // ---------------------------------------------------------------------

  /** The cursors after a subtree has been emitted. */
  function After(e: Entry, cur: Cursors): (r: Cursors)
    ensures r.entry == cur.entry + Size(e)
    ensures r.str == cur.str + NameSize(e)
    ensures r.data >= cur.data
    decreases e, 1
  {
    AfterAll(e.children, NodeCursors(e, cur))
  }

  function AfterAll(kids: seq<Entry>, cur: Cursors): (r: Cursors)
    ensures r.entry == cur.entry + SizeOf(kids)
    ensures r.str == cur.str + NamesSize(kids)
    ensures r.data >= cur.data
    decreases kids, 0
  {
    if |kids| == 0 then cur else AfterAll(kids[1..], After(kids[0], cur))
  }

  /** The writer's cursors follow the pure progression whatever the stream holds. */
  lemma {:induction false} EmitEntryCursors(v: Variant, s: Stream, e: Entry, strTable: nat, cur: Cursors, wd: bool)
    ensures EmitEntry(v, s, e, strTable, cur, wd).1 == After(e, cur)
    decreases e, 1
  {
    EmitChildrenCursors(v, WriteNode(v, s, e, strTable, cur, wd), e.children, strTable, NodeCursors(e, cur), wd);
  }

  lemma {:induction false} EmitChildrenCursors(v: Variant, s: Stream, kids: seq<Entry>, strTable: nat, cur: Cursors, wd: bool)
    ensures EmitChildren(v, s, kids, strTable, cur, wd).1 == AfterAll(kids, cur)
    decreases kids, 0
  {
    if |kids| > 0 {
      var r1 := EmitEntry(v, s, kids[0], strTable, cur, wd);
      EmitEntryCursors(v, s, kids[0], strTable, cur, wd);
      EmitChildrenCursors(v, r1.0, kids[1..], strTable, r1.1, wd);
    }
  }

  // ---------------------------------------------------------------------
  // The layout of a written table
  // ---------------------------------------------------------------------

  /**
    `b` holds the emitted form of `e` at the cursors `cur`: its record, its
    name, its payload when one is written, and its descendants after it.
   */
  predicate LaidNode(v: Variant, wd: bool, b: seq<byte>, base: nat, strTable: nat, e: Entry, cur: Cursors)
    decreases e, 1
  {
    && At(b, RecordAt(base, cur.entry), RecordBytes(NodeRecord(v, e, strTable, cur)))
    && At(b, cur.str, e.name + [0])
    && (WritesPayload(v, wd, e) ==> At(b, AlignData(cur.data), Payload(e.data)))
    && Laid(v, wd, b, base, strTable, e.children, NodeCursors(e, cur))
  }

  predicate Laid(v: Variant, wd: bool, b: seq<byte>, base: nat, strTable: nat, kids: seq<Entry>, cur: Cursors)
    decreases kids, 0
  {
    |kids| == 0 ||
    (LaidNode(v, wd, b, base, strTable, kids[0], cur) && Laid(v, wd, b, base, strTable, kids[1..], After(kids[0], cur)))
  }

  /**
    The bytes a subtree's emission may change: a range of records, a range
    of the name table and everything from a data cursor on.
   */
  datatype Window = Window(r0: int, r1: int, n0: int, n1: int, d0: int)

  predicate Touched(q: int, w: Window)
  {
    (w.r0 <= q < w.r1) || (w.n0 <= q < w.n1) || w.d0 <= q
  }

  /** `[lo, hi)` lies outside the window. */
  predicate Clear(w: Window, lo: int, hi: int)
  {
    (hi <= w.r0 || w.r1 <= lo) && (hi <= w.n0 || w.n1 <= lo) && hi <= w.d0
  }

  /** Every byte outside the window is unchanged, and nothing is lost. */
  predicate Kept(b: seq<byte>, b': seq<byte>, w: Window)
  {
    |b| <= |b'| && forall q :: 0 <= q < |b| && !Touched(q, w) ==> b'[q] == b[q]
  }

  /** The window of a subtree emitted from `cur` to `end`. */
  function Win(base: nat, cur: Cursors, end: Cursors): Window
  {
    Window(RecordAt(base, cur.entry), RecordAt(base, end.entry), cur.str, end.str, cur.data)
  }

  /** Window `w1` changes no byte that `w` does not. */
  predicate Within(w1: Window, w: Window)
  {
    (w1.r1 <= w1.r0 || (w.r0 <= w1.r0 && w1.r1 <= w.r1)) &&
    (w1.n1 <= w1.n0 || (w.n0 <= w1.n0 && w1.n1 <= w.n1)) &&
    w.d0 <= w1.d0
  }

  /** The regions a subtree emitted from `cur` to `end` occupies all lie outside `w`. */
  predicate ClearOf(w: Window, base: nat, cur: Cursors, end: Cursors)
  {
    Clear(w, RecordAt(base, cur.entry), RecordAt(base, end.entry)) &&
    Clear(w, cur.str, end.str) &&
    Clear(w, cur.data, end.data)
  }

  lemma AtKept(b: seq<byte>, b': seq<byte>, w: Window, at: nat, x: seq<byte>)
    requires At(b, at, x) && Kept(b, b', w) && Clear(w, at, at + |x|)
    ensures At(b', at, x)
  {
    forall k | 0 <= k < |x| ensures b'[at + k] == x[k] {
      assert b[at..at + |x|][k] == x[k];
    }
  }

  lemma KeptTrans(b1: seq<byte>, b2: seq<byte>, b3: seq<byte>, w1: Window, w2: Window, w: Window)
    requires Kept(b1, b2, w1) && Kept(b2, b3, w2) && Within(w1, w) && Within(w2, w)
    ensures Kept(b1, b3, w)
  {
  }

  /** A single write inside the window keeps everything outside it. */
  lemma WriteKept(s: Stream, x: seq<byte>, w: Window)
    requires (w.r0 <= s.pos && s.pos + |x| <= w.r1) || (w.n0 <= s.pos && s.pos + |x| <= w.n1) || w.d0 <= s.pos
    ensures Kept(s.bytes, WriteBytes(s, x).bytes, w)
  {
    WriteBytesEffect(s, x);
  }

  /** Regions clear of a window split into parts clear of it. */
  lemma ClearOfSplit(w: Window, base: nat, cur: Cursors, mid: Cursors, end: Cursors)
    requires ClearOf(w, base, cur, end)
    requires cur.entry <= mid.entry <= end.entry && cur.str <= mid.str <= end.str && cur.data <= mid.data <= end.data
    ensures ClearOf(w, base, cur, mid) && ClearOf(w, base, mid, end)
  {
  }

  lemma ClearSub(w: Window, lo: int, hi: int, lo': int, hi': int)
    requires Clear(w, lo, hi) && lo <= lo' <= hi' <= hi
    ensures Clear(w, lo', hi')
  {
  }

  /** A written subtree survives later writes that stay clear of it. */
  lemma {:induction false} LaidNodeKept(v: Variant, wd: bool, b: seq<byte>, b': seq<byte>, base: nat, strTable: nat, e: Entry, cur: Cursors, w: Window)
    requires LaidNode(v, wd, b, base, strTable, e, cur)
    requires Kept(b, b', w) && ClearOf(w, base, cur, After(e, cur))
    ensures LaidNode(v, wd, b', base, strTable, e, cur)
    decreases e, 1
  {
    var end, nc := After(e, cur), NodeCursors(e, cur);
    ClearOfSplit(w, base, cur, nc, end);
    AtKept(b, b', w, RecordAt(base, cur.entry), RecordBytes(NodeRecord(v, e, strTable, cur)));
    AtKept(b, b', w, cur.str, e.name + [0]);
    if WritesPayload(v, wd, e) {
      var at := AlignData(cur.data);
      ClearSub(w, cur.data, nc.data, at, at + e.data.Len());
      AtKept(b, b', w, at, Payload(e.data));
    }
    LaidKept(v, wd, b, b', base, strTable, e.children, nc, w);
  }

  lemma {:induction false} LaidKept(v: Variant, wd: bool, b: seq<byte>, b': seq<byte>, base: nat, strTable: nat, kids: seq<Entry>, cur: Cursors, w: Window)
    requires Laid(v, wd, b, base, strTable, kids, cur)
    requires Kept(b, b', w) && ClearOf(w, base, cur, AfterAll(kids, cur))
    ensures Laid(v, wd, b', base, strTable, kids, cur)
    decreases kids, 0
  {
    if |kids| > 0 {
      var mid, end := After(kids[0], cur), AfterAll(kids, cur);
      assert end == AfterAll(kids[1..], mid);
      ClearOfSplit(w, base, cur, mid, end);
      LaidNodeKept(v, wd, b, b', base, strTable, kids[0], cur, w);
      LaidKept(v, wd, b, b', base, strTable, kids[1..], mid, w);
    }
  }

  // ---------------------------------------------------------------------
  // The writer lays out the table
  // ---------------------------------------------------------------------

  /**
    The node's own writes lay out its record, name and payload, and change
    no byte outside the subtree's window.
   */
  lemma WriteNodeLays(v: Variant, s: Stream, e: Entry, strTable: nat, cur: Cursors, wd: bool, base: nat)
    requires s.pos == RecordAt(base, cur.entry)
    requires RecordAt(base, After(e, cur).entry) <= strTable <= cur.str
    requires After(e, cur).str <= cur.data
    ensures var b := WriteNode(v, s, e, strTable, cur, wd).bytes;
      && At(b, s.pos, RecordBytes(NodeRecord(v, e, strTable, cur)))
      && At(b, cur.str, e.name + [0])
      && (WritesPayload(v, wd, e) ==> At(b, AlignData(cur.data), Payload(e.data)))
      && Kept(s.bytes, b, Win(base, cur, After(e, cur)))
  {
    var rec := RecordBytes(NodeRecord(v, e, strTable, cur));
    var name := e.name + [0];
    var w := Win(base, cur, After(e, cur));
    var s2 := WriteBytes(Seek(WriteRecord(s, NodeRecord(v, e, strTable, cur)), cur.str), name);
    WriteNodeHead(v, s, e, strTable, cur, base);
    var at := AlignData(cur.data);
    if WritesPayload(v, wd, e) {
      var s3 := WriteBytes(Seek(s2, at), Payload(e.data));
      WritePayloadKeeps(s2, at, Payload(e.data), s.pos, rec, cur.str, name);
      WriteBytesEffect(Seek(s2, at), Payload(e.data));
      WriteKept(Seek(s2, at), Payload(e.data), w);
      KeptTrans(s.bytes, s2.bytes, s3.bytes, w, w, w);
    }
  }

  /** The node's record and name land in place, and nothing outside the subtree's window changes. */
  lemma WriteNodeHead(v: Variant, s: Stream, e: Entry, strTable: nat, cur: Cursors, base: nat)
    requires s.pos == RecordAt(base, cur.entry)
    requires RecordAt(base, After(e, cur).entry) <= strTable <= cur.str
    requires After(e, cur).str <= cur.data
    ensures var rec := RecordBytes(NodeRecord(v, e, strTable, cur));
      var s2 := WriteBytes(Seek(WriteRecord(s, NodeRecord(v, e, strTable, cur)), cur.str), e.name + [0]);
      At(s2.bytes, s.pos, rec) && At(s2.bytes, cur.str, e.name + [0]) &&
      Kept(s.bytes, s2.bytes, Win(base, cur, After(e, cur)))
  {
    var rec := RecordBytes(NodeRecord(v, e, strTable, cur));
    var name := e.name + [0];
    var w := Win(base, cur, After(e, cur));
    var s1 := WriteRecord(s, NodeRecord(v, e, strTable, cur));
    assert At(s1.bytes, s.pos, rec) && Kept(s.bytes, s1.bytes, w) by {
      WriteRecordBytes(s, NodeRecord(v, e, strTable, cur));
      WriteBytesEffect(s, rec);
      WriteKept(s, rec, w);
    }
    var s2 := WriteBytes(Seek(s1, cur.str), name);
    WriteBytesEffect(Seek(s1, cur.str), name);
    AtTransfer(s1.bytes, s2.bytes, s.pos, rec, cur.str, cur.str + |name|);
    WriteKept(Seek(s1, cur.str), name, w);
    KeptTrans(s.bytes, s1.bytes, s2.bytes, w, w, w);
  }

  /**
    Emitting a subtree whose records, names and data regions do not overlap
    lays it out, and changes no byte outside its own window.
   */
  lemma {:induction false} EmitEntryLays(v: Variant, s: Stream, e: Entry, strTable: nat, cur: Cursors, wd: bool, base: nat)
    requires s.pos == RecordAt(base, cur.entry)
    requires RecordAt(base, After(e, cur).entry) <= strTable <= cur.str
    requires After(e, cur).str <= cur.data
    ensures LaidNode(v, wd, EmitEntry(v, s, e, strTable, cur, wd).0.bytes, base, strTable, e, cur)
    ensures Kept(s.bytes, EmitEntry(v, s, e, strTable, cur, wd).0.bytes, Win(base, cur, After(e, cur)))
    decreases e, 1
  {
    var s4 := WriteNode(v, s, e, strTable, cur, wd);
    var nc, end := NodeCursors(e, cur), After(e, cur);
    var wc := Win(base, nc, end);
    WriteNodeLays(v, s, e, strTable, cur, wd, base);
    EmitChildrenLays(v, s4, e.children, strTable, nc, wd, base);
    var out := EmitChildren(v, s4, e.children, strTable, nc, wd).0;
    AtKept(s4.bytes, out.bytes, wc, s.pos, RecordBytes(NodeRecord(v, e, strTable, cur)));
    AtKept(s4.bytes, out.bytes, wc, cur.str, e.name + [0]);
    if WritesPayload(v, wd, e) {
      AtKept(s4.bytes, out.bytes, wc, AlignData(cur.data), Payload(e.data));
    }
    KeptTrans(s.bytes, s4.bytes, out.bytes, Win(base, cur, end), wc, Win(base, cur, end));
  }

  /** The payload write lands above the record and the name already written. */
  lemma WritePayloadKeeps(s: Stream, at: nat, p: seq<byte>, recAt: nat, rec: seq<byte>, nameAt: nat, name: seq<byte>)
    requires At(s.bytes, recAt, rec) && At(s.bytes, nameAt, name)
    requires recAt + |rec| <= at && nameAt + |name| <= at
    ensures At(WriteBytes(Seek(s, at), p).bytes, recAt, rec)
    ensures At(WriteBytes(Seek(s, at), p).bytes, nameAt, name)
  {
    WriteBytesEffect(Seek(s, at), p);
    AtTransfer(s.bytes, WriteBytes(Seek(s, at), p).bytes, recAt, rec, at, at + |p|);
    AtTransfer(s.bytes, WriteBytes(Seek(s, at), p).bytes, nameAt, name, at, at + |p|);
  }

  lemma {:induction false} EmitChildrenLays(v: Variant, s: Stream, kids: seq<Entry>, strTable: nat, cur: Cursors, wd: bool, base: nat)
    requires s.pos == RecordAt(base, cur.entry)
    requires RecordAt(base, AfterAll(kids, cur).entry) <= strTable <= cur.str
    requires AfterAll(kids, cur).str <= cur.data
    ensures Laid(v, wd, EmitChildren(v, s, kids, strTable, cur, wd).0.bytes, base, strTable, kids, cur)
    ensures Kept(s.bytes, EmitChildren(v, s, kids, strTable, cur, wd).0.bytes, Win(base, cur, AfterAll(kids, cur)))
    decreases kids, 0
  {
    if |kids| > 0 {
      var e, rest := kids[0], kids[1..];
      var mid := After(e, cur);
      AfterCons(kids, cur);
      var r1 := EmitEntry(v, s, e, strTable, cur, wd);
      EmitEntryLays(v, s, e, strTable, cur, wd, base);
      EmitEntryCursors(v, s, e, strTable, cur, wd);
      EmitChildrenLays(v, r1.0, rest, strTable, mid, wd, base);
      var out := EmitChildren(v, r1.0, rest, strTable, mid, wd).0;
      LaidCons(v, wd, s.bytes, r1.0.bytes, out.bytes, base, strTable, kids, cur);
    }
  }

  /** A first subtree and the siblings laid after it make the whole sequence laid. */
  lemma LaidCons(v: Variant, wd: bool, b0: seq<byte>, b1: seq<byte>, b2: seq<byte>, base: nat, strTable: nat, kids: seq<Entry>, cur: Cursors)
    requires |kids| > 0
    requires RecordAt(base, AfterAll(kids, cur).entry) <= strTable <= cur.str
    requires AfterAll(kids, cur).str <= cur.data
    requires LaidNode(v, wd, b1, base, strTable, kids[0], cur)
    requires Kept(b0, b1, Win(base, cur, After(kids[0], cur)))
    requires Laid(v, wd, b2, base, strTable, kids[1..], After(kids[0], cur))
    requires Kept(b1, b2, Win(base, After(kids[0], cur), AfterAll(kids, cur)))
    ensures Laid(v, wd, b2, base, strTable, kids, cur)
    ensures Kept(b0, b2, Win(base, cur, AfterAll(kids, cur)))
  {
    var mid, end := After(kids[0], cur), AfterAll(kids, cur);
    AfterCons(kids, cur);
    ConsWindows(base, strTable, cur, mid, end);
    LaidNodeKept(v, wd, b1, b2, base, strTable, kids[0], cur, Win(base, mid, end));
    KeptTrans(b0, b1, b2, Win(base, cur, mid), Win(base, mid, end), Win(base, cur, end));
  }

  /** The windows of a first subtree and of its later siblings. */
  lemma ConsWindows(base: nat, strTable: nat, cur: Cursors, mid: Cursors, end: Cursors)
    requires cur.entry <= mid.entry <= end.entry && cur.str <= mid.str <= end.str && cur.data <= mid.data <= end.data
    requires RecordAt(base, end.entry) <= strTable <= cur.str && end.str <= cur.data
    ensures ClearOf(Win(base, mid, end), base, cur, mid)
    ensures Within(Win(base, cur, mid), Win(base, cur, end)) && Within(Win(base, mid, end), Win(base, cur, end))
  {
  }

  /** The cursors after a first subtree lie between those before and after all of them. */
  lemma AfterCons(kids: seq<Entry>, cur: Cursors)
    requires |kids| > 0
    ensures var mid, end := After(kids[0], cur), AfterAll(kids, cur);
      && end == AfterAll(kids[1..], mid)
      && end.entry == cur.entry + SizeOf(kids) && end.str == cur.str + NamesSize(kids)
      && cur.entry <= mid.entry <= end.entry && cur.str <= mid.str <= end.str && cur.data <= mid.data <= end.data
  {
  }

  // ---------------------------------------------------------------------
  // The reader recovers a laid-out table
  // ---------------------------------------------------------------------

  /** Every name of the subtrees can be recovered by the reader. */
  predicate NamesOk(kids: seq<Entry>)
    decreases kids
  {
    forall i :: 0 <= i < |kids| ==> NameOk(kids[i].name) && NamesOk(kids[i].children)
  }

  /**
    `got` is what the reader makes of the emitted form of `e` in `b`: the
    same name; for an entry written as a directory, no data and children
    that read back as its children; for one written as a file, no children
    and a reference of the same length into `b`, which holds the payload
    when one was written.
   */
  predicate ReadsBack(v: Variant, wd: bool, b: seq<byte>, got: Entry, e: Entry)
    decreases e, 1
  {
    && got.name == e.name
    && if IsDir(v, e) then
         got.data == NoRef && ReadsBackAll(v, wd, b, got.children, e.children)
       else
         && got.children == []
         && got.data.StreamRef? && got.data.strm.Some? && got.data.strm.value.bytes == b
         && got.data.len == e.data.Len()
         && (WritesPayload(v, wd, e) ==> ReadRef(got.data) == Ok(Payload(e.data)))
  }

  predicate ReadsBackAll(v: Variant, wd: bool, b: seq<byte>, gots: seq<Entry>, es: seq<Entry>)
    decreases es, 0
  {
    |gots| == |es| &&
    (|es| == 0 || (ReadsBack(v, wd, b, gots[0], es[0]) && ReadsBackAll(v, wd, b, gots[1..], es[1..])))
  }

  /** The offsets a table emitted up to the cursors `end` needs fit the record fields. */
  predicate Fits(strTable: nat, end: Cursors)
  {
    end.entry < U32Limit && end.str <= strTable + 0x100_0000 && end.data < U32Limit
  }

  /** The record of a node whose subtree fits the field widths fits them too. */
  lemma NodeRecordFits(v: Variant, e: Entry, strTable: nat, cur: Cursors)
    requires strTable <= cur.str && Fits(strTable, After(e, cur))
    ensures RecordFits(NodeRecord(v, e, strTable, cur))
  {
    FieldLimits();
    var nc := NodeCursors(e, cur);
    assert After(e, cur) == AfterAll(e.children, nc);
  }

  /**
    The corrected directory test recognises exactly what the reader built
    from a flag-1 record, so the corrected writer gives every entry it
    re-emits the flag it was read with; the as-written test also calls such
    an entry a directory only when it has children.
   */
  lemma ReadEntryIsDir(s: Stream, strTable: nat, cur: nat, t: nat, c: Cursors)
    requires ReadEntry(s, strTable, cur).Ok?
    ensures var e := ReadEntry(s, strTable, cur).value.value;
      var rec := ReadRecord(s).value.value;
      && (IsDir(Corrected, e) <==> rec.flags == 1)
      && (IsDir(AsWritten, e) <==> rec.flags == 1 && |e.children| > 0)
      && (NodeRecord(Corrected, e, t, c).flags == 1 <==> rec.flags == 1)
  {
  }

  /**
    What the reader makes of the emitted form of `e` in the stream `s`: an
    entry written as a directory comes back with no data and its children
    recovered; one written as a file comes back as a reference to its
    record's A and B fields in `s`.
   */
  function Recovered(v: Variant, s: Stream, base: nat, e: Entry, cur: Cursors): Entry
    decreases e, 1
  {
    if IsDir(v, e) then Entry(e.name, NoRef, RecoveredAll(v, s, base, e.children, NodeCursors(e, cur)))
    else Entry(e.name, StreamRef(Some(Seek(s, RecordAt(base, cur.entry))), AlignData(cur.data) % 0x1_0000_0000, e.data.Len()), [])
  }

  function RecoveredAll(v: Variant, s: Stream, base: nat, kids: seq<Entry>, cur: Cursors): seq<Entry>
    decreases kids, 0
  {
    if |kids| == 0 then [] else [Recovered(v, s, base, kids[0], cur)] + RecoveredAll(v, s, base, kids[1..], After(kids[0], cur))
  }

  /**
    The reader's steps. Each is stated on the streams and counters the
    reader itself passes along, so that the layout lemmas below can chain
    them without restating one reader call as another.
   */

  /** A directory record: its children are read from the record after it, up to its B. */
  lemma ReadDirStep(s: Stream, strTable: nat, i: nat, rec: Record, name: seq<byte>, k: Stream, kids: seq<Entry>, rest: Stream, next: nat)
    requires ReadRecord(s) == Ok(Got(rec, k))
    requires GrabFilename(k, strTable + rec.nameOffset) == Ok(Got(name, k))
    requires rec.flags == 1
    requires ReadChildren(k, strTable, i + 1, rec.b) == Ok(Parsed(kids, rest, next))
    ensures ReadEntry(s, strTable, i) == Ok(Parsed(Entry(name, NoRef, kids), rest, next))
  {
  }

  /** The directory loop depends on its counters only through their values. */
  lemma ReadChildrenRenamed(k: Stream, strTable: nat, i: nat, bound: nat, i': nat, bound': nat, got: Result<Parsed<seq<Entry>>>)
    requires i == i' && bound == bound'
    requires ReadChildren(k, strTable, i, bound) == got
    ensures ReadChildren(k, strTable, i', bound') == got
  {
  }

  /** The directory step with the loop's counters given by value. */
  lemma ReadDirStepAt(s: Stream, strTable: nat, i: nat, rec: Record, name: seq<byte>, k: Stream,
                      first: nat, bound: nat, kids: seq<Entry>, rest: Stream, next: nat)
    requires ReadRecord(s) == Ok(Got(rec, k))
    requires GrabFilename(k, strTable + rec.nameOffset) == Ok(Got(name, k))
    requires rec.flags == 1 && first == i + 1 && bound == rec.b
    requires ReadChildren(k, strTable, first, bound) == Ok(Parsed(kids, rest, next))
    ensures ReadEntry(s, strTable, i) == Ok(Parsed(Entry(name, NoRef, kids), rest, next))
  {
    ReadChildrenRenamed(k, strTable, first, bound, i + 1, rec.b, Ok(Parsed(kids, rest, next)));
    ReadDirStep(s, strTable, i, rec, name, k, kids, rest, next);
  }

  /** A file record: a reference to its A and B in the stream at the record. */
  lemma ReadFileStep(s: Stream, strTable: nat, i: nat, rec: Record, name: seq<byte>, k: Stream)
    requires ReadRecord(s) == Ok(Got(rec, k))
    requires GrabFilename(k, strTable + rec.nameOffset) == Ok(Got(name, k))
    requires rec.flags != 1
    ensures ReadEntry(s, strTable, i) == Ok(Parsed(Entry(name, StreamRef(Some(s), rec.a, rec.b), []), k, i + 1))
  {
  }

  /** The directory loop below its bound: an entry, then the rest of the loop. */
  lemma ReadChildrenStep(s: Stream, strTable: nat, i: nat, bound: nat, e: Entry, s1: Stream, i1: nat,
                         more: seq<Entry>, rest: Stream, next: nat)
    requires i < bound
    requires ReadEntry(s, strTable, i) == Ok(Parsed(e, s1, i1))
    requires ReadChildren(s1, strTable, i1, bound) == Ok(Parsed(more, rest, next))
    ensures ReadChildren(s, strTable, i, bound) == Ok(Parsed([e] + more, rest, next))
  {
  }

  /** The record and the name of a laid-out node read back. */
  lemma ReadHeadLaid(v: Variant, wd: bool, s0: Stream, s: Stream, base: nat, strTable: nat, e: Entry, cur: Cursors)
    requires LaidNode(v, wd, s0.bytes, base, strTable, e, cur)
    requires s == Seek(s0, RecordAt(base, cur.entry))
    requires strTable <= cur.str && NameOk(e.name)
    requires Fits(strTable, After(e, cur))
    ensures var rec, k := NodeRecord(v, e, strTable, cur), Seek(s0, RecordAt(base, NodeCursors(e, cur).entry));
      && ReadRecord(s) == Ok(Got(rec, k))
      && GrabFilename(k, strTable + rec.nameOffset) == Ok(Got(e.name, k))
  {
    var rec := NodeRecord(v, e, strTable, cur);
    NodeRecordFits(v, e, strTable, cur);
    ReadRecordAt(s, rec);
    GrabFilenameAt(Seek(s0, RecordAt(base, cur.entry + 1)), strTable + rec.nameOffset, e.name);
  }

  /** How the cursors and the recovered entry of a directory unfold. */
  lemma DirFacts(v: Variant, s0: Stream, base: nat, strTable: nat, e: Entry, cur: Cursors)
    requires IsDir(v, e)
    ensures var nc := NodeCursors(e, cur);
      && After(e, cur) == AfterAll(e.children, nc)
      && NodeRecord(v, e, strTable, cur).flags == 1
      && NodeRecord(v, e, strTable, cur).b == AfterAll(e.children, nc).entry
      && nc.entry == cur.entry + 1
      && Recovered(v, s0, base, e, cur) == Entry(e.name, NoRef, RecoveredAll(v, s0, base, e.children, nc))
  {
  }

  /** How the cursors and the recovered entry of a file unfold. */
  lemma FileFacts(v: Variant, s0: Stream, base: nat, strTable: nat, e: Entry, cur: Cursors)
    requires !IsDir(v, e) && Fits(strTable, After(e, cur))
    ensures var rec := NodeRecord(v, e, strTable, cur);
      && rec.flags == 0
      && Recovered(v, s0, base, e, cur) == Entry(e.name, StreamRef(Some(Seek(s0, RecordAt(base, cur.entry))), rec.a, rec.b), [])
      && After(e, cur) == NodeCursors(e, cur)
  {
    assert After(e, cur) == NodeCursors(e, cur);
  }

  /**
    The reader, started at the record of a laid-out subtree in `s0` with the
    counter at that record's index, recovers the subtree and stops at the
    record after it.
   */
  lemma {:induction false} ReadEntryLaid(v: Variant, wd: bool, s0: Stream, s: Stream, base: nat, strTable: nat, e: Entry, cur: Cursors, i: nat)
    requires LaidNode(v, wd, s0.bytes, base, strTable, e, cur)
    requires s == Seek(s0, RecordAt(base, cur.entry)) && i == cur.entry
    requires strTable <= cur.str
    requires NameOk(e.name) && NamesOk(e.children)
    requires Fits(strTable, After(e, cur))
    ensures ReadEntry(s, strTable, i) ==
      Ok(Parsed(Recovered(v, s0, base, e, cur), Seek(s0, RecordAt(base, After(e, cur).entry)), After(e, cur).entry))
    decreases e, 1
  {
    ReadHeadLaid(v, wd, s0, s, base, strTable, e, cur);
    if IsDir(v, e) {
      ReadDirLaid(v, wd, s0, s, base, strTable, e, cur, i);
    } else {
      FileFacts(v, s0, base, strTable, e, cur);
      ReadFileStep(s, strTable, i, NodeRecord(v, e, strTable, cur), e.name, Seek(s0, RecordAt(base, NodeCursors(e, cur).entry)));
    }
  }

  lemma {:induction false} ReadDirLaid(v: Variant, wd: bool, s0: Stream, s: Stream, base: nat, strTable: nat, e: Entry, cur: Cursors, i: nat)
    requires IsDir(v, e)
    requires LaidNode(v, wd, s0.bytes, base, strTable, e, cur)
    requires s == Seek(s0, RecordAt(base, cur.entry)) && i == cur.entry
    requires strTable <= cur.str
    requires NamesOk(e.children)
    requires Fits(strTable, After(e, cur))
    requires var rec, k := NodeRecord(v, e, strTable, cur), Seek(s0, RecordAt(base, NodeCursors(e, cur).entry));
      && ReadRecord(s) == Ok(Got(rec, k))
      && GrabFilename(k, strTable + rec.nameOffset) == Ok(Got(e.name, k))
    ensures ReadEntry(s, strTable, i) ==
      Ok(Parsed(Recovered(v, s0, base, e, cur), Seek(s0, RecordAt(base, After(e, cur).entry)), After(e, cur).entry))
    decreases e, 0
  {
    var nc := NodeCursors(e, cur);
    ReadChildrenLaid(v, wd, s0, Seek(s0, RecordAt(base, nc.entry)), base, strTable, e.children, nc, nc.entry, AfterAll(e.children, nc).entry);
    ReadDirNode(v, s0, s, base, strTable, e, cur, i);
  }

  /** The directory step in the terms of the subtree, once its children are known to read back. */
  lemma ReadDirNode(v: Variant, s0: Stream, s: Stream, base: nat, strTable: nat, e: Entry, cur: Cursors, i: nat)
    requires IsDir(v, e)
    requires var rec, k := NodeRecord(v, e, strTable, cur), Seek(s0, RecordAt(base, NodeCursors(e, cur).entry));
      && ReadRecord(s) == Ok(Got(rec, k))
      && GrabFilename(k, strTable + rec.nameOffset) == Ok(Got(e.name, k))
    requires i == cur.entry
    requires var nc := NodeCursors(e, cur);
      ReadChildren(Seek(s0, RecordAt(base, nc.entry)), strTable, nc.entry, AfterAll(e.children, nc).entry) ==
      Ok(Parsed(RecoveredAll(v, s0, base, e.children, nc), Seek(s0, RecordAt(base, AfterAll(e.children, nc).entry)), AfterAll(e.children, nc).entry))
    ensures ReadEntry(s, strTable, i) ==
      Ok(Parsed(Recovered(v, s0, base, e, cur), Seek(s0, RecordAt(base, After(e, cur).entry)), After(e, cur).entry))
  {
    var rec, nc := NodeRecord(v, e, strTable, cur), NodeCursors(e, cur);
    DirFacts(v, s0, base, strTable, e, cur);
    var end := AfterAll(e.children, nc);
    ReadDirStepAt(s, strTable, i, rec, e.name, Seek(s0, RecordAt(base, nc.entry)), nc.entry, end.entry,
      RecoveredAll(v, s0, base, e.children, nc), Seek(s0, RecordAt(base, end.entry)), end.entry);
  }

  /** How the cursors, the layout and the recovered entries of a non-empty sequence unfold. */
  lemma ChildrenFacts(v: Variant, wd: bool, s0: Stream, base: nat, strTable: nat, kids: seq<Entry>, cur: Cursors)
    requires |kids| > 0
    requires Laid(v, wd, s0.bytes, base, strTable, kids, cur)
    requires strTable <= cur.str && NamesOk(kids) && Fits(strTable, AfterAll(kids, cur))
    ensures var mid := After(kids[0], cur);
      && LaidNode(v, wd, s0.bytes, base, strTable, kids[0], cur)
      && NameOk(kids[0].name) && NamesOk(kids[0].children) && Fits(strTable, mid)
      && Laid(v, wd, s0.bytes, base, strTable, kids[1..], mid)
      && strTable <= mid.str && NamesOk(kids[1..])
      && AfterAll(kids[1..], mid) == AfterAll(kids, cur)
      && cur.entry < mid.entry
      && RecoveredAll(v, s0, base, kids, cur) == [Recovered(v, s0, base, kids[0], cur)] + RecoveredAll(v, s0, base, kids[1..], mid)
  {
    AfterCons(kids, cur);
    assert NamesOk(kids[1..]) by {
      forall i | 0 <= i < |kids[1..]| ensures NameOk(kids[1..][i].name) && NamesOk(kids[1..][i].children) {
        assert kids[1..][i] == kids[i + 1];
      }
    }
  }

  /**
    The directory loop, started at the first record of laid-out siblings with
    the counter at its index and the bound one past their last descendant,
    recovers them all.
   */
  lemma {:induction false} ReadChildrenLaid(v: Variant, wd: bool, s0: Stream, s: Stream, base: nat, strTable: nat, kids: seq<Entry>, cur: Cursors, i: nat, bound: nat)
    requires Laid(v, wd, s0.bytes, base, strTable, kids, cur)
    requires s == Seek(s0, RecordAt(base, cur.entry)) && i == cur.entry && bound == AfterAll(kids, cur).entry
    requires strTable <= cur.str
    requires NamesOk(kids)
    requires Fits(strTable, AfterAll(kids, cur))
    ensures ReadChildren(s, strTable, i, bound) ==
      Ok(Parsed(RecoveredAll(v, s0, base, kids, cur), Seek(s0, RecordAt(base, AfterAll(kids, cur).entry)), AfterAll(kids, cur).entry))
    decreases kids, 0
  {
    if |kids| > 0 {
      var mid := After(kids[0], cur);
      var s1 := Seek(s0, RecordAt(base, mid.entry));
      ChildrenFacts(v, wd, s0, base, strTable, kids, cur);
      ReadEntryLaid(v, wd, s0, s, base, strTable, kids[0], cur, i);
      ReadChildrenLaid(v, wd, s0, s1, base, strTable, kids[1..], mid, mid.entry, bound);
      ReadChildrenStep(s, strTable, i, bound, Recovered(v, s0, base, kids[0], cur), s1, mid.entry,
        RecoveredAll(v, s0, base, kids[1..], mid), Seek(s0, RecordAt(base, AfterAll(kids[1..], mid).entry)), AfterAll(kids[1..], mid).entry);
    }
  }

  /** What the reader recovers from a laid-out subtree means what was written. */
  lemma {:induction false} RecoveredReadsBack(v: Variant, wd: bool, s0: Stream, base: nat, strTable: nat, e: Entry, cur: Cursors)
    requires LaidNode(v, wd, s0.bytes, base, strTable, e, cur)
    requires Fits(strTable, After(e, cur))
    ensures ReadsBack(v, wd, s0.bytes, Recovered(v, s0, base, e, cur), e)
    decreases e, 1
  {
    if IsDir(v, e) {
      RecoveredAllReadsBack(v, wd, s0, base, strTable, e.children, NodeCursors(e, cur));
    } else {
      FileFacts(v, s0, base, strTable, e, cur);
    }
  }

  lemma {:induction false} RecoveredAllReadsBack(v: Variant, wd: bool, s0: Stream, base: nat, strTable: nat, kids: seq<Entry>, cur: Cursors)
    requires Laid(v, wd, s0.bytes, base, strTable, kids, cur)
    requires Fits(strTable, AfterAll(kids, cur))
    ensures ReadsBackAll(v, wd, s0.bytes, RecoveredAll(v, s0, base, kids, cur), kids)
    decreases kids, 0
  {
    if |kids| > 0 {
      var mid := After(kids[0], cur);
      AfterCons(kids, cur);
      RecoveredReadsBack(v, wd, s0, base, strTable, kids[0], cur);
      RecoveredAllReadsBack(v, wd, s0, base, strTable, kids[1..], mid);
    }
  }

  // ---------------------------------------------------------------------
  // A whole table: written, then read back
  // ---------------------------------------------------------------------

  /** The body of the writer leaves the root record at the cursor. */
  lemma EmitTableRoot(v: Variant, root: Entry, s: Stream, count: nat, strSize: nat, wd: bool, out: Stream)
    requires count == Size(root) && RecordAt(s.pos, count) + NamesSize(root.children) <= TableCursors(s.pos, count, strSize).data
    requires out == EmitTable(v, root, s, count, strSize, wd)
    ensures At(out.bytes, s.pos, RecordBytes(RootRecord(count)))
  {
    var base, kids, rec := s.pos, root.children, RootRecord(count);
    var cur := TableCursors(base, count, strSize);
    var s1 := WriteRecord(s, rec);
    WriteRecordAt(s, rec);
    EmitChildrenKeeps(v, s1, kids, RecordAt(base, count), cur, wd, base);
    RootKept(s1.bytes, out.bytes, base, cur, AfterAll(kids, cur), RecordBytes(rec));
  }

  /**
    The body of the writer lays out the children after the root record,
    names from the end of the records on and data above the names, given
    the true record count and data that starts above the names.
   */
  lemma EmitTableLays(v: Variant, root: Entry, s: Stream, count: nat, strSize: nat, wd: bool, out: Stream)
    requires count == Size(root) && RecordAt(s.pos, count) + NamesSize(root.children) <= TableCursors(s.pos, count, strSize).data
    requires out == EmitTable(v, root, s, count, strSize, wd)
    ensures var cur := TableCursors(s.pos, count, strSize);
      && Laid(v, wd, out.bytes, s.pos, RecordAt(s.pos, count), root.children, cur)
      && out.pos == RecordAt(s.pos, count)
      && AfterAll(root.children, cur).entry == count
  {
    var rec := RootRecord(count);
    WriteRecordAt(s, rec);
    EmitChildrenLays(v, WriteRecord(s, rec), root.children, RecordAt(s.pos, count), TableCursors(s.pos, count, strSize), wd, s.pos);
  }

  /** The part of `EmitChildrenLays` about the bytes outside the window. */
  lemma EmitChildrenKeeps(v: Variant, s: Stream, kids: seq<Entry>, strTable: nat, cur: Cursors, wd: bool, base: nat)
    requires s.pos == RecordAt(base, cur.entry)
    requires RecordAt(base, AfterAll(kids, cur).entry) <= strTable <= cur.str
    requires AfterAll(kids, cur).str <= cur.data
    ensures Kept(s.bytes, EmitChildren(v, s, kids, strTable, cur, wd).0.bytes, Win(base, cur, AfterAll(kids, cur)))
  {
    EmitChildrenLays(v, s, kids, strTable, cur, wd, base);
  }

  /** The root record lies below every window of its children. */
  lemma RootKept(b: seq<byte>, b': seq<byte>, base: nat, cur: Cursors, end: Cursors, x: seq<byte>)
    requires At(b, base, x) && |x| == RecordSize
    requires Kept(b, b', Win(base, cur, end))
    requires cur.entry == 1 && base + RecordSize <= cur.str <= cur.data
    ensures At(b', base, x)
  {
    AtKept(b, b', Win(base, cur, end), base, x);
  }

  /** The corrected `fst::write` is its body with the true record count and name-table size. */
  lemma WriteFstIs(root: Entry, s: Stream, wd: bool, out: Stream)
    requires WriteFst(root, s, wd) == Ok(out)
    ensures out == EmitTable(Corrected, root, s, Size(root), NamesSize(root.children), wd)
  {
    WriteFstUnfold(root, s, wd, out);
    PreflightRoot(root);
  }

  lemma WriteFstUnfold(root: Entry, s: Stream, wd: bool, out: Stream)
    requires WriteFst(root, s, wd) == Ok(out)
    ensures out == EmitTable(Corrected, root, s, Preflight(root, 0, 0).0, Preflight(root, 0, 0).1, wd)
  {
  }

  lemma PreflightRoot(root: Entry)
    ensures Preflight(root, 0, 0) == (Size(root), NamesSize(root.children))
  {
  }

  /** Data starts above the names when the name table is given its true size. */
  lemma DataAboveNames(base: nat, count: nat, strSize: nat)
    ensures RecordAt(base, count) + strSize <= TableCursors(base, count, strSize).data
  {
  }



  /** `fst::read` over a root record without surprises and the children after it. */
  lemma ReadFstStep(s: Stream, rec: Record, k: Stream, kids: seq<Entry>, rest: Stream, next: nat)
    requires ReadRecord(s) == Ok(Got(rec, k))
    requires rec.flags == 1 && rec.nameOffset == 0 && rec.a == 0
    requires ReadChildren(k, RecordAt(s.pos, rec.b), 1, rec.b) == Ok(Parsed(kids, rest, next))
    ensures ReadFst(EmptyRoot, s) == Ok(FstRead(Entry([], NoRef, kids), {}, rest))
  {
    assert EmptyRoot.children + kids == kids;
  }

  /** The reader recovers a laid-out table: the root record, then the children. */
  lemma ReadFstLaid(v: Variant, wd: bool, s0: Stream, base: nat, kids: seq<Entry>, count: nat, strSize: nat)
    requires At(s0.bytes, base, RecordBytes(RootRecord(count)))
    requires Laid(v, wd, s0.bytes, base, RecordAt(base, count), kids, TableCursors(base, count, strSize))
    requires AfterAll(kids, TableCursors(base, count, strSize)).entry == count
    requires NamesOk(kids) && Fits(RecordAt(base, count), AfterAll(kids, TableCursors(base, count, strSize)))
    ensures ReadFst(EmptyRoot, Seek(s0, base)) ==
      Ok(FstRead(Entry([], NoRef, RecoveredAll(v, s0, base, kids, TableCursors(base, count, strSize))), {}, Seek(s0, RecordAt(base, count))))
  {
    var cur := TableCursors(base, count, strSize);
    var k := Seek(s0, RecordAt(base, cur.entry));
    FieldLimits();
    ReadRecordAt(Seek(s0, base), RootRecord(count));
    ReadChildrenLaid(v, wd, s0, k, base, RecordAt(base, count), kids, cur, cur.entry, AfterAll(kids, cur).entry);
    ReadFstStep(Seek(s0, base), RootRecord(count), k, RecoveredAll(v, s0, base, kids, cur), Seek(s0, RecordAt(base, count)), count);
  }

  /**
    The record count, the name offsets and the data offsets of the table of
    `root` written at `base` fit the 32-bit and 24-bit fields they are
    stored in.
   */
  predicate TableFits(root: Entry, base: nat)
  {
    var count := Size(root);
    Fits(RecordAt(base, count), AfterAll(root.children, TableCursors(base, count, NamesSize(root.children))))
  }

  /**
    Write, then read, for either variant: the table the writer's body lays
    out reads back as a root without warnings whose children are the ones
    recovered from the layout, and the reader stops where the writer stopped.
   */
  lemma EmitTableReads(v: Variant, root: Entry, s: Stream, count: nat, strSize: nat, wd: bool, out: Stream)
    requires count == Size(root) && RecordAt(s.pos, count) + NamesSize(root.children) <= TableCursors(s.pos, count, strSize).data
    requires out == EmitTable(v, root, s, count, strSize, wd)
    requires NamesOk(root.children) && Fits(RecordAt(s.pos, count), AfterAll(root.children, TableCursors(s.pos, count, strSize)))
    ensures ReadFst(EmptyRoot, Seek(out, s.pos)) ==
      Ok(FstRead(Entry([], NoRef, RecoveredAll(v, out, s.pos, root.children, TableCursors(s.pos, count, strSize))), {}, out))
    ensures Laid(v, wd, out.bytes, s.pos, RecordAt(s.pos, count), root.children, TableCursors(s.pos, count, strSize))
  {
    EmitTableRoot(v, root, s, count, strSize, wd, out);
    EmitTableLays(v, root, s, count, strSize, wd, out);
    ReadFstLaid(v, wd, out, s.pos, root.children, count, strSize);
  }

  /**
    Write, then read: the corrected `fst::write` of a tree whose names the
    reader can recover and whose offsets fit their fields reads back with
    `fst::read` into a root without warnings whose children mean the
    children written, and the reader stops where the writer stopped.
   */
  lemma WriteFstReadsBack(root: Entry, s: Stream, wd: bool, out: Stream)
    requires WriteFst(root, s, wd) == Ok(out)
    requires NamesOk(root.children) && TableFits(root, s.pos)
    ensures ReadFst(EmptyRoot, Seek(out, s.pos)).Ok?
    ensures var r := ReadFst(EmptyRoot, Seek(out, s.pos)).value;
      && r.warnings == {} && r.root.name == [] && r.root.data == NoRef && r.rest == out
      && ReadsBackAll(Corrected, wd, out.bytes, r.root.children, root.children)
  {
    var count, strSize := Size(root), NamesSize(root.children);
    WriteFstReads(root, s, wd, out);
    RecoveredAllReadsBack(Corrected, wd, out, s.pos, RecordAt(s.pos, count), root.children, TableCursors(s.pos, count, strSize));
  }

  /** The corrected writer's table is laid out and reads back as its recovered children. */
  lemma WriteFstReads(root: Entry, s: Stream, wd: bool, out: Stream)
    requires WriteFst(root, s, wd) == Ok(out)
    requires NamesOk(root.children) && TableFits(root, s.pos)
    ensures var count, strSize := Size(root), NamesSize(root.children);
      var cur := TableCursors(s.pos, count, strSize);
      && Laid(Corrected, wd, out.bytes, s.pos, RecordAt(s.pos, count), root.children, cur)
      && Fits(RecordAt(s.pos, count), AfterAll(root.children, cur))
      && ReadFst(EmptyRoot, Seek(out, s.pos)) == Ok(FstRead(Entry([], NoRef, RecoveredAll(Corrected, out, s.pos, root.children, cur)), {}, out))
  {
    WriteFstIs(root, s, wd, out);
    DataAboveNames(s.pos, Size(root), NamesSize(root.children));
    EmitTableReads(Corrected, root, s, Size(root), NamesSize(root.children), wd, out);
  }

  // ---------------------------------------------------------------------
  // Nothing below the table is touched
  // ---------------------------------------------------------------------

  /** One node's writes all land at or above its record, name and data cursors. */
  lemma WriteNodeKeepsBelow(v: Variant, s: Stream, e: Entry, strTable: nat, cur: Cursors, wd: bool, lo: nat)
    requires lo <= s.pos && lo <= cur.str && lo <= cur.data
    ensures KeptBelow(s.bytes, WriteNode(v, s, e, strTable, cur, wd).bytes, lo)
  {
    var r := NodeRecord(v, e, strTable, cur);
    var a := WriteBE(s, r.flags, 1);
    var b := WriteBE(a, r.nameOffset, 3);
    var c := WriteBE(b, r.a, 4);
    var s1 := WriteBE(c, r.b, 4);
    WriteKeepsBelow(s, EncodeBE(r.flags, 1), lo);
    WriteKeepsBelow(a, EncodeBE(r.nameOffset, 3), lo);
    WriteKeepsBelow(b, EncodeBE(r.a, 4), lo);
    WriteKeepsBelow(c, EncodeBE(r.b, 4), lo);
    var s2 := WriteBytes(Seek(s1, cur.str), e.name + [0]);
    WriteKeepsBelow(Seek(s1, cur.str), e.name + [0], lo);
    if WritesPayload(v, wd, e) {
      WriteKeepsBelow(Seek(s2, AlignData(cur.data)), Payload(e.data), lo);
    }
  }

  /** A subtree emitted from cursors at or above `lo` leaves the bytes below `lo` alone. */
  lemma {:induction false} EmitEntryKeepsBelow(v: Variant, s: Stream, e: Entry, strTable: nat, cur: Cursors, wd: bool, lo: nat)
    requires lo <= s.pos && lo <= cur.str && lo <= cur.data
    ensures KeptBelow(s.bytes, EmitEntry(v, s, e, strTable, cur, wd).0.bytes, lo)
    decreases e, 1
  {
    var s1 := WriteNode(v, s, e, strTable, cur, wd);
    WriteNodeKeepsBelow(v, s, e, strTable, cur, wd, lo);
    EmitChildrenKeepsBelow(v, s1, e.children, strTable, NodeCursors(e, cur), wd, lo);
  }

  lemma {:induction false} EmitChildrenKeepsBelow(v: Variant, s: Stream, kids: seq<Entry>, strTable: nat, cur: Cursors, wd: bool, lo: nat)
    requires lo <= s.pos && lo <= cur.str && lo <= cur.data
    ensures KeptBelow(s.bytes, EmitChildren(v, s, kids, strTable, cur, wd).0.bytes, lo)
    decreases kids, 0
  {
    if |kids| > 0 {
      var r1 := EmitEntry(v, s, kids[0], strTable, cur, wd);
      EmitEntryKeepsBelow(v, s, kids[0], strTable, cur, wd, lo);
      EmitChildrenKeepsBelow(v, r1.0, kids[1..], strTable, r1.1, wd, lo);
    }
  }

  /** Either writer's table leaves every byte below its start alone. */
  lemma EmitTableKeepsBelow(v: Variant, root: Entry, s: Stream, count: nat, strSize: nat, wd: bool)
    ensures KeptBelow(s.bytes, EmitTable(v, root, s, count, strSize, wd).bytes, s.pos)
  {
    var rec := RootRecord(count);
    var s1 := WriteRecord(s, rec);
    WriteRecordBytes(s, rec);
    WriteKeepsBelow(s, RecordBytes(rec), s.pos);
    EmitChildrenKeepsBelow(v, s1, root.children, RecordAt(s.pos, count), TableCursors(s.pos, count, strSize), wd, s.pos);
  }
}
