/**
  The two defects of the file system table writer, each shown on a small
  tree, next to what the corrected writer makes of the same tree.
 */
module FstFindings {
  import opened Bytes
  import opened Streams
  import opened DataRefs
  import opened Variants
  import opened Fst
  import opened FstProofs

  /** An empty, writable stream with its cursor at 0. */
  const Blank: Stream := Stream([], 0, true, true, true)

  // ---------------------------------------------------------------------
  // The preflight pass as written never sizes the name table
  // ---------------------------------------------------------------------

  /** As written, the table is emitted with the true record count and a zero-byte name table. */
  lemma WriteFstAsWrittenIs(root: Entry, s: Stream, wd: bool, out: Stream)
    requires WriteFstAsWritten(root, s, wd) == Ok(out)
    ensures out == EmitTable(AsWritten, root, s, Size(root), 0, wd)
  {
    WriteFstAsWrittenUnfold(root, s, wd, out);
    PreflightAsWrittenRoot(root);
  }

  lemma WriteFstAsWrittenUnfold(root: Entry, s: Stream, wd: bool, out: Stream)
    requires WriteFstAsWritten(root, s, wd) == Ok(out)
    ensures out == EmitTable(AsWritten, root, s, PreflightAsWritten(root, 0, 0).0, PreflightAsWritten(root, 0, 0).1, wd)
  {
  }

  lemma PreflightAsWrittenRoot(root: Entry)
    ensures PreflightAsWritten(root, 0, 0) == (Size(root), 0)
  {
  }

  // ---------------------------------------------------------------------
  // An empty directory is written as a file
  // ---------------------------------------------------------------------

  /** A directory `d` without children or data. */
  const EmptyDir: Entry := Entry([0x64], NoRef, [])

  /** A root holding only `EmptyDir`. */
  const EmptyDirRoot: Entry := Entry([], NoRef, [EmptyDir])

  lemma EmptyDirSizes()
    ensures Size(EmptyDirRoot) == 2 && NamesSize(EmptyDirRoot.children) == 2
  {
    assert EmptyDirRoot.children == [EmptyDir] && EmptyDirRoot.children[1..] == [];
    assert Size(EmptyDir) == 1 && NameSize(EmptyDir) == 2;
  }

  lemma EmptyDirNames()
    ensures NamesOk(EmptyDirRoot.children)
  {
    assert NameOk(EmptyDir.name) && NamesOk(EmptyDir.children);
  }

  /** The cursors after `EmptyDir` as a first child, with data from 4096 on. */
  lemma EmptyDirAfter()
    ensures AfterAll(EmptyDirRoot.children, Cursors(1, 24, 4096)) == Cursors(2, 26, 4096)
  {
    assert EmptyDirRoot.children == [EmptyDir] && EmptyDirRoot.children[1..] == [];
    assert NodeCursors(EmptyDir, Cursors(1, 24, 4096)) == Cursors(2, 26, 4096);
  }

  /** The table of `EmptyDirRoot` at the start of `Blank` with a zero-byte name table. */
  lemma EmptyDirTable(strSize: nat)
    requires strSize <= 2
    ensures RecordAt(Blank.pos, Size(EmptyDirRoot)) + NamesSize(EmptyDirRoot.children) <= TableCursors(Blank.pos, Size(EmptyDirRoot), strSize).data
    ensures Fits(RecordAt(Blank.pos, Size(EmptyDirRoot)), AfterAll(EmptyDirRoot.children, TableCursors(Blank.pos, Size(EmptyDirRoot), strSize)))
  {
    EmptyDirSizes();
    assert TableCursors(0, 2, strSize) == Cursors(1, 24, 4096);
    EmptyDirAfter();
  }

  /**
    Written as written and read back, the empty directory `d` comes back as
    a file: its record carries flag 0, so the reader gives it a reference
    to data instead of a directory's none.
   */
  lemma EmptyDirReadsAsFile(out: Stream)
    requires WriteFstAsWritten(EmptyDirRoot, Blank, false) == Ok(out)
    ensures ReadFst(EmptyRoot, Seek(out, Blank.pos)).Ok?
    ensures var kids := ReadFst(EmptyRoot, Seek(out, Blank.pos)).value.root.children;
      |kids| == 1 && kids[0].name == [0x64] && kids[0].data.StreamRef? && kids[0].children == []
  {
    WriteFstAsWrittenIs(EmptyDirRoot, Blank, false, out);
    EmptyDirNames();
    EmptyDirTable(0);
    EmitTableReads(AsWritten, EmptyDirRoot, Blank, Size(EmptyDirRoot), 0, false, out);
    EmptyDirRecoveredAsWritten(out, Blank.pos, TableCursors(Blank.pos, Size(EmptyDirRoot), 0));
  }

  /** As written, `EmptyDir` is recovered as a file. */
  lemma EmptyDirRecoveredAsWritten(out: Stream, base: nat, cur: Cursors)
    ensures var kids := RecoveredAll(AsWritten, out, base, EmptyDirRoot.children, cur);
      |kids| == 1 && kids[0].name == [0x64] && kids[0].data.StreamRef? && kids[0].children == []
  {
    assert EmptyDirRoot.children == [EmptyDir] && EmptyDirRoot.children[1..] == [];
    assert !IsDir(AsWritten, EmptyDir);
  }

  /** The corrected writer's table of the same tree brings `d` back as a directory with no children. */
  lemma EmptyDirReadsAsDir(out: Stream)
    requires WriteFst(EmptyDirRoot, Blank, false) == Ok(out)
    ensures ReadFst(EmptyRoot, Seek(out, Blank.pos)).Ok?
    ensures ReadFst(EmptyRoot, Seek(out, Blank.pos)).value.root.children == [Entry([0x64], NoRef, [])]
  {
    EmptyDirFits();
    WriteFstReadsBack(EmptyDirRoot, Blank, false, out);
    EmptyDirReadsBack(out.bytes, ReadFst(EmptyRoot, Seek(out, Blank.pos)).value.root.children);
  }

  lemma EmptyDirFits()
    ensures NamesOk(EmptyDirRoot.children) && TableFits(EmptyDirRoot, Blank.pos)
  {
    EmptyDirNames();
    EmptyDirSizes();
    EmptyDirTable(2);
  }


  /** Whatever reads back as the children of `EmptyDirRoot` under the correction is one empty directory. */
  lemma EmptyDirReadsBack(b: seq<byte>, gots: seq<Entry>)
    requires ReadsBackAll(Corrected, false, b, gots, EmptyDirRoot.children)
    ensures gots == [Entry([0x64], NoRef, [])]
  {
    assert EmptyDirRoot.children[1..] == [];
    assert ReadsBack(Corrected, false, b, gots[0], EmptyDir);
  }

  // ---------------------------------------------------------------------
  // With no room for names, file data overwrites the name table
  // ---------------------------------------------------------------------

  /** A file `a` whose two bytes of data are `b` and a NUL. */
  const FileA: Entry := Entry([0x61], BufferRef(Some([0x62, 0]), 0, 2), [])

  /** A root holding only `FileA`. */
  const FileARoot: Entry := Entry([], NoRef, [FileA])

  /** A writable stream whose cursor is 24 bytes short of a 4096-byte boundary. */
  const Short: Stream := Stream([], 4072, true, true, true)

  lemma FileASizes()
    ensures Size(FileARoot) == 2 && NamesSize(FileARoot.children) == 2
  {
    assert FileARoot.children == [FileA] && FileARoot.children[1..] == [];
    assert Size(FileA) == 1 && NameSize(FileA) == 2;
  }

  /** `FileA`'s record as the first child of a table whose names and data both start at 4096. */
  lemma FileARecordIs()
    ensures NodeRecord(AsWritten, FileA, 4096, Cursors(1, 4096, 4096)) == Record(0, 0, 4096, 2)
  {
    assert !IsDir(AsWritten, FileA) && FileA.data.Len() == 2;
    Aligned4096();
  }

  lemma Aligned4096()
    ensures AlignData(4096) == 4096
  {
  }

  lemma FileAPayload()
    ensures WritesPayload(AsWritten, true, FileA) && Payload(FileA.data) == [0x62, 0]
  {
    var b: seq<byte> := [0x62, 0];
    assert b[0..2] == b;
  }

  /** The as-written table of `FileARoot` at `Short`: names and data both start at 4096. */
  lemma FileATable(out: Stream)
    requires WriteFstAsWritten(FileARoot, Short, true) == Ok(out)
    ensures out == WriteNode(AsWritten, WriteRecord(Short, RootRecord(Size(FileARoot))), FileA,
      RecordAt(Short.pos, Size(FileARoot)), TableCursors(Short.pos, Size(FileARoot), 0), true)
  {
    WriteFstAsWrittenIs(FileARoot, Short, true, out);
    assert FileARoot.children == [FileA];
    EmitTableLeaf(AsWritten, FileARoot, FileA, Short, Size(FileARoot), 0, true);
  }

  lemma FileATableCursors()
    ensures Size(FileARoot) == 2
    ensures RecordAt(Short.pos, Size(FileARoot)) == 4096
    ensures TableCursors(Short.pos, Size(FileARoot), 0) == Cursors(1, 4096, 4096)
  {
    FileASizes();
  }

  /** A table whose root holds a single leaf: the root record, then the leaf's own writes. */
  lemma EmitTableLeaf(v: Variant, root: Entry, e: Entry, s: Stream, count: nat, strSize: nat, wd: bool)
    requires root.children == [e] && e.children == []
    ensures EmitTable(v, root, s, count, strSize, wd) ==
      WriteNode(v, WriteRecord(s, RootRecord(count)), e, RecordAt(s.pos, count), TableCursors(s.pos, count, strSize), wd)
  {
    EmitLeaf(v, WriteRecord(s, RootRecord(count)), e, RecordAt(s.pos, count), TableCursors(s.pos, count, strSize), wd);
  }

  /** The emit pass over a single leaf is the leaf's own writes. */
  lemma EmitLeaf(v: Variant, s: Stream, e: Entry, strTable: nat, cur: Cursors, wd: bool)
    requires e.children == []
    ensures EmitChildren(v, s, [e], strTable, cur, wd).0 == WriteNode(v, s, e, strTable, cur, wd)
  {
    var r1 := EmitEntry(v, s, e, strTable, cur, wd);
    assert r1 == EmitChildren(v, WriteNode(v, s, e, strTable, cur, wd), [], strTable, NodeCursors(e, cur), wd);
    assert [e][1..] == [];
    assert EmitChildren(v, s, [e], strTable, cur, wd) == EmitChildren(v, r1.0, [], strTable, r1.1, wd);
  }

  /**
    A file's writes leave its record at the cursor and its payload at the
    aligned data cursor, and keep whatever lay below the cursor, however
    the name and the data overlap each other.
   */
  lemma WriteNodeOverwrites(v: Variant, s: Stream, e: Entry, strTable: nat, cur: Cursors, wd: bool, at: nat, x: seq<byte>)
    requires WritesPayload(v, wd, e)
    requires s.pos + RecordSize <= cur.str && s.pos + RecordSize <= AlignData(cur.data)
    requires At(s.bytes, at, x) && at + |x| <= s.pos
    ensures var b := WriteNode(v, s, e, strTable, cur, wd).bytes;
      At(b, s.pos, RecordBytes(NodeRecord(v, e, strTable, cur))) && At(b, at, x) && At(b, AlignData(cur.data), Payload(e.data))
  {
    var rec := RecordBytes(NodeRecord(v, e, strTable, cur));
    var s1 := WriteRecord(s, NodeRecord(v, e, strTable, cur));
    assert At(s1.bytes, s.pos, rec) && At(s1.bytes, at, x) by {
      WriteRecordBytes(s, NodeRecord(v, e, strTable, cur));
      WriteBytesEffect(s, rec);
      AtTransfer(s.bytes, s1.bytes, at, x, s.pos, s.pos + |rec|);
    }
    var s2 := WriteBytes(Seek(s1, cur.str), e.name + [0]);
    WritePayloadKeeps(s1, cur.str, e.name + [0], s.pos, rec, at, x);
    WritePayloadKeeps(s2, AlignData(cur.data), Payload(e.data), s.pos, rec, at, x);
    WriteBytesEffect(Seek(s2, AlignData(cur.data)), Payload(e.data));
  }

  /** What the writes leave: both records, and the data where the name was. */
  lemma FileABytes(out: Stream)
    requires WriteFstAsWritten(FileARoot, Short, true) == Ok(out)
    ensures At(out.bytes, 4072, RecordBytes(RootRecord(2)))
    ensures At(out.bytes, 4084, RecordBytes(Record(0, 0, 4096, 2)))
    ensures At(out.bytes, 4096, [0x62, 0])
  {
    FileATable(out);
    FileATableCursors();
    FileANodeBytes(out, Size(FileARoot), RecordAt(Short.pos, Size(FileARoot)), TableCursors(Short.pos, Size(FileARoot), 0));
  }

  lemma FileANodeBytes(out: Stream, count: nat, strTable: nat, cur: Cursors)
    requires count == 2 && strTable == 4096 && cur == Cursors(1, 4096, 4096)
    requires out == WriteNode(AsWritten, WriteRecord(Short, RootRecord(count)), FileA, strTable, cur, true)
    ensures At(out.bytes, 4072, RecordBytes(RootRecord(2)))
    ensures At(out.bytes, 4084, RecordBytes(Record(0, 0, 4096, 2)))
    ensures At(out.bytes, 4096, [0x62, 0])
  {
    Aligned4096();
    FileANodeLaid(out, count, strTable, cur);
    FileARecordIs();
    FileAPayload();
  }

  lemma FileANodeLaid(out: Stream, count: nat, strTable: nat, cur: Cursors)
    requires cur.str == 4096 && AlignData(cur.data) == 4096
    requires out == WriteNode(AsWritten, WriteRecord(Short, RootRecord(count)), FileA, strTable, cur, true)
    ensures At(out.bytes, 4072, RecordBytes(RootRecord(count)))
    ensures At(out.bytes, 4084, RecordBytes(NodeRecord(AsWritten, FileA, strTable, cur)))
    ensures At(out.bytes, 4096, Payload(FileA.data))
  {
    WriteRecordAt(Short, RootRecord(count));
    FileANodeAt(WriteRecord(Short, RootRecord(count)), count, strTable, cur);
  }

  lemma FileANodeAt(t: Stream, count: nat, strTable: nat, cur: Cursors)
    requires t.pos == 4084 && cur.str == 4096 && AlignData(cur.data) == 4096
    requires At(t.bytes, 4072, RecordBytes(RootRecord(count)))
    ensures var b := WriteNode(AsWritten, t, FileA, strTable, cur, true).bytes;
      && At(b, 4072, RecordBytes(RootRecord(count)))
      && At(b, 4084, RecordBytes(NodeRecord(AsWritten, FileA, strTable, cur)))
      && At(b, 4096, Payload(FileA.data))
  {
    FileAPayload();
    WriteNodeOverwrites(AsWritten, t, FileA, strTable, cur, true, 4072, RecordBytes(RootRecord(count)));
  }

  /**
    Written as written and read back, the file `a` comes back named `b`:
    with a zero-byte name table its data starts where its name does and
    overwrites it.
   */
  lemma FileAReadsAsB(out: Stream)
    requires WriteFstAsWritten(FileARoot, Short, true) == Ok(out)
    ensures ReadFst(EmptyRoot, Seek(out, 4072)) ==
      Ok(FstRead(Entry([], NoRef, [Entry([0x62], StreamRef(Some(Seek(out, 4084)), 4096, 2), [])]), {}, Seek(out, 4096)))
  {
    FileABytes(out);
    ReadFileA(out);
  }

  /** The reader over the bytes `FileABytes` describes. */
  lemma ReadFileA(out: Stream)
    requires At(out.bytes, 4072, RecordBytes(RootRecord(2)))
    requires At(out.bytes, 4084, RecordBytes(Record(0, 0, 4096, 2)))
    requires At(out.bytes, 4096, [0x62, 0])
    ensures ReadFst(EmptyRoot, Seek(out, 4072)) ==
      Ok(FstRead(Entry([], NoRef, [Entry([0x62], StreamRef(Some(Seek(out, 4084)), 4096, 2), [])]), {}, Seek(out, 4096)))
  {
    ReadFileAEntry(out);
    assert [Entry([0x62], StreamRef(Some(Seek(out, 4084)), 4096, 2), [])] + [] == [Entry([0x62], StreamRef(Some(Seek(out, 4084)), 4096, 2), [])];
    ReadChildrenStep(Seek(out, 4084), 4096, 1, 2, Entry([0x62], StreamRef(Some(Seek(out, 4084)), 4096, 2), []),
      Seek(out, 4096), 2, [], Seek(out, 4096), 2);
    ReadRootA(out, [Entry([0x62], StreamRef(Some(Seek(out, 4084)), 4096, 2), [])]);
  }

  lemma ReadRootA(out: Stream, kids: seq<Entry>)
    requires At(out.bytes, 4072, RecordBytes(RootRecord(2)))
    requires ReadChildren(Seek(out, 4084), 4096, 1, 2) == Ok(Parsed(kids, Seek(out, 4096), 2))
    ensures ReadFst(EmptyRoot, Seek(out, 4072)) == Ok(FstRead(Entry([], NoRef, kids), {}, Seek(out, 4096)))
  {
    FieldLimits();
    ReadRecordAt(Seek(out, 4072), RootRecord(2));
    ReadFstStep(Seek(out, 4072), RootRecord(2), Seek(out, 4084), kids, Seek(out, 4096), 2);
  }

  lemma ReadFileAEntry(out: Stream)
    requires At(out.bytes, 4084, RecordBytes(Record(0, 0, 4096, 2)))
    requires At(out.bytes, 4096, [0x62, 0])
    ensures ReadEntry(Seek(out, 4084), 4096, 1) ==
      Ok(Parsed(Entry([0x62], StreamRef(Some(Seek(out, 4084)), 4096, 2), []), Seek(out, 4096), 2))
  {
    FieldLimits();
    ReadRecordAt(Seek(out, 4084), Record(0, 0, 4096, 2));
    GrabFilenameAt(Seek(out, 4096), 4096, [0x62]);
    ReadFileStep(Seek(out, 4084), 4096, 1, Record(0, 0, 4096, 2), [0x62], Seek(out, 4096));
  }

  /** The corrected writer's table of the same tree keeps the name `a` and the data `b`, NUL. */
  lemma FileAReadsAsA(out: Stream)
    requires WriteFst(FileARoot, Short, true) == Ok(out)
    ensures ReadFst(EmptyRoot, Seek(out, Short.pos)).Ok?
    ensures var kids := ReadFst(EmptyRoot, Seek(out, Short.pos)).value.root.children;
      |kids| == 1 && kids[0].name == [0x61] && ReadRef(kids[0].data) == Ok([0x62, 0])
  {
    FileAFits();
    WriteFstReadsBack(FileARoot, Short, true, out);
    FileAReadsBack(out.bytes, ReadFst(EmptyRoot, Seek(out, Short.pos)).value.root.children);
  }

  lemma FileAFits()
    ensures NamesOk(FileARoot.children) && TableFits(FileARoot, Short.pos)
  {
    assert FileARoot.children == [FileA] && FileARoot.children[1..] == [];
    assert NameOk(FileA.name) && NamesOk(FileA.children);
    FileASizes();
    assert TableCursors(4072, 2, 2) == Cursors(1, 4096, 8192);
    assert AfterAll(FileARoot.children, Cursors(1, 4096, 8192)) == Cursors(2, 4098, 8194);
  }

  /** Whatever reads back as the children of `FileARoot` with data written is `a` holding `b`, NUL. */
  lemma FileAReadsBack(b: seq<byte>, gots: seq<Entry>)
    requires ReadsBackAll(Corrected, true, b, gots, FileARoot.children)
    ensures |gots| == 1 && gots[0].name == [0x61] && ReadRef(gots[0].data) == Ok([0x62, 0])
  {
    assert FileARoot.children == [FileA] && FileARoot.children[1..] == [];
    assert ReadsBack(Corrected, true, b, gots[0], FileA);
    assert WritesPayload(Corrected, true, FileA) && Payload(FileA.data) == [0x62, 0];
  }
}
