/**
  The file system table (FST): a pre-order array of 12-byte records followed
  by a table of NUL-terminated names.

  Record layout: a 1-byte flag (1 = directory), a 3-byte offset of the name
  in the name table, then two 4-byte big-endian values A and B. For a file A
  is the absolute offset of its data and B its length; for a directory A is 0
  and B is one past the index of its last descendant. Record 0 is the root,
  whose B is the total number of records.

  An entry does not record whether it is a directory: the reader makes every
  flag-1 record a directory, and the writer decides from the entry itself
  (see `IsDir`).
 */
module Fst {
  import opened Bytes
  import opened Streams
  import opened DataRefs
  import opened Variants

  datatype Entry = Entry(name: seq<byte>, data: DataRef, children: seq<Entry>)

  /** The root of a freshly constructed table: no name, no data, no children. */
  const EmptyRoot: Entry := Entry([], NoRef, [])

  const RecordSize: nat := 12
  const NameScanLimit: nat := 256

  /** Where file data goes: the next 4096-byte boundary at or after `x`. */
  function AlignData(x: nat): nat
  {
    AlignUp(x, 4096)
  }

  // ---------------------------------------------------------------------
  // Measures of a tree
  // ---------------------------------------------------------------------

  /** The number of nodes of a subtree, the node itself included. */
  function Size(e: Entry): nat
    ensures Size(e) >= 1
  {
    1 + SizeOf(e.children)
  }

  function SizeOf(kids: seq<Entry>): nat
  {
    if |kids| == 0 then 0 else Size(kids[0]) + SizeOf(kids[1..])
  }

  lemma SizeOfCons(e: Entry, kids: seq<Entry>)
    ensures SizeOf([e] + kids) == Size(e) + SizeOf(kids)
    ensures NamesSize([e] + kids) == NameSize(e) + NamesSize(kids)
  {
    assert ([e] + kids)[1..] == kids;
  }

  /** The bytes the names of a subtree occupy in the name table, NULs included. */
  function NameSize(e: Entry): nat
  {
    |e.name| + 1 + NamesSize(e.children)
  }

  function NamesSize(kids: seq<Entry>): nat
  {
    if |kids| == 0 then 0 else NameSize(kids[0]) + NamesSize(kids[1..])
  }

  /** A name the reader can recover: no NUL inside and a NUL within 256 bytes. */
  predicate NameOk(name: seq<byte>)
  {
    |name| < NameScanLimit && forall i :: 0 <= i < |name| ==> name[i] != 0
  }

  // ---------------------------------------------------------------------
  // Records
  // ---------------------------------------------------------------------

  /** Where the record with index `i` sits in a table starting at `base`. */
  function RecordAt(base: nat, i: nat): nat
  {
    base + 12 * i
  }

  datatype Record = Record(flags: int, nameOffset: int, a: int, b: int)

  /** The 12 bytes of a record; each field is truncated to its width. */
  function RecordBytes(r: Record): (b: seq<byte>)
    ensures |b| == RecordSize
  {
    EncodeBE(r.flags, 1) + EncodeBE(r.nameOffset, 3) + EncodeBE(r.a, 4) + EncodeBE(r.b, 4)
  }

  /** Every field of the record fits its width. */
  predicate RecordFits(r: Record)
  {
    0 <= r.flags < 0x100 && 0 <= r.nameOffset < 0x100_0000 &&
    0 <= r.a < U32Limit && 0 <= r.b < U32Limit
  }

  /** Reading one record: flag, name offset, A and B, all big-endian. */
  function ReadRecord(s: Stream): (r: Result<Got<Record>>)
    ensures r.Ok? <==> s.pos + RecordSize <= |s.bytes|
    ensures r.Ok? ==> r.value.rest == Seek(s, s.pos + RecordSize)
    ensures r.Ok? ==> RecordFits(r.value.value)
  {
    var flags :- ReadBE(s, 1);
    var nameOffset :- ReadBE(flags.rest, 3);
    var a :- ReadBE(nameOffset.rest, 4);
    var b :- ReadBE(a.rest, 4);
    Ok(Got(Record(flags.value, nameOffset.value, a.value, b.value), b.rest))
  }

  /** Writing one record with four `writem` calls. */
  function WriteRecord(s: Stream, r: Record): Stream
  {
    WriteBE(WriteBE(WriteBE(WriteBE(s, r.flags, 1), r.nameOffset, 3), r.a, 4), r.b, 4)
  }

  // ---------------------------------------------------------------------
  // Names
  // ---------------------------------------------------------------------

  /**
    The scan of `grabFilename`: bytes are read one at a time until a NUL,
    `count` bytes having been read before this one. If 256 bytes pass
    without a NUL the source reads past its buffer; here the scan fails with
    `UnterminatedName`. The result is the name without its NUL.
   */
  function ScanName(s: Stream, count: nat): (r: Result<Got<seq<byte>>>)
    requires count < NameScanLimit
    ensures r.Ok? ==> r.value.rest == Seek(s, s.pos + |r.value.value| + 1)
    ensures r.Ok? ==> count + |r.value.value| < NameScanLimit
    decreases NameScanLimit - count
  {
    var g :- ReadBytes(s, 1);
    var ch := g.value[0];
    if ch == 0 then Ok(Got([], g.rest))
    else if count + 1 == NameScanLimit then Fail(UnterminatedName)
    else
      var t :- ScanName(g.rest, count + 1);
      Ok(Got([ch] + t.value, t.rest))
  }

  /** `grabFilename`: the name at `offset`, with the cursor put back afterwards. */
  function GrabFilename(s: Stream, offset: nat): (r: Result<Got<seq<byte>>>)
    ensures r.Ok? ==> r.value.rest == s
    ensures r.Ok? ==> |r.value.value| < NameScanLimit
  {
    var oldOffset := s.pos;
    var g :- ScanName(Seek(s, offset), 0);
    Ok(Got(g.value, Seek(g.rest, oldOffset)))
  }

  // ---------------------------------------------------------------------
  // Reading
  // ---------------------------------------------------------------------

  /** A parsed value, the stream after it and the shared entry counter after it. */
  datatype Parsed<+T> = Parsed(value: T, rest: Stream, next: nat)

  /**
    `recursiveRead`: one record and, for a directory, its descendants. The
    counter `cur` is shared by the whole traversal and is bumped once per
    record.
   */
  function ReadEntry(s: Stream, strTable: nat, cur: nat): (r: Result<Parsed<Entry>>)
    ensures r.Ok? ==> r.value.next == cur + Size(r.value.value)
    ensures r.Ok? ==> r.value.rest == Seek(s, r.value.rest.pos)
    ensures r.Ok? ==> r.value.rest.pos == RecordAt(s.pos, Size(r.value.value))
    ensures r.Ok? ==> r.value.rest.pos <= |s.bytes|
    decreases |s.bytes| - s.pos, 0
  {
    var g :- ReadRecord(s);
    var rec := g.value;
    var name :- GrabFilename(g.rest, strTable + rec.nameOffset);
    if rec.flags == 1 then
      var kids :- ReadChildren(name.rest, strTable, cur + 1, rec.b);
      Ok(Parsed(Entry(name.value, NoRef, kids.value), kids.rest, kids.next))
    else
      Ok(Parsed(Entry(name.value, StreamRef(Some(s), rec.a, rec.b), []), name.rest, cur + 1))
  }

  /** The loop of a directory: read children while the shared counter is below `bound`. */
  function ReadChildren(s: Stream, strTable: nat, cur: nat, bound: nat): (r: Result<Parsed<seq<Entry>>>)
    ensures r.Ok? ==> r.value.next == cur + SizeOf(r.value.value)
    ensures r.Ok? ==> r.value.rest == Seek(s, r.value.rest.pos)
    ensures r.Ok? ==> r.value.rest.pos == RecordAt(s.pos, SizeOf(r.value.value))
    ensures r.Ok? ==> r.value.next >= bound
    ensures r.Ok? && |r.value.value| > 0 ==> r.value.rest.pos <= |s.bytes|
    decreases |s.bytes| - s.pos, 1
  {
    if cur < bound then
      match ReadEntry(s, strTable, cur)
      case Fail(err) => Fail(err)
      case Ok(e) =>
        match ReadChildren(e.rest, strTable, e.next, bound)
        case Fail(err) => Fail(err)
        case Ok(more) =>
          SizeOfCons(e.value, more.value);
          Ok(Parsed([e.value] + more.value, more.rest, more.next))
    else
      Ok(Parsed([], s, cur))
  }

  /** The diagnostics `read` prints about an unexpected root record. */
  datatype Warning = UnexpectedRootFlag | UnexpectedRootNameOffset | UnexpectedRootOffset

  datatype FstRead = FstRead(root: Entry, warnings: set<Warning>, rest: Stream)

  /**
    `fst::read`: the root record, whose B is the number of records, then the
    root's children. The children are appended to those `root` already has.
   */
  function ReadFst(root: Entry, s: Stream): (r: Result<FstRead>)
    ensures r.Ok? ==> ReadRecord(s).Ok?
    ensures r.Ok? ==>
      var rec := ReadRecord(s).value.value;
      && |r.value.root.children| >= |root.children|
      && (UnexpectedRootFlag in r.value.warnings <==> rec.flags != 1)
      && (UnexpectedRootNameOffset in r.value.warnings <==> rec.nameOffset != 0)
      && (UnexpectedRootOffset in r.value.warnings <==> rec.a != 0)
      && r.value.root.name == root.name && r.value.root.data == root.data
      && r.value.root.children[..|root.children|] == root.children
      && 1 + SizeOf(r.value.root.children[|root.children|..]) >= rec.b
  {
    var fstOffset := s.pos;
    var g :- ReadRecord(s);
    var rec := g.value;
    var warnings :=
      (if rec.flags != 1 then {UnexpectedRootFlag} else {}) +
      (if rec.nameOffset != 0 then {UnexpectedRootNameOffset} else {}) +
      (if rec.a != 0 then {UnexpectedRootOffset} else {});
    var fileCount := rec.b;
    var strTable := RecordAt(fstOffset, fileCount);
    var kids :- ReadChildren(g.rest, strTable, 1, fileCount);
    assert (root.children + kids.value)[|root.children|..] == kids.value;
    Ok(FstRead(root.(children := root.children + kids.value), warnings, kids.rest))
  }

  // ---------------------------------------------------------------------
  // Preflight
  // ---------------------------------------------------------------------

  /**
    `recursivePreflight` as written: every node bumps the count, but the
    string-table total is never updated, because the statement meant to add
    a name's length increments the pointer instead of the value it points to.
   */
  function PreflightAsWritten(e: Entry, count: nat, strSize: nat): (r: (nat, nat))
    ensures r.0 == count + Size(e) && r.1 == strSize
    decreases e, 1
  {
    var count1 := count + 1;
    PreflightKidsAsWritten(e.children, count1, strSize)
  }

  function PreflightKidsAsWritten(kids: seq<Entry>, count: nat, strSize: nat): (r: (nat, nat))
    ensures r.0 == count + SizeOf(kids) && r.1 == strSize
    decreases kids, 0
  {
    if |kids| == 0 then (count, strSize)
    else
      var r1 := PreflightAsWritten(kids[0], count, strSize);
      PreflightKidsAsWritten(kids[1..], r1.0, r1.1)
  }

  /**
    `recursivePreflight` with the name length added to the total: every node
    after the first one counted contributes its name and NUL.
   */
  function Preflight(e: Entry, count: nat, strSize: nat): (r: (nat, nat))
    ensures r.0 == count + Size(e)
    ensures r.1 == strSize + NamesSize(e.children) + (if count == 0 then 0 else |e.name| + 1)
    decreases e, 1
  {
    var count1 := count + 1;
    var strSize1 := if count1 > 1 then strSize + |e.name| + 1 else strSize;
    PreflightKids(e.children, count1, strSize1)
  }

  function PreflightKids(kids: seq<Entry>, count: nat, strSize: nat): (r: (nat, nat))
    requires count >= 1
    ensures r.0 == count + SizeOf(kids) && r.1 == strSize + NamesSize(kids)
    decreases kids, 0
  {
    if |kids| == 0 then (count, strSize)
    else
      var r1 := Preflight(kids[0], count, strSize);
      PreflightKids(kids[1..], r1.0, r1.1)
  }

  /** `fileCount`: the number of records the table of `root` has. */
  function FileCount(root: Entry): (n: nat)
    ensures n == Size(root)
  {
    Preflight(root, 0, 0).0
  }

  // ---------------------------------------------------------------------
  // Writing
  // ---------------------------------------------------------------------

  /**
    Whether the writer emits `e` as a directory. As written, only an entry
    with children is one, so an empty directory is written as a file; the
    correction also treats an entry with no data reference as a directory,
    which is what the reader produces for every flag-1 record.
   */
  predicate IsDir(v: Variant, e: Entry)
  {
    |e.children| > 0 || (v == Corrected && e.data.NoRef?)
  }

  /** The three cursors the emit pass threads: entry index, name table, data. */
  datatype Cursors = Cursors(entry: nat, str: nat, data: nat)

  /** The record written for `e` at the cursors `cur`. */
  function NodeRecord(v: Variant, e: Entry, strTable: nat, cur: Cursors): Record
  {
    var dir := IsDir(v, e);
    Record(
      if dir then 1 else 0,
      cur.str - strTable,
      if dir then 0 else AlignData(cur.data),
      if dir then cur.entry + Size(e) else e.data.Len())
  }

  /** The cursors after `e`'s own record, before its children. */
  function NodeCursors(e: Entry, cur: Cursors): Cursors
  {
    Cursors(cur.entry + 1, cur.str + |e.name| + 1, AlignData(cur.data) + e.data.Len())
  }

  /**
    The bytes written for a file. When the reference cannot be read the
    source writes an uninitialised buffer; the model writes zeros.
   */
  function Payload(d: DataRef): (p: seq<byte>)
    ensures |p| == d.Len()
    ensures ReadRef(d).Ok? ==> p == ReadRef(d).value
  {
    match ReadRef(d)
    case Ok(bytes) => bytes
    case Fail(_) => Zeros(d.Len())
  }

  /** Whether the writer emits the payload of `e`: only a file with data, when data is wanted. */
  predicate WritesPayload(v: Variant, writeData: bool, e: Entry)
  {
    writeData && !IsDir(v, e) && e.data.Len() > 0
  }

  /**
    The writes `recursiveWrite` makes for `e` itself: its record at the
    cursor, its name at the name cursor, its data (if wanted) at the aligned
    data cursor, then back to the record after its own.
   */
  function WriteNode(v: Variant, s: Stream, e: Entry, strTable: nat, cur: Cursors, writeData: bool): (r: Stream)
    ensures r.pos == s.pos + RecordSize
    ensures SameFlags(s, r)
  {
    var s1 := WriteRecord(s, NodeRecord(v, e, strTable, cur));
    var back := s1.pos;
    var s2 := WriteBytes(Seek(s1, cur.str), e.name + [0]);
    var at := AlignData(cur.data);
    var s3 := if WritesPayload(v, writeData, e) then WriteBytes(Seek(s2, at), Payload(e.data)) else s2;
    Seek(s3, back)
  }

  /** `recursiveWrite`: the node itself, then its children in order. */
  function EmitEntry(v: Variant, s: Stream, e: Entry, strTable: nat, cur: Cursors, writeData: bool): (r: (Stream, Cursors))
    ensures r.1.entry == cur.entry + Size(e)
    ensures r.1.str == cur.str + NameSize(e)
    ensures r.1.data >= cur.data
    ensures r.0.pos == RecordAt(s.pos, Size(e))
    ensures SameFlags(s, r.0)
    decreases e, 1
  {
    EmitChildren(v, WriteNode(v, s, e, strTable, cur, writeData), e.children, strTable, NodeCursors(e, cur), writeData)
  }

  function EmitChildren(v: Variant, s: Stream, kids: seq<Entry>, strTable: nat, cur: Cursors, writeData: bool): (r: (Stream, Cursors))
    ensures r.1.entry == cur.entry + SizeOf(kids)
    ensures r.1.str == cur.str + NamesSize(kids)
    ensures r.1.data >= cur.data
    ensures r.0.pos == RecordAt(s.pos, SizeOf(kids))
    ensures SameFlags(s, r.0)
    decreases kids, 0
  {
    if |kids| == 0 then (s, cur)
    else
      var r1 := EmitEntry(v, s, kids[0], strTable, cur, writeData);
      EmitChildren(v, r1.0, kids[1..], strTable, r1.1, writeData)
  }

  /**
    The body of `fst::write` after preflight: the root record, then the
    children from index 1, names from the end of the record table, data
    from the next 4096-byte boundary after `strSize` bytes of names.
   */
  function EmitTable(v: Variant, root: Entry, s: Stream, count: nat, strSize: nat, writeData: bool): Stream
  {
    var s1 := WriteRecord(s, RootRecord(count));
    EmitChildren(v, s1, root.children, RecordAt(s.pos, count), TableCursors(s.pos, count, strSize), writeData).0
  }

  /** The root record of a table of `count` records: a directory named by offset 0. */
  function RootRecord(count: nat): Record
  {
    Record(1, 0, 0, count)
  }

  /**
    The cursors the root's children start from, for a table at `base` with
    `count` records and `strSize` bytes of names: record 1, the name table
    right after the records, data from the next 4096-byte boundary after
    the names.
   */
  function TableCursors(base: nat, count: nat, strSize: nat): Cursors
  {
    var strTable := RecordAt(base, count);
    Cursors(1, strTable, AlignData(strTable + strSize))
  }

  /** `fst::write` as written: empty name-table size and the as-written directory test. */
  function WriteFstAsWritten(root: Entry, s: Stream, writeData: bool): (r: Result<Stream>)
    ensures r.Ok? <==> s.writable
    ensures r.Ok? ==> r.value.pos == RecordAt(s.pos, Size(root)) && SameFlags(s, r.value)
  {
    if !s.writable then Fail(NotWritable)
    else
      var pf := PreflightAsWritten(root, 0, 0);
      Ok(EmitTable(AsWritten, root, s, pf.0, pf.1, writeData))
  }

  /** `fst::write` with both defects corrected. */
  function WriteFst(root: Entry, s: Stream, writeData: bool): (r: Result<Stream>)
    ensures r.Ok? <==> s.writable
    ensures r.Ok? ==> r.value.pos == RecordAt(s.pos, Size(root)) && SameFlags(s, r.value)
  {
    if !s.writable then Fail(NotWritable)
    else
      var pf := Preflight(root, 0, 0);
      Ok(EmitTable(Corrected, root, s, pf.0, pf.1, writeData))
  }
}
