/**
  Data references: where the bytes of a file of the file system table come
  from. A reference is resolved only when it is read, never at parse time.

  The C++ reference holds a raw pointer to a buffer or to a stream; here the
  referenced buffer, stream or host file is held by value, and `None` stands
  for a null pointer (or, for a host file, a file that cannot be opened).
 */
module DataRefs {
  import opened Bytes
  import opened Streams

  datatype DataRef =
    | NoRef                                                    // `none`: nothing to read
    | BufferRef(buffer: Option<seq<byte>>, off: u32, len: u32) // an owned memory buffer
    | StreamRef(strm: Option<Stream>, off: u32, len: u32)      // a range of an open stream
    | FileRef(file: Option<seq<byte>>, off: u32, len: u32)     // a range of a host file
  {
    /** The length the reference advertises; a `none` reference has length 0. */
    function Len(): (n: nat)
      ensures n < U32Limit
    {
      if NoRef? then 0 else len
    }
  }

  /**
    Reading `len` bytes at `off` of a stream, leaving the stream's cursor
    where it was.
   */
  function ReadRange(s: Stream, off: nat, len: nat): (r: Result<Got<seq<byte>>>)
    ensures r.Ok? <==> off + len <= |s.bytes|
    ensures r.Ok? ==> r.value.value == s.bytes[off..off + len]
    ensures r.Ok? ==> r.value.rest == s
  {
    var oldOffset := s.pos;
    var g :- ReadBytes(Seek(s, off), len);
    Ok(Got(g.value, Seek(g.rest, oldOffset)))
  }

  /**
    Resolving a reference. A read past the end of the referenced bytes has
    undefined behaviour in the source; here it fails with `Truncated`.
   */
  function ReadRef(d: DataRef): (r: Result<seq<byte>>)
    ensures r.Ok? ==> |r.value| == d.Len()
    ensures d.NoRef? ==> r.Fail?
    ensures d.BufferRef? ==>
      (r.Ok? <==> d.buffer.Some? && d.off + d.len <= |d.buffer.value|) &&
      (r.Ok? ==> r.value == d.buffer.value[d.off..d.off + d.len])
    ensures d.StreamRef? ==>
      (r.Ok? <==> d.strm.Some? && d.off + d.len <= |d.strm.value.bytes|) &&
      (r.Ok? ==> r.value == d.strm.value.bytes[d.off..d.off + d.len])
    ensures d.FileRef? ==>
      (r.Ok? <==> d.file.Some? && d.off + d.len <= |d.file.value|) &&
      (r.Ok? ==> r.value == d.file.value[d.off..d.off + d.len])
  {
    match d
    case NoRef => Fail(NotReadable)
    case BufferRef(buffer, off, len) =>
      if buffer.None? then Fail(NotReadable)
      else if off + len <= |buffer.value| then Ok(buffer.value[off..off + len])
      else Fail(Truncated)
    case StreamRef(strm, off, len) =>
      if strm.None? then Fail(NotReadable)
      else
        var g :- ReadRange(strm.value, off, len);
        Ok(g.value)
    case FileRef(file, off, len) =>
      if file.None? then Fail(NotReadable)
      else
        var f := Stream(file.value, 0, true, false, true);
        var g :- ReadRange(f, off, len);
        Ok(g.value)
  }

  /** A stream reference does not depend on where the shared cursor happens to be. */
  lemma StreamRefIgnoresCursor(s: Stream, p: nat, off: u32, len: u32)
    ensures ReadRef(StreamRef(Some(s), off, len)) == ReadRef(StreamRef(Some(Seek(s, p)), off, len))
  {
  }

  /**
    The host-file constructor: with neither offset nor length given, the
    length is the file's size (truncated to 32 bits; taken as 0 when the file
    cannot be opened, an assumption about the file library).
   */
  function MakeFileRef(file: Option<seq<byte>>, off: u32, len: u32): (r: DataRef)
    ensures r.FileRef? && r.file == file && r.off == off
    ensures off == 0 && len == 0 && file.Some? && |file.value| < U32Limit ==> r.len == |file.value|
    ensures !(off == 0 && len == 0) ==> r.len == len
  {
    if off == 0 && len == 0 then
      var size := if file.Some? then |file.value| % U32Limit else 0;
      FileRef(file, off, size)
    else FileRef(file, off, len)
  }
}
