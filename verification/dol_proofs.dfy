/**
  What `dol::write` leaves in the stream, and what `dol::read` makes of it.
 */
module DolProofs {
  import opened Bytes
  import opened Streams
  import opened Fields
  import opened Variants
  import opened Dols

  /** Writing the header words leaves their bytes at the cursor and the cursor after them. */
  lemma WriteHeaderEffect(d: Dol, s: Stream)
    requires DolOk(d)
    ensures var h := WriteFields(s, WordFields(HeaderWords(d)), Words(HeaderWordCount));
      h.pos == s.pos + DolHeaderSize && At(h.bytes, s.pos, HeaderBytes(d)) &&
      SameOutside(s.bytes, h.bytes, s.pos, s.pos + DolHeaderSize)
  {
    HeaderSpan();
    WriteFieldsEffect(s, WordFields(HeaderWords(d)), Words(HeaderWordCount));
  }

  /** The slots from `i` on that are in use all lie outside `[p, p + |x|)`. */
  predicate ClearOf(secs: seq<Section>, base: nat, i: nat, p: nat, x: seq<byte>)
  {
    forall j :: i <= j < |secs| && Present(secs[j]) ==>
      p + |x| <= base + secs[j].offset || SectionEnd(base, secs[j]) <= p
  }

  /**
    Bytes below both the cursor and `end` survive the rest of the loop when
    no later slot in use overlaps them: every fill starts at or above the
    cursor, and every payload lands on its own slot.
   */
  lemma {:induction false} SlotsKeep(t: Stream, secs: seq<Section>, base: nat, end: nat, i: nat, p: nat, x: seq<byte>)
    requires i <= |secs| && At(t.bytes, p, x)
    requires p + |x| <= t.pos && p + |x| <= end
    requires ClearOf(secs, base, i, p, x)
    ensures At(WriteSlots(t, secs, base, end, i).bytes, p, x)
    decreases |secs| - i
  {
    if i < |secs| {
      var sec := secs[i];
      if Present(sec) {
        var f := FillTo(t, base + sec.offset);
        AtTransfer(t.bytes, f.bytes, p, x, t.pos, base + sec.offset);
        var y := Fit(sec.buffer, sec.size);
        var w := WriteBytes(f, y);
        WriteBytesEffect(f, y);
        AtTransfer(f.bytes, w.bytes, p, x, f.pos, f.pos + |y|);
        var end' := Max(end, SectionEnd(base, sec));
        SlotsKeep(Seek(w, end'), secs, base, end', i + 1, p, x);
      } else {
        SlotsKeep(Seek(t, end), secs, base, end, i + 1, p, x);
      }
    }
  }

  /** The bytes the loop writes for a slot in use. */
  function Payload(sec: Section): (y: seq<byte>)
    ensures |y| == sec.size
  {
    Fit(sec.buffer, sec.size)
  }

  /**
    The payload of a slot in use ends up at `base + offset`, provided no
    later slot in use overlaps it.
   */
  lemma {:induction false} SlotLands(t: Stream, secs: seq<Section>, base: nat, end: nat, i: nat, k: nat)
    requires i <= k < |secs| && Present(secs[k])
    requires ClearOf(secs, base, k + 1, base + secs[k].offset, Payload(secs[k]))
    ensures At(WriteSlots(t, secs, base, end, i).bytes, base + secs[k].offset, Payload(secs[k]))
    decreases |secs| - i
  {
    var sec := secs[i];
    if i < k {
      if Present(sec) {
        var w := WriteBytes(FillTo(t, base + sec.offset), Payload(sec));
        SlotLands(Seek(w, Max(end, SectionEnd(base, sec))), secs, base, Max(end, SectionEnd(base, sec)), i + 1, k);
      } else {
        SlotLands(Seek(t, end), secs, base, end, i + 1, k);
      }
    } else {
      var f := FillTo(t, base + sec.offset);
      var w := WriteBytes(f, Payload(sec));
      WriteBytesEffect(f, Payload(sec));
      var end' := Max(end, SectionEnd(base, sec));
      SlotsKeep(Seek(w, end'), secs, base, end', i + 1, base + sec.offset, Payload(sec));
    }
  }

  /**
    Where the loop leaves the cursor: at the furthest of `end` and the ends
    of the slots in use from `i` on.
   */
  lemma {:induction false} SlotsCursor(t: Stream, secs: seq<Section>, base: nat, end: nat, i: nat)
    requires i < |secs|
    ensures var r := WriteSlots(t, secs, base, end, i);
      end <= r.pos &&
      (forall j :: i <= j < |secs| && Present(secs[j]) ==> SectionEnd(base, secs[j]) <= r.pos) &&
      (r.pos == end || exists j :: i <= j < |secs| && Present(secs[j]) && r.pos == SectionEnd(base, secs[j]))
    decreases |secs| - i
  {
    var sec := secs[i];
    var end' := if Present(sec) then Max(end, SectionEnd(base, sec)) else end;
    var t' := if Present(sec) then Seek(WriteBytes(FillTo(t, base + sec.offset), Payload(sec)), end') else Seek(t, end);
    assert WriteSlots(t, secs, base, end, i) == WriteSlots(t', secs, base, end', i + 1);
    if i + 1 < |secs| {
      SlotsCursor(t', secs, base, end', i + 1);
    }
  }

  /** Position `q` lies in the payload of some slot in use. */
  predicate Covered(secs: seq<Section>, base: nat, q: nat)
  {
    exists j :: 0 <= j < |secs| && Present(secs[j]) && base + secs[j].offset <= q < SectionEnd(base, secs[j])
  }

  /** Every position in `[lo, hi)` that no slot in use covers holds a zero. */
  predicate ZeroGaps(b: seq<byte>, secs: seq<Section>, base: nat, lo: nat, hi: nat)
  {
    forall q :: lo <= q < hi && !Covered(secs, base, q) ==> q < |b| && b[q] == 0
  }

  /** One slot in use keeps the gaps zero up to the raised running end. */
  lemma GapStep(t: Stream, secs: seq<Section>, base: nat, end: nat, i: nat, lo: nat)
    requires i < |secs| && Present(secs[i]) && t.pos == end && lo <= end
    requires ZeroGaps(t.bytes, secs, base, lo, end)
    ensures ZeroGaps(WriteBytes(FillTo(t, base + secs[i].offset), Payload(secs[i])).bytes,
      secs, base, lo, Max(end, SectionEnd(base, secs[i])))
  {
    var sec := secs[i];
    var start := base + sec.offset;
    var f := FillTo(t, start);
    var w := WriteBytes(f, Payload(sec));
    var end' := Max(end, SectionEnd(base, sec));
    WriteBytesEffect(f, Payload(sec));
    assert forall q :: start <= q < SectionEnd(base, sec) ==> Covered(secs, base, q);
    forall q | lo <= q < end' && !Covered(secs, base, q)
      ensures q < |w.bytes| && w.bytes[q] == 0
    {
      if q < end {
        assert f.bytes[q] == t.bytes[q];
      } else {
        assert f.bytes[q] == 0;
      }
    }
  }

  /**
    The loop leaves zeros everywhere from `lo` up to its final cursor that no
    slot in use covers, once that holds up to its starting cursor `end`: each
    fill starts at the running end, and each payload lands on its own slot.
   */
  lemma {:induction false} SlotsGapsZero(t: Stream, secs: seq<Section>, base: nat, end: nat, i: nat, lo: nat)
    requires i <= |secs| && t.pos == end && lo <= end
    requires ZeroGaps(t.bytes, secs, base, lo, end)
    ensures var r := WriteSlots(t, secs, base, end, i); ZeroGaps(r.bytes, secs, base, lo, r.pos)
    decreases |secs| - i
  {
    if i < |secs| {
      var sec := secs[i];
      if Present(sec) {
        var w := WriteBytes(FillTo(t, base + sec.offset), Payload(sec));
        var end' := Max(end, SectionEnd(base, sec));
        GapStep(t, secs, base, end, i, lo);
        SlotsGapsZero(Seek(w, end'), secs, base, end', i + 1, lo);
      } else {
        SlotsGapsZero(Seek(t, end), secs, base, end, i + 1, lo);
      }
    }
  }

  // ---------------------------------------------------------------------
  // The whole executable
  // ---------------------------------------------------------------------

  /** Two slots whose payloads do not overlap. */
  predicate Apart(a: Section, b: Section)
  {
    a.offset + a.size <= b.offset || b.offset + b.size <= a.offset
  }

  /**
    A DOL laid out as a linker lays it out: every slot in use starts after
    the header, and no two slots in use overlap.
   */
  predicate Placed(d: Dol)
    requires DolOk(d)
  {
    (forall j :: 0 <= j < Slots && Present(d.sections[j]) ==> DolHeaderSize <= d.sections[j].offset) &&
    (forall j, k :: 0 <= j < k < Slots && Present(d.sections[j]) && Present(d.sections[k]) ==>
      Apart(d.sections[j], d.sections[k]))
  }

  /** Read into a default-constructed DOL, a slot not in use holds no payload. */
  lemma ReadDolFresh(s: Stream)
    requires ReadDol(EmptyDol, s).Ok?
    ensures var e := ReadDol(EmptyDol, s).value.value;
      forall j :: 0 <= j < Slots && !Present(e.sections[j]) ==> e.sections[j].buffer == []
  {
    HeaderSpan();
    var g := ReadFields(s, Words(HeaderWordCount)).value;
    LoadSlotsLoads(WithHeader(EmptyDol, WordsOf(g.value)), g.rest, s.pos, 0);
  }

  /** The corrected writer never touches the bytes before its starting cursor. */
  lemma WriteDolKeepsBelow(d: Dol, s: Stream, p: nat, x: seq<byte>)
    requires DolOk(d) && At(s.bytes, p, x) && p + |x| <= s.pos
    ensures At(WriteDol(Corrected, d, s).bytes, p, x)
  {
    var h := WriteFields(s, WordFields(HeaderWords(d)), Words(HeaderWordCount));
    WriteHeaderEffect(d, s);
    AtTransfer(s.bytes, h.bytes, p, x, s.pos, s.pos + DolHeaderSize);
    SlotsKeep(h, d.sections, s.pos, s.pos + DolHeaderSize, 0, p, x);
  }

  /**
    Corrected, every byte between the end of the header and the final cursor
    that no slot in use covers is zero: the gaps between payloads are padding.
   */
  lemma WriteDolGapsZero(d: Dol, s: Stream)
    requires DolOk(d)
    ensures var r := WriteDol(Corrected, d, s);
      forall q :: s.pos + DolHeaderSize <= q < r.pos && !Covered(d.sections, s.pos, q) ==>
        q < |r.bytes| && r.bytes[q] == 0
  {
    var h := WriteFields(s, WordFields(HeaderWords(d)), Words(HeaderWordCount));
    WriteHeaderEffect(d, s);
    SlotsGapsZero(h, d.sections, s.pos, s.pos + DolHeaderSize, 0, s.pos + DolHeaderSize);
  }

  /** Once corrected, the header is still in place when every slot in use starts after it. */
  lemma WriteDolHeader(d: Dol, s: Stream)
    requires DolOk(d)
    requires forall j :: 0 <= j < Slots && Present(d.sections[j]) ==> DolHeaderSize <= d.sections[j].offset
    ensures At(WriteDol(Corrected, d, s).bytes, s.pos, HeaderBytes(d))
  {
    var h := WriteFields(s, WordFields(HeaderWords(d)), Words(HeaderWordCount));
    WriteHeaderEffect(d, s);
    SlotsKeep(h, d.sections, s.pos, s.pos + DolHeaderSize, 0, s.pos, HeaderBytes(d));
  }

  /** In either variant, the payload of a slot in use lands at its offset when no later slot overlaps it. */
  lemma WriteDolPayload(v: Variant, d: Dol, s: Stream, k: nat)
    requires DolOk(d) && k < Slots && Present(d.sections[k])
    requires forall j :: k < j < Slots && Present(d.sections[j]) ==> Apart(d.sections[k], d.sections[j])
    ensures At(WriteDol(v, d, s).bytes, s.pos + d.sections[k].offset, Payload(d.sections[k]))
  {
    var h := WriteFields(s, WordFields(HeaderWords(d)), Words(HeaderWordCount));
    assert ClearOf(d.sections, s.pos, k + 1, s.pos + d.sections[k].offset, Payload(d.sections[k])) by {
      forall j | k + 1 <= j < Slots && Present(d.sections[j])
        ensures s.pos + d.sections[k].offset + |Payload(d.sections[k])| <= s.pos + d.sections[j].offset ||
                SectionEnd(s.pos, d.sections[j]) <= s.pos + d.sections[k].offset
      {
        assert Apart(d.sections[k], d.sections[j]);
      }
    }
    SlotLands(h, d.sections, s.pos, FirstEnd(v, s.pos), 0, k);
  }

  /**
    Where the writer leaves the cursor: past the header (once corrected) and
    past every slot in use, at the furthest of these ends. As written, a DOL
    with no slot in use leaves the cursor at 0.
   */
  lemma WriteDolCursor(v: Variant, d: Dol, s: Stream)
    requires DolOk(d)
    ensures var r := WriteDol(v, d, s);
      FirstEnd(v, s.pos) <= r.pos &&
      (forall j :: 0 <= j < Slots && Present(d.sections[j]) ==> SectionEnd(s.pos, d.sections[j]) <= r.pos) &&
      (r.pos == FirstEnd(v, s.pos) || exists j :: 0 <= j < Slots && Present(d.sections[j]) && r.pos == SectionEnd(s.pos, d.sections[j]))
  {
    var h := WriteFields(s, WordFields(HeaderWords(d)), Words(HeaderWordCount));
    SlotsCursor(h, d.sections, s.pos, FirstEnd(v, s.pos), 0);
  }

  /**
    The DOL that reading back the stored `d` into `into` yields: the geometry
    and entry of `d`, the written payload of every slot in use, and `into`'s
    buffer for every other slot.
   */
  function Stored(d: Dol, into: Dol): (e: Dol)
    requires DolOk(d) && DolOk(into)
    ensures DolOk(e)
  {
    Dol(seq(Slots, j requires 0 <= j < Slots =>
          var sec := d.sections[j];
          sec.(buffer := if Present(sec) then Payload(sec) else into.sections[j].buffer)),
        d.bssAddr, d.bssSize, d.entrypoint)
  }

  /** Decoding the words of a header gives back the words. */
  lemma WordsOfFields(ws: seq<u32>)
    ensures WordsOf(WordFields(ws)) == ws
  {
  }

  /** Reading a stored header hands the loader `d`'s geometry around `into`'s buffers. */
  lemma ReadDolIs(d: Dol, into: Dol, r: Stream)
    requires DolOk(d) && DolOk(into) && At(r.bytes, r.pos, HeaderBytes(d))
    ensures ReadDol(into, r) == LoadSlots(WithHeader(into, HeaderWords(d)), Seek(r, r.pos + DolHeaderSize), r.pos, 0)
  {
    HeaderSpan();
    ReadFieldsAt(r, WordFields(HeaderWords(d)), Words(HeaderWordCount));
    WordsOfFields(HeaderWords(d));
  }

  /** The loader, run over stored payloads, yields exactly the stored DOL. */
  lemma LoadStored(d: Dol, into: Dol, t: Stream, base: nat)
    requires DolOk(d) && DolOk(into)
    requires forall j :: 0 <= j < Slots && Present(d.sections[j]) ==>
      At(t.bytes, base + d.sections[j].offset, Payload(d.sections[j]))
    ensures var l := LoadSlots(WithHeader(into, HeaderWords(d)), t, base, 0);
      l.Ok? && l.value.value == Stored(d, into)
  {
    var d' := WithHeader(into, HeaderWords(d));
    assert forall j :: 0 <= j < Slots ==>
      d'.sections[j] == d.sections[j].(buffer := into.sections[j].buffer);
    assert SlotsFit(d', t.bytes, base, 0) by {
      forall j | 0 <= j < Slots && Present(d'.sections[j]) ensures SectionEnd(base, d'.sections[j]) <= |t.bytes| {
        assert At(t.bytes, base + d.sections[j].offset, Payload(d.sections[j]));
      }
    }
    LoadSlotsFit(d', t, base, 0);
    LoadSlotsLoads(d', t, base, 0);
    var e := LoadSlots(d', t, base, 0).value.value;
    var st := Stored(d, into);
    forall j | 0 <= j < Slots ensures e.sections[j] == st.sections[j] {
      LoadedStored(e.sections[j], d.sections[j], into.sections[j].buffer, t.bytes, base);
    }
    assert e.sections == st.sections;
  }

  /** One slot loaded from stored bytes: its payload where in use, the old buffer elsewhere. */
  lemma LoadedStored(sec: Section, was: Section, buffer: seq<byte>, b: seq<byte>, base: nat)
    requires LoadedAs(sec, was.(buffer := buffer), b, base, true)
    requires Present(was) ==> At(b, base + was.offset, Payload(was))
    ensures sec == was.(buffer := if Present(was) then Payload(was) else buffer)
  {
  }

  /**
    Round trip of the corrected writer: reading back a placed DOL where it
    was written gives its geometry, its entry and the payload of every slot
    in use.
   */
  lemma ReadWriteDol(d: Dol, into: Dol, s: Stream)
    requires DolOk(d) && DolOk(into) && Placed(d)
    ensures var out := WriteDol(Corrected, d, s);
      var r := ReadDol(into, Seek(out, s.pos));
      r.Ok? && r.value.value == Stored(d, into) && r.value.rest == Seek(out, r.value.rest.pos)
  {
    var out := WriteDol(Corrected, d, s);
    WriteDolHeader(d, s);
    WriteDolPayloads(d, s);
    ReadStored(d, into, out, s.pos);
  }

  /** Reading back a header and payloads that are in place, wherever they came from. */
  lemma ReadStored(d: Dol, into: Dol, out: Stream, base: nat)
    requires DolOk(d) && DolOk(into) && At(out.bytes, base, HeaderBytes(d))
    requires forall j :: 0 <= j < Slots && Present(d.sections[j]) ==>
      At(out.bytes, base + d.sections[j].offset, Payload(d.sections[j]))
    ensures var r := ReadDol(into, Seek(out, base));
      r.Ok? && r.value.value == Stored(d, into) && r.value.rest == Seek(out, r.value.rest.pos)
  {
    ReadDolIs(d, into, Seek(out, base));
    LoadStored(d, into, Seek(out, base + DolHeaderSize), base);
  }

  /** Every payload of a placed DOL lands at its offset. */
  lemma WriteDolPayloads(d: Dol, s: Stream)
    requires DolOk(d) && Placed(d)
    ensures forall j :: 0 <= j < Slots && Present(d.sections[j]) ==>
      At(WriteDol(Corrected, d, s).bytes, s.pos + d.sections[j].offset, Payload(d.sections[j]))
  {
    forall j | 0 <= j < Slots && Present(d.sections[j])
      ensures At(WriteDol(Corrected, d, s).bytes, s.pos + d.sections[j].offset, Payload(d.sections[j]))
    {
      forall k | j < k < Slots && Present(d.sections[k]) ensures Apart(d.sections[j], d.sections[k]) {
      }
      WriteDolPayload(Corrected, d, s, j);
    }
  }

  /** A DOL whose payloads have exactly their slots' sizes reads back as itself where in use. */
  lemma StoredExact(d: Dol, into: Dol)
    requires DolOk(d) && DolOk(into)
    requires forall j :: 0 <= j < Slots && Present(d.sections[j]) ==> |d.sections[j].buffer| == d.sections[j].size
    ensures forall j :: 0 <= j < Slots && Present(d.sections[j]) ==> Stored(d, into).sections[j] == d.sections[j]
  {
    forall j | 0 <= j < Slots && Present(d.sections[j]) ensures Stored(d, into).sections[j] == d.sections[j] {
      assert Payload(d.sections[j]) == d.sections[j].buffer;
    }
  }

  /** The as-written writer agrees with the corrected one when slot 0 is in use after the header. */
  lemma AsWrittenAgrees(d: Dol, s: Stream)
    requires DolOk(d) && Present(d.sections[0]) && DolHeaderSize <= d.sections[0].offset
    ensures WriteDol(AsWritten, d, s) == WriteDol(Corrected, d, s)
  {
    var sec := d.sections[0];
    assert Max(0, SectionEnd(s.pos, sec)) == Max(s.pos + DolHeaderSize, SectionEnd(s.pos, sec));
  }

  // ---------------------------------------------------------------------
  // The header erased as written
  // ---------------------------------------------------------------------

  /** `n` zero words. */
  function ZeroWords(n: nat): (ws: seq<u32>)
    ensures |ws| == n && forall i :: 0 <= i < n ==> ws[i] == 0
  {
    seq(n, _ => 0)
  }

  /** Zero words are stored as zero bytes. */
  lemma {:induction false} ZeroWordsBytes(n: nat)
    ensures EncodeFields(WordFields(ZeroWords(n)), Words(n)) == Zeros(4 * n)
  {
    WordsSpan(n);
    if n > 0 {
      ZeroWordsBytes(n - 1);
      assert WordFields(ZeroWords(n))[1..] == WordFields(ZeroWords(n - 1));
      assert Words(n)[1..] == Words(n - 1);
      assert EncodeBE(0, 4) == Zeros(4);
      assert Zeros(4) + Zeros(4 * (n - 1)) == Zeros(4 * n);
    }
  }

  /** Filling from offset 0 up to a slot at or past the header's end and writing its payload leaves zeros over `[0, base + DolHeaderSize)`. */
  lemma RefillZeroes(h: Stream, sec: Section, base: nat)
    requires Present(sec) && DolHeaderSize <= sec.offset
    ensures At(WriteBytes(FillTo(Seek(h, 0), base + sec.offset), Payload(sec)).bytes, 0, Zeros(base + DolHeaderSize))
  {
    var z := Zeros(base + DolHeaderSize);
    var f := FillTo(Seek(h, 0), base + sec.offset);
    assert f.bytes[0..|z|] == z;
    WriteBytesEffect(f, Payload(sec));
    AtTransfer(f.bytes, WriteBytes(f, Payload(sec)).bytes, 0, z, f.pos, f.pos + sec.size);
  }

  /**
    As written, a DOL whose slot 0 is not in use but whose slot 1 is has
    everything from the start of the stream to the end of its header
    overwritten with zeros: the loop seeks back to `end`, still 0, and
    fills from there up to slot 1.
   */
  lemma AsWrittenZeroesHeader(d: Dol, s: Stream)
    requires DolOk(d) && !Present(d.sections[0]) && Present(d.sections[1])
    requires forall j :: 1 <= j < Slots && Present(d.sections[j]) ==> DolHeaderSize <= d.sections[j].offset
    ensures At(WriteDol(AsWritten, d, s).bytes, 0, Zeros(s.pos + DolHeaderSize))
  {
    var h := WriteFields(s, WordFields(HeaderWords(d)), Words(HeaderWordCount));
    assert WriteDol(AsWritten, d, s) == WriteSlots(h, d.sections, s.pos, 0, 0);
    SlotsZeroHeader(h, d.sections, s.pos);
  }

  /** The as-written loop, started with `end` at 0 and slot 0 not in use, zeroes `[0, base + DolHeaderSize)` when slot 1 and every later slot in use start past the header. */
  lemma SlotsZeroHeader(h: Stream, secs: seq<Section>, base: nat)
    requires 2 <= |secs| && !Present(secs[0]) && Present(secs[1])
    requires forall j :: 1 <= j < |secs| && Present(secs[j]) ==> DolHeaderSize <= secs[j].offset
    ensures At(WriteSlots(h, secs, base, 0, 0).bytes, 0, Zeros(base + DolHeaderSize))
  {
    var z := Zeros(base + DolHeaderSize);
    var sec := secs[1];
    var w := WriteBytes(FillTo(Seek(h, 0), base + sec.offset), Payload(sec));
    RefillZeroes(h, sec, base);
    var end' := SectionEnd(base, sec);
    assert ClearOf(secs, base, 2, 0, z);
    SlotsKeep(Seek(w, end'), secs, base, end', 2, 0, z);
    SkipThenTake(h, secs, base, 0);
  }

  /**
    Reading back the DOL that the as-written writer erased: the header is
    all zeros, so every slot reads as not in use and slot 1 is lost.
   */
  lemma AsWrittenLosesSlots(d: Dol, into: Dol, s: Stream)
    requires DolOk(d) && DolOk(into) && !Present(d.sections[0]) && Present(d.sections[1])
    requires forall j :: 1 <= j < Slots && Present(d.sections[j]) ==> DolHeaderSize <= d.sections[j].offset
    ensures var r := ReadDol(into, Seek(WriteDol(AsWritten, d, s), s.pos));
      r.Ok? && (forall j :: 0 <= j < Slots ==> !Present(r.value.value.sections[j])) &&
      r.value.value != Stored(d, into)
  {
    var out := WriteDol(AsWritten, d, s);
    AsWrittenZeroesHeader(d, s);
    AtConcat(out.bytes, 0, Zeros(s.pos), Zeros(DolHeaderSize));
    assert Zeros(s.pos) + Zeros(DolHeaderSize) == Zeros(s.pos + DolHeaderSize);
    var none := WithHeader(into, ZeroWords(HeaderWordCount));
    HeaderWordsOf(into, ZeroWords(HeaderWordCount));
    ZeroWordsBytes(HeaderWordCount);
    assert HeaderBytes(none) == Zeros(DolHeaderSize);
    ReadDolIs(none, into, Seek(out, s.pos));
    LoadStored(none, into, Seek(out, s.pos + DolHeaderSize), s.pos);
    assert Present(Stored(d, into).sections[1]);
  }

  /**
    With `end` still 0, a slot not in use followed by one in use sends the
    cursor back to 0 and fills from there.
   */
  lemma SkipThenTake(t: Stream, secs: seq<Section>, base: nat, i: nat)
    requires i + 1 < |secs| && !Present(secs[i]) && Present(secs[i + 1])
    ensures var sec := secs[i + 1];
      var w := WriteBytes(FillTo(Seek(t, 0), base + sec.offset), Payload(sec));
      WriteSlots(t, secs, base, 0, i) == WriteSlots(Seek(w, SectionEnd(base, sec)), secs, base, SectionEnd(base, sec), i + 2)
  {
    SkipSlot(t, secs, base, 0, i);
    TakeSlot(Seek(t, 0), secs, base, 0, i + 1);
  }

  /** One turn of the loop over a slot not in use. */
  lemma SkipSlot(t: Stream, secs: seq<Section>, base: nat, end: nat, i: nat)
    requires i < |secs| && !Present(secs[i])
    ensures WriteSlots(t, secs, base, end, i) == WriteSlots(Seek(t, end), secs, base, end, i + 1)
  {
  }

  /** One turn of the loop over a slot in use. */
  lemma TakeSlot(t: Stream, secs: seq<Section>, base: nat, end: nat, i: nat)
    requires i < |secs| && Present(secs[i])
    ensures var sec := secs[i];
      var end' := Max(end, SectionEnd(base, sec));
      WriteSlots(t, secs, base, end, i) ==
      WriteSlots(Seek(WriteBytes(FillTo(t, base + sec.offset), Payload(sec)), end'), secs, base, end', i + 1)
  {
  }
}
