/**
  The boot program in DOL format: a header of 57 big-endian words (18
  section offsets, 18 load addresses, 18 sizes, then the bss address, the
  bss size and the entry point) followed by the sections' payloads.

  Offsets are relative to where the DOL starts. A section slot is in use
  only when both its offset and its size are non-zero; only such slots
  have a payload on disc.
 */
module Dols {
  import opened Bytes
  import opened Streams
  import opened Fields
  import opened Variants

  const Slots: nat := 18
  const HeaderWordCount: nat := 57
  const DolHeaderSize: nat := 0xe4

  datatype Section = Section(offset: u32, baseAddr: u32, size: u32, buffer: seq<byte>)

  datatype Dol = Dol(sections: seq<Section>, bssAddr: u32, bssSize: u32, entrypoint: u32)

  /** The section table has its fixed number of slots. */
  predicate DolOk(d: Dol)
  {
    |d.sections| == Slots
  }

  /** A default-constructed DOL: every slot empty (uninitialised fields modelled as zero). */
  const EmptyDol: Dol := Dol(EmptySlots(Slots), 0, 0, 0)

  /** `n` slots not in use, with no payload. */
  function EmptySlots(n: nat): (secs: seq<Section>)
    ensures |secs| == n && forall i :: 0 <= i < n ==> secs[i] == Section(0, 0, 0, [])
  {
    if n == 0 then [] else EmptySlots(n - 1) + [Section(0, 0, 0, [])]
  }

  /** A slot in use: non-zero offset and non-zero size. */
  predicate Present(sec: Section)
  {
    sec.offset > 0 && sec.size > 0
  }

  // ---------------------------------------------------------------------
  // Header words
  // ---------------------------------------------------------------------

  /** A layout of `n` 4-byte words. */
  function Words(n: nat): (ks: seq<Kind>)
    ensures |ks| == n && forall i :: 0 <= i < n ==> ks[i] == Num(4)
  {
    seq(n, _ => Num(4))
  }

  lemma {:induction false} WordsSpan(n: nat)
    ensures Span(Words(n)) == 4 * n
  {
    if n > 0 {
      assert Words(n)[1..] == Words(n - 1);
      WordsSpan(n - 1);
    }
  }

  lemma HeaderSpan()
    ensures Span(Words(HeaderWordCount)) == DolHeaderSize
  {
    WordsSpan(HeaderWordCount);
  }

  /** The 57 header words in the order they are stored. */
  function HeaderWords(d: Dol): (ws: seq<u32>)
    requires DolOk(d)
    ensures |ws| == HeaderWordCount
  {
    seq(Slots, i requires 0 <= i < Slots => d.sections[i].offset) +
    seq(Slots, i requires 0 <= i < Slots => d.sections[i].baseAddr) +
    seq(Slots, i requires 0 <= i < Slots => d.sections[i].size) +
    [d.bssAddr, d.bssSize, d.entrypoint]
  }

  function WordFields(ws: seq<u32>): (fs: seq<Field>)
    ensures |fs| == |ws| && Conforms(fs, Words(|ws|))
  {
    FieldLimits();
    seq(|ws|, i requires 0 <= i < |ws| => Word(ws[i]))
  }

  function WordsOf(fs: seq<Field>): (ws: seq<u32>)
    ensures |ws| == |fs|
  {
    seq(|fs|, i requires 0 <= i < |fs| => if fs[i].Word? && fs[i].value < U32Limit then fs[i].value else 0)
  }

  lemma WordsOfConforms(fs: seq<Field>)
    requires Conforms(fs, Words(|fs|))
    ensures WordFields(WordsOf(fs)) == fs
  {
    FieldLimits();
    var ws := WordsOf(fs);
    forall i | 0 <= i < |fs| ensures WordFields(ws)[i] == fs[i] {
      assert FieldFits(fs[i], Words(|fs|)[i]);
    }
  }

  /** `into` with its section geometry and tail words replaced by the header words `ws`. */
  function WithHeader(into: Dol, ws: seq<u32>): (d: Dol)
    requires DolOk(into) && |ws| == HeaderWordCount
    ensures DolOk(d)
  {
    Dol(seq(Slots, i requires 0 <= i < Slots =>
          into.sections[i].(offset := ws[i], baseAddr := ws[Slots + i], size := ws[2 * Slots + i])),
        ws[54], ws[55], ws[56])
  }

  /** The 228 bytes the header of `d` is stored as. */
  function HeaderBytes(d: Dol): (b: seq<byte>)
    requires DolOk(d)
    ensures |b| == DolHeaderSize
  {
    HeaderSpan();
    EncodeFields(WordFields(HeaderWords(d)), Words(HeaderWordCount))
  }

  /** Taking the header words of a DOL gives back its geometry. */
  lemma HeaderWordsOf(into: Dol, ws: seq<u32>)
    requires DolOk(into) && |ws| == HeaderWordCount
    ensures HeaderWords(WithHeader(into, ws)) == ws
  {
    var h := HeaderWords(WithHeader(into, ws));
    forall i | 0 <= i < HeaderWordCount ensures h[i] == ws[i] {
    }
  }

  // ---------------------------------------------------------------------
  // Reading
  // ---------------------------------------------------------------------

  /**
    The payloads of the slots from `i` on, each read at `base + offset`.
    Slots not in use keep their buffer.
   */
  function LoadSlots(d: Dol, s: Stream, base: nat, i: nat): (r: Result<Got<Dol>>)
    requires DolOk(d) && i <= Slots
    ensures r.Ok? ==> DolOk(r.value.value) && r.value.rest == Seek(s, r.value.rest.pos)
    ensures r.Ok? ==> (r.value.value.bssAddr, r.value.value.bssSize, r.value.value.entrypoint) ==
                      (d.bssAddr, d.bssSize, d.entrypoint)
    decreases Slots - i
  {
    if i == Slots then Ok(Got(d, s))
    else if Present(d.sections[i]) then
      var sec := d.sections[i];
      var g :- ReadBytes(Seek(s, base + sec.offset), sec.size);
      LoadSlots(d.(sections := d.sections[i := sec.(buffer := g.value)]), g.rest, base, i + 1)
    else
      LoadSlots(d, s, base, i + 1)
  }

  /** Every slot from `i` on that is in use lies within the bytes `b`. */
  predicate SlotsFit(d: Dol, b: seq<byte>, base: nat, i: nat)
    requires DolOk(d)
  {
    forall j :: i <= j < Slots && Present(d.sections[j]) ==> SectionEnd(base, d.sections[j]) <= |b|
  }

  /**
    `sec` is `was` after loading: same geometry, and when `loaded` and the
    slot is in use, the payload is the bytes of `b` at `base + offset`.
   */
  predicate LoadedAs(sec: Section, was: Section, b: seq<byte>, base: nat, loaded: bool)
  {
    sec.offset == was.offset && sec.baseAddr == was.baseAddr && sec.size == was.size &&
    if loaded && Present(was) then
      SectionEnd(base, sec) <= |b| && sec.buffer == b[base + sec.offset..SectionEnd(base, sec)]
    else sec.buffer == was.buffer
  }

  /** The slots from `i` on all load exactly when they all fit. */
  lemma {:induction false} LoadSlotsFit(d: Dol, s: Stream, base: nat, i: nat)
    requires DolOk(d) && i <= Slots
    ensures LoadSlots(d, s, base, i).Ok? <==> SlotsFit(d, s.bytes, base, i)
    decreases Slots - i
  {
    if i < Slots {
      var sec := d.sections[i];
      if Present(sec) {
        var g := ReadBytes(Seek(s, base + sec.offset), sec.size);
        if g.Ok? {
          var d' := d.(sections := d.sections[i := sec.(buffer := g.value.value)]);
          LoadSlotsFit(d', g.value.rest, base, i + 1);
          assert forall j :: i < j < Slots ==> d'.sections[j] == d.sections[j];
        }
      } else {
        LoadSlotsFit(d, s, base, i + 1);
      }
    }
  }

  /** Each slot from `i` on that is in use loads its own bytes; the others are untouched. */
  lemma {:induction false} LoadSlotsLoads(d: Dol, s: Stream, base: nat, i: nat)
    requires DolOk(d) && i <= Slots && LoadSlots(d, s, base, i).Ok?
    ensures var e := LoadSlots(d, s, base, i).value.value;
      forall j :: 0 <= j < Slots ==> LoadedAs(e.sections[j], d.sections[j], s.bytes, base, i <= j)
    decreases Slots - i
  {
    if i < Slots {
      var sec := d.sections[i];
      if Present(sec) {
        var g := ReadBytes(Seek(s, base + sec.offset), sec.size).value;
        var d' := d.(sections := d.sections[i := sec.(buffer := g.value)]);
        LoadSlotsLoads(d', g.rest, base, i + 1);
        LoadedPresent(LoadSlots(d', g.rest, base, i + 1).value.value, d, s.bytes, base, i);
      } else {
        LoadSlotsLoads(d, s, base, i + 1);
        LoadedAbsent(LoadSlots(d, s, base, i + 1).value.value, d, s.bytes, base, i);
      }
    }
  }

  /** The payload of slot `i` as the loader reads it from `b`. */
  function LoadedSlot(d: Dol, b: seq<byte>, base: nat, i: nat): Dol
    requires DolOk(d) && i < Slots && SectionEnd(base, d.sections[i]) <= |b|
  {
    var sec := d.sections[i];
    d.(sections := d.sections[i := sec.(buffer := b[base + sec.offset..SectionEnd(base, sec)])])
  }

  lemma LoadedPresent(e: Dol, d: Dol, b: seq<byte>, base: nat, i: nat)
    requires DolOk(d) && DolOk(e) && i < Slots && Present(d.sections[i])
    requires SectionEnd(base, d.sections[i]) <= |b|
    requires forall j :: 0 <= j < Slots ==> LoadedAs(e.sections[j], LoadedSlot(d, b, base, i).sections[j], b, base, i + 1 <= j)
    ensures forall j :: 0 <= j < Slots ==> LoadedAs(e.sections[j], d.sections[j], b, base, i <= j)
  {
    var d' := LoadedSlot(d, b, base, i);
    forall j | 0 <= j < Slots ensures LoadedAs(e.sections[j], d.sections[j], b, base, i <= j) {
      assert LoadedAs(e.sections[j], d'.sections[j], b, base, i + 1 <= j);
    }
  }

  lemma LoadedAbsent(e: Dol, d: Dol, b: seq<byte>, base: nat, i: nat)
    requires DolOk(d) && DolOk(e) && i < Slots && !Present(d.sections[i])
    requires forall j :: 0 <= j < Slots ==> LoadedAs(e.sections[j], d.sections[j], b, base, i + 1 <= j)
    ensures forall j :: 0 <= j < Slots ==> LoadedAs(e.sections[j], d.sections[j], b, base, i <= j)
  {
    forall j | 0 <= j < Slots ensures LoadedAs(e.sections[j], d.sections[j], b, base, i <= j) {
      assert LoadedAs(e.sections[j], d.sections[j], b, base, i + 1 <= j);
    }
  }

  /**
    `dol::read`: the header at the cursor, then each slot in use. The
    geometry of every slot is replaced; the payload of a slot not in use
    is left as it was in `into`.
   */
  function ReadDol(into: Dol, s: Stream): (r: Result<Got<Dol>>)
    requires DolOk(into)
    ensures r.Ok? ==> DolOk(r.value.value) && r.value.rest == Seek(s, r.value.rest.pos)
  {
    HeaderSpan();
    var g :- ReadFields(s, Words(HeaderWordCount));
    LoadSlots(WithHeader(into, WordsOf(g.value)), g.rest, s.pos, 0)
  }

  // ---------------------------------------------------------------------
  // Writing
  // ---------------------------------------------------------------------

  /** `dol::fillto`: zeros from the cursor up to `target`, or a seek back to it. */
  function FillTo(s: Stream, target: nat): (r: Stream)
    ensures r.pos == target
    ensures SameOutside(s.bytes, r.bytes, s.pos, target)
    ensures forall q :: s.pos <= q < target ==> q < |r.bytes| && r.bytes[q] == 0
    ensures |r.bytes| == if s.pos < target then Max(|s.bytes|, target) else |s.bytes|
    ensures SameFlags(s, r)
  {
    if s.pos < target then WriteBytes(s, Zeros(target - s.pos)) else Seek(s, target)
  }

  /** `fillto` as the source writes it: one zero byte at a time. */
  method FillToLoop(s: Stream, target: nat) returns (r: Stream)
    ensures r == FillTo(s, target)
  {
    r := s;
    while r.pos < target
      invariant if s.pos < target then Filled(s, r) && r.pos <= target else r == s
      decreases target - r.pos
    {
      FillStep(s, r);
      r := WriteBytes(r, [0]);
    }
    if r.pos > target {
      r := Seek(r, target);
    }
  }

  /** `r` is `s` after writing zeros from `s`'s cursor up to `r`'s. */
  predicate Filled(s: Stream, r: Stream)
  {
    s.pos <= r.pos && if r.pos == s.pos then r == s else r == WriteBytes(s, Zeros(r.pos - s.pos))
  }

  /** One more zero byte written by the loop extends the run of zeros written so far. */
  lemma FillStep(s: Stream, r: Stream)
    requires Filled(s, r)
    ensures Filled(s, WriteBytes(r, [0]))
  {
    if r.pos == s.pos {
      assert Zeros(1) == [0];
    } else {
      assert Zeros(r.pos - s.pos) + [0] == Zeros(r.pos + 1 - s.pos);
      WriteConcat(s, Zeros(r.pos - s.pos), [0]);
    }
  }

  /** The end of a slot's payload in the stream. */
  function SectionEnd(base: nat, sec: Section): nat
  {
    base + sec.offset + sec.size
  }

  /**
    The loop of `dol::write` from slot `i` on: for a slot in use, fill up to
    its payload, write the payload and move `end` past it; then, for every
    slot, seek to `end`. A payload shorter than the slot's size is padded
    with zeros (the source reads past the buffer).
   */
  function WriteSlots(s: Stream, secs: seq<Section>, base: nat, end: nat, i: nat): (r: Stream)
    requires i <= |secs|
    ensures SameFlags(s, r)
    ensures i < |secs| ==> end <= r.pos
    ensures forall j :: i <= j < |secs| && Present(secs[j]) ==> SectionEnd(base, secs[j]) <= r.pos
    decreases |secs| - i
  {
    if i == |secs| then s
    else if Present(secs[i]) then
      var sec := secs[i];
      var w := WriteBytes(FillTo(s, base + sec.offset), Fit(sec.buffer, sec.size));
      var end' := Max(end, SectionEnd(base, sec));
      WriteSlots(Seek(w, end'), secs, base, end', i + 1)
    else
      WriteSlots(Seek(s, end), secs, base, end, i + 1)
  }

  /** Where the loop's `end` starts: 0 as written, the end of the header once corrected. */
  function FirstEnd(v: Variant, base: nat): nat
  {
    match v
    case AsWritten => 0
    case Corrected => base + DolHeaderSize
  }

  /** `dol::write`: the header words at the cursor, then the payload of each slot in use. */
  function WriteDol(v: Variant, d: Dol, s: Stream): (r: Stream)
    requires DolOk(d)
    ensures SameFlags(s, r)
    ensures FirstEnd(v, s.pos) <= r.pos
    ensures forall j :: 0 <= j < Slots && Present(d.sections[j]) ==> SectionEnd(s.pos, d.sections[j]) <= r.pos
  {
    HeaderSpan();
    WriteFieldsEffect(s, WordFields(HeaderWords(d)), Words(HeaderWordCount));
    WriteSlots(WriteFields(s, WordFields(HeaderWords(d)), Words(HeaderWordCount)), d.sections, s.pos, FirstEnd(v, s.pos), 0)
  }
}
