# GameCube disc image codec — a Dafny model

This project models the core of `gcmtools`, a reader and writer for GameCube
disc images (GCM files). A disc image has five parts:

- the boot header at offset 0: 0x440 bytes of byte arrays and big-endian words;
- the bi2 (debug information) header at 0x440: eight words and 0x1fe0 verbatim bytes;
- the apploader at 0x2440: a 32-byte header followed by a payload whose size
  is derived from the header's length and trailer;
- the boot program in DOL format at the boot header's DOL offset: 57
  big-endian words (18 section offsets, 18 load addresses, 18 sizes, the bss
  address, the bss size and the entry point), then the payload of every
  section slot whose offset and size are both non-zero;
- the file system table (FST) at the boot header's FST offset: a pre-order
  array of 12-byte records, a NUL-terminated name table, and the file data
  aligned to 4096 bytes.

`gcm::open` reads the parts in that order. `gcm::write` writes them in the same
order, and moves the FST to the next 0x1000 boundary when the DOL runs past
it. `gcm::close` drops the stream and resets the apploader, the DOL and the
FST.

Every codec is a pure function over a `Stream`: the contents as a byte
sequence, a cursor, and whether the stream can be read, written and sought
(`streams.dfy`). `readm(n)` and `writem(v, n)` of the stream library are
modelled as n-byte most-significant-first numbers. That library is not part
of this model, so this encoding is an assumption. A write past the end zero-fills
any gap, as a file does. A read past the end fails with `Truncated`; the
source does not show what its stream does there, so this is a modelling
choice.

Where the source has a defect, each affected codec takes a `Variant`
parameter: `AsWritten` follows the code, and `Corrected` follows the evidently
intended behaviour (see "## Findings"). The round-trip theorems are stated
for `Corrected`. Each defect has a lemma that exhibits it on `AsWritten`.

Files:

| file | module | contents |
|---|---|---|
| bytes.dfy | Bytes | big-endian encoding of numbers, alignment, padding |
| streams.dfy | Streams | the stream, results, reads and writes |
| fields.dfy | Fields | fixed layouts of raw byte arrays and big-endian numbers |
| header.dfy | Headers | boot header and bi2 header |
| apploader.dfy | Apploaders | the apploader and its payload size |
| dol.dfy, dol_proofs.dfy | Dols, DolProofs | the DOL codec and its properties |
| dataref.dfy | DataRefs | references to file data |
| fst.dfy, fst_proofs.dfy, fst_findings.dfy | Fst, FstProofs, FstFindings | the FST codec, its round trip, and its two defects |
| gcm.dfy, gcm_proofs.dfy | Discs, DiscProofs | open, write and close of a whole image |

The main theorem is `DiscProofs.ReadWriteGcm`. Write an image with the
corrected writers to a readable, seekable stream, then open the result with a
freshly closed image. The open then yields:

- the written header, including the FST offset after any move;
- the same bi2 header;
- the apploader with its payload sized by the header;
- the DOL with every section in use;
- an FST whose entries read back as the entries written.

## Model

| member | source | states |
|---|---|---|
| Bytes.DecodeEncode | gcm.hpp:216-223 | a number written with `writem(v, n)` reads back with `readm(n)` as v modulo 256^n |
| Bytes.EncodeDecode | gcm.hpp:147-154 | n bytes read as a number and written back with the same width are the same n bytes |
| Headers.BootLayoutSpan | gcm.hpp:44-65 | the boot header's fields, in declaration order, span exactly 0x440 bytes |
| Headers.ReadBootHeader | gcm.hpp:129-157 | the read succeeds exactly when 0x440 bytes remain; every array has its declared size and the cursor moves past the header |
| Headers.WriteBootHeader | gcm.hpp:198-224 | the header's 0x440 bytes land at the cursor, nothing outside them changes, and the cursor moves past them |
| Headers.ReadWriteBootHeader | gcm.hpp:198-224 | a written boot header reads back as the same header, with the cursor where the writer left it |
| Headers.WriteReadBootHeader | gcm.hpp:129-157 | writing back a header just read leaves the bytes unchanged and only moves the cursor |
| Headers.InfoLayoutSpan | gcm.hpp:67-78 | the bi2 fields span exactly 0x2000 bytes |
| Headers.ReadInfo | gcm.hpp:159-171 | the read succeeds exactly when 0x2000 bytes remain; the trailing array has 0x1fe0 bytes and the cursor moves past the block |
| Headers.WriteInfo | gcm.hpp:226-236 | the block's 0x2000 bytes land at the cursor and nothing else changes |
| Headers.ReadWriteInfo | gcm.hpp:226-236 | a written bi2 header reads back as the same header |
| Headers.WriteReadInfo | gcm.hpp:159-171 | writing back a bi2 header just read leaves the bytes unchanged |
| Apploaders.AppLayoutSpan | gcm/appldr.hpp:18-24 | date, entry point, length, trailer and padding span 32 bytes |
| Apploaders.PayloadSizeAsWritten | gcm/appldr.hpp:49 | the size the source computes is a multiple of 32 that fits a signed 32-bit int |
| Apploaders.PayloadSizeCorrected | gcm/appldr.hpp:67 | the intended size is the least multiple of 32 holding length + trailer bytes |
| Apploaders.AsWrittenSizeShort | gcm/appldr.hpp:49 | for length + trailer in 1..2^31 the computed size is 1 to 32 bytes short; for 0 it is negative |
| Apploaders.ReadApploader | gcm/appldr.hpp:39-55 | a non-readable stream is refused; on success the payload has exactly the formula's size and the cursor moves past header and payload |
| Apploaders.WriteApploader | gcm/appldr.hpp:57-69 | refused exactly when the stream is not writable or the size is negative; otherwise the cursor moves by 32 + size |
| Apploaders.WriteApploaderEffect | gcm/appldr.hpp:61-68 | the header bytes land at the cursor and the payload, padded or cut to the size, right after |
| Apploaders.ReadWriteApploader | gcm/appldr.hpp:57-69 | a written apploader reads back with the same header and its payload fitted to the size |
| Apploaders.WriteReadApploader | gcm/appldr.hpp:39-55 | writing back an apploader just read changes no byte |
| Apploaders.AsWrittenReadsShort | gcm/appldr.hpp:49 | as written, the payload read is shorter than the length + trailer the header declares |
| Apploaders.CorrectedReadsWhole | gcm/appldr.hpp:49 | corrected, the payload read covers length + trailer and less than 32 bytes more |
| Dols.ReadDol | gcm/dol.hpp:50-73 | on success the section table keeps its 18 slots and the read only moves the cursor |
| Dols.LoadSlotsFit | gcm/dol.hpp:64-70 | loading succeeds exactly when every slot in use has its payload inside the stream |
| DolProofs.ReadDolFresh | gcm/dol.hpp:64-70 | read into a default-constructed DOL, every slot not in use holds no payload |
| Dols.LoadSlotsLoads | gcm/dol.hpp:64-70 | each slot in use holds the bytes at DOL start + offset for its size; each other slot keeps its old buffer |
| Dols.FillTo | gcm/dol.hpp:105-116 | the cursor ends at the target; the bytes between the old cursor and the target are zero and nothing else changes |
| Dols.FillToLoop | gcm/dol.hpp:105-116 | the byte-by-byte loop computes the same stream as `FillTo` |
| DolProofs.WriteDolHeader | gcm/dol.hpp:78-87 | the corrected writer: the 57 header words land at the cursor in the order the reader takes them, when no section starts inside the header (the as-written writer zeroes them, see DolProofs.AsWrittenZeroesHeader) |
| DolProofs.WriteDolPayload | gcm/dol.hpp:89-92 | a slot in use that no later slot overlaps has its payload at DOL start + offset |
| DolProofs.WriteDolPayloads | gcm/dol.hpp:89-92 | for a DOL laid out without overlaps, every slot in use has its payload at DOL start + offset |
| Dols.WriteSlots | gcm/dol.hpp:89-100 | the stream keeps its flags; when a slot remains, the cursor ends at or past the running end and past the end of every remaining slot in use |
| Dols.WriteDol | gcm/dol.hpp:75-103 | the stream keeps its flags; the cursor ends at or past the loop's starting end (0 as written, the header's end corrected) and past the end of every slot in use |
| DolProofs.WriteDolGapsZero | gcm/dol.hpp:89-116 | the corrected writer: every byte from the end of the header up to the final cursor that no slot in use covers is zero, whatever the order of the slots |
| DolProofs.WriteDolCursor | gcm/dol.hpp:94-99 | the cursor ends at the largest end of a slot in use, or at the loop's starting end (0 as written) when that is larger |
| DolProofs.WriteDolKeepsBelow | gcm/dol.hpp:75-103 | the corrected writer changes no byte before its starting cursor |
| DolProofs.ReadWriteDol | gcm/dol.hpp:50-73 | a DOL written by the corrected writer reads back with the same header words and every slot in use holding its payload |
| DolProofs.ReadStored | gcm/dol.hpp:64-70 | a header and payloads found in place read as the stored DOL |
| DolProofs.StoredExact | gcm/dol.hpp:64-70 | slots in use whose buffers have their declared size come back unchanged |
| DolProofs.AsWrittenAgrees | gcm/dol.hpp:76 | when slot 0 is in use and after the header, the as-written writer equals the corrected one |
| DolProofs.AsWrittenZeroesHeader | gcm/dol.hpp:99 | as written, with slot 0 unused and slot 1 used, every byte from 0 through the end of the DOL header is zero |
| DolProofs.AsWrittenLosesSlots | gcm/dol.hpp:99 | in that case the DOL reads back with no slot in use, not as the DOL written |
| DataRefs.ReadRange | gcm/fst.hpp:66-73 | `len` bytes at `off` are read and the cursor is put back where it was |
| DataRefs.ReadRef | gcm/fst.hpp:60-88 | a `none` reference fails; a buffer, stream or file reference fails when it is null, and otherwise gives the referenced range |
| DataRefs.StreamRefIgnoresCursor | gcm/fst.hpp:68-72 | what a stream reference reads does not depend on the stream's cursor |
| DataRefs.MakeFileRef | gcm/fst.hpp:41-48 | a file reference with offset and length 0 takes the file's size as its length |
| Fst.ReadRecord | gcm/fst.hpp:144-147 | a record is 12 bytes: a 1-byte flag, a 3-byte name offset and two 4-byte words |
| Fst.ScanName | gcm/fst.hpp:132-137 | the name is the bytes up to the first NUL, within 256 bytes |
| Fst.GrabFilename | gcm/fst.hpp:126-141 | a name shorter than 256 bytes is read at the offset and the stream is left as it was |
| Fst.ReadEntry | gcm/fst.hpp:143-163 | an entry consumes one record per node of its subtree and moves the shared counter by the subtree's size |
| Fst.ReadChildren | gcm/fst.hpp:153-159 | children are read while the counter is below the directory's bound; the counter ends at or past the bound |
| Fst.ReadFst | gcm/fst.hpp:219-244 | warns exactly on a root flag other than 1, a non-zero root name offset or a non-zero root A; appends the entries read to the root's children |
| Fst.PreflightAsWritten | gcm/fst.hpp:203-211 | as written, the preflight counts every node but leaves the name table size unchanged |
| Fst.Preflight | gcm/fst.hpp:203-211 | corrected, the preflight also adds name length + 1 for every node below the root |
| Fst.FileCount | gcm/fst.hpp:213-217 | the count is the number of nodes including the root |
| Fst.WriteNode | gcm/fst.hpp:170-197 | a node's record is 12 bytes at the cursor and the cursor returns to just after it |
| Fst.EmitEntry | gcm/fst.hpp:165-201 | after a subtree, the entry counter grew by its size, the name cursor by its names, and the record cursor by 12 per node |
| Fst.EmitChildren | gcm/fst.hpp:199-200 | the same for a sequence of subtrees written in order |
| Fst.WriteFstAsWritten | gcm/fst.hpp:246-271 | refused exactly on a non-writable stream; the cursor ends after the last record |
| Fst.WriteFst | gcm/fst.hpp:246-271 | the same for the corrected writer |
| FstProofs.WriteRecordAt | gcm/fst.hpp:170-174 | a record's 12 bytes land at the cursor |
| FstProofs.ReadRecordAt | gcm/fst.hpp:144-147 | a record whose fields fit their widths reads back as itself |
| FstProofs.ScanNameAt | gcm/fst.hpp:132-137 | a NUL-terminated name without inner NULs scans back as itself |
| FstProofs.GrabFilenameAt | gcm/fst.hpp:126-141 | a recoverable name written at an offset is read back as itself |
| FstProofs.EmitChildrenCursors | gcm/fst.hpp:184-194 | the writer's cursors after a sequence of subtrees are the ones the layout predicts |
| FstProofs.WriteNodeLays | gcm/fst.hpp:170-197 | one node puts its record, its name + NUL and, when it is a file with data to write, its payload at the 4096-aligned data cursor, and touches nothing else |
| FstProofs.EmitChildrenLays | gcm/fst.hpp:165-201 | the writer lays out every node of the subtrees: records in pre-order, names and payloads at their cursors |
| FstProofs.ReadEntryLaid | gcm/fst.hpp:143-163 | a laid-out subtree is read back: a directory's B is exactly the bound the reader stops on |
| FstProofs.ReadChildrenLaid | gcm/fst.hpp:153-159 | laid-out siblings are read back in order, ending at the counter after the last one |
| FstProofs.ReadFstLaid | gcm/fst.hpp:219-244 | a laid-out table with its root record reads back without warnings and stops after the last record |
| FstProofs.RecoveredAllReadsBack | gcm/fst.hpp:153-162 | what the reader recovers has the written names; directories come back with their children, files as stream references of the written length holding the payload |
| FstProofs.EmitTableReads | gcm/fst.hpp:246-271 | for either writer, the table written reads back as the children recovered from its layout |
| FstProofs.WriteFstReadsBack | gcm/fst.hpp:246-271 | the corrected table of a tree with recoverable names reads back as that tree, without warnings, ending where the writer ended |
| FstProofs.EmitTableKeepsBelow | gcm/fst.hpp:246-271 | writing the table changes no byte before where it starts |
| FstProofs.ReadEntryIsDir | gcm/fst.hpp:166-170 | for any entry the reader builds: the corrected directory test holds exactly when its record had flag 1, so the corrected writer emits flag 1 exactly then; the as-written test holds only when it also has children |
| FstProofs.NodeRecordFits | gcm/fst.hpp:170-174 | the record emitted for a node (flag, name offset, data offset or child bound, length) fits its field widths when the node's subtree does |
| FstFindings.EmptyDirReadsAsFile | gcm/fst.hpp:166 | as written, an empty directory reads back as a file |
| FstFindings.EmptyDirReadsAsDir | gcm/fst.hpp:166 | corrected, the same tree reads back as an empty directory |
| FstFindings.FileAReadsAsB | gcm/fst.hpp:207 | as written, a file's data overwrites its name: file `a` holding `b`, NUL reads back named `b` |
| FstFindings.FileAReadsAsA | gcm/fst.hpp:207 | corrected, the same file reads back named `a` with its data |
| Discs.Open | gcm.hpp:99-127 | refuses a non-readable, then a non-seekable stream; on success every part has its declared size, the stream is kept, the FST entries are appended to the ones held, and each part is what its reader gives at 0, 0x440, 0x2440, the DOL offset and the FST offset (`PartsFrom`) |
| Discs.OpenInto | gcm.hpp:99-127 | the same, reading the DOL into a given DOL and the FST under a given root: each part is the one its reader gives at its offset |
| Discs.Relocate | gcm.hpp:188-192 | the FST stays put unless the cursor is past it; then it moves to the least 0x1000 multiple at or above the cursor, with 32-bit wrap to 0 at the top |
| Discs.WriteParts | gcm.hpp:177-186 | the fixed parts are written exactly when the stream is writable and the apploader size is not negative |
| Discs.Rewrite | gcm.hpp:178 | corrected, the boot header is written again at 0; as written, nothing changes |
| Discs.WriteTable | gcm.hpp:192-193 | the table is written exactly when the stream is writable, ending after its last record |
| Discs.WriteRest | gcm.hpp:188-193 | the image returned differs from the one given only in the relocated FST offset |
| Discs.WriteGcm | gcm.hpp:173-196 | a non-writable stream is refused; the write succeeds exactly when the stream is writable and the apploader size is not negative, and only the FST offset of the image changes |
| Discs.Close | gcm.hpp:238-246 | the stream is dropped and both headers are kept; the FST is reset to a root with no name, no data and no children, the DOL to no slot in use, and the apploader to no payload |
| DiscProofs.CloseForgets | gcm.hpp:238-246 | what a closed image opens does not depend on the image it was closed from |
| DiscProofs.ClosedOpensClean | gcm.hpp:238-246 | opened after close, the root has no name and no data, and no DOL slot not in use holds a payload |
| DiscProofs.OverrunMoves | gcm.hpp:189-190 | when the DOL ends past the FST offset, the FST moves to or above the DOL's end |
| DiscProofs.PartsLaid | gcm.hpp:177-186 | the corrected fixed parts leave the bi2 header, apploader and DOL where the reader looks for them |
| DiscProofs.RestLaid | gcm.hpp:188-193 | writing the table keeps everything from the end of the boot header to the DOL's end; corrected, the boot header is the relocated one |
| DiscProofs.WrittenLaid | gcm.hpp:173-196 | after a corrected write every part is in place and the FST at the new offset reads back as the tree written |
| DiscProofs.OpenSteps | gcm.hpp:106-122 | open is the sequence of part reads at 0, 0x440, 0x2440, the DOL offset and the FST offset |
| DiscProofs.OpenLaid | gcm.hpp:99-127 | a stream holding every part in place opens into exactly those parts |
| DiscProofs.ReadWriteGcm | gcm.hpp:173-196 | a corrected write opened again yields the written header, bi2 header, apploader, DOL and FST tree |
| DiscProofs.CorrectedHeaderCurrent | gcm.hpp:173-196 | corrected, the boot header on disc is the one with the relocated FST offset |
| DiscProofs.AsWrittenHeaderStale | gcm.hpp:178-192 | as written, when the DOL overruns the FST, the header on disc keeps the old FST offset and differs from the image's header |

## Left out

- The stream library (`nall::stream`, `nall::file`) is not part of this model. Its reads, big-endian
  `readm`/`writem`, seeks and zero-filled growth are the assumptions stated above.
- Reads past the end of the stream fail with `Truncated`, and a name with no NUL within 256 bytes
  fails with `UnterminatedName`. The source has no bounds checks in `recursiveRead` or the other
  readers, so these failures are a modelling choice for malformed input.
- Discs.Open: fails when a part runs off the end of the stream. The source ignores the part readers'
  results and returns true.
- Discs.Open: the diagnostic warnings that `fst::read` prints are returned by `Fst.ReadFst` but
  dropped by `Open`, as the source only prints them.
- Diagnostic `print` calls (gcm/fst.hpp:81, 225-229) become warning values or are dropped.
- Cursors and offsets in the writers and readers are unbounded naturals. Only `Relocate` models
  the source's 32-bit arithmetic. Other writer cursors wrap near 4 GiB in the source too and would
  change where payloads land: the DOL's `unsigned end` (gcm/dol.hpp:94) and the FST data cursor
  `*dataOffset` (gcm/fst.hpp:172, 187-194). The readers' sums are not wrapped either:
  `fileCount * 0xC + fstOffset` (gcm/fst.hpp:232, `Fst.ReadFst` through `RecordAt`), `strTableOffset + fnoffset` passed through an `int`
  (gcm/fst.hpp:151, `Fst.ReadEntry` through `GrabFilename`) and `doloffset + section[i].offset`
  (gcm/dol.hpp:67, `Dols.LoadSlots`). On a stream shorter than 4 GiB a wrapped sum would name
  another position than the model's, which then fails with `Truncated`. The disc-level theorems
  require the layout to stay below 2^32.
- DataRefs.StreamRef: holds a value copy of the stream, where the source keeps a pointer to the
  live stream (gcm/fst.hpp:38-39, 66-72). When an image is written back into the stream it was
  opened from, the source's references read the bytes as overwritten by then; the model's read the
  bytes as they were when the image was opened.
- Fields the source leaves uninitialised (a default-constructed apploader header, DOL, or a data
  buffer whose reference fails during an FST write) are modelled as zero bytes.
- Apploaders.WriteApploader: a negative size (the as-written formula at 2^31 or more, or at 0) is
  refused with `BadAllocation` before anything is written. The source writes the 32-byte header
  and then calls `strm->write(data, size)` with the negative `int` converted to about 4 GiB, an
  over-read of `data` (gcm/appldr.hpp:61-68). On the read side the same refusal matches the
  source: `new uint8_t[size]` with a negative `size` throws `std::bad_array_new_length` in C++11
  (gcm/appldr.hpp:27, 52).
- Apploaders.ReadWriteApploader: the payload is padded or cut to the computed size (`Fit`). The
  source writes `size` bytes from a buffer of unknown length.
- The path-backed data reference (gcm/fst.hpp:41-48, 74-83) is a host file given by value as an
  optional byte sequence. Opening and reading host files is I/O.
- Memory management is not modelled: `delete strm`, the `dataref` destructor, `new`/`delete[]`
  buffers, and the missing `return` statements at the end of `apploader::read` (gcm/appldr.hpp:39-55)
  and of the apploader and header writers.
- The front ends (gcm-tool.cpp, gcm-info.cpp) and the UI widgets are not part of this model.
- The DOL header is 57 words (0xe4 bytes), because that is what `dol::read` and `dol::write`
  read and write (gcm/dol.hpp:53-62, 78-87).
- A DOL section's buffer is padded or cut to its declared size when written (`Fit`). The source
  writes `size` bytes from a buffer of unknown length.
- DiscProofs.ReadWriteGcm: stated only for images whose apploader ends before the DOL, whose DOL
  sections start after its header and do not overlap, whose names contain no NUL and are shorter
  than 256 bytes, and whose offsets fit their fields. The source promises nothing for other images.

## Findings

| source | as written | input that shows it | evidently intended | confidence | as-written member | corrected member |
|---|---|---|---|---|---|---|
| gcm/fst.hpp:207 | `strTableSize += …` advances the pointer, so the name table size stays 0 and file data starts right after the records | a root with one file `a` of 2 bytes (`b`, NUL), written at 4072 | `*strTableSize += …`, so data starts after the name table | high, not executed | FstFindings.FileAReadsAsB | FstFindings.FileAReadsAsA |
| gcm/fst.hpp:166 | a directory is recognised by having children, so an empty directory is written with flag 0 as a file | a root with one empty directory `d` | an entry with no data reference is a directory | medium, not executed | FstFindings.EmptyDirReadsAsFile | FstFindings.EmptyDirReadsAsDir |
| gcm/dol.hpp:99 | `endoffset` starts at 0 and the loop seeks to it after every slot, so an unused slot 0 sends the next slot's zero-fill back to offset 0 | a DOL with slot 0 unused and slot 1 in use | the running end starts at the end of the header | high, not executed | DolProofs.AsWrittenLosesSlots | DolProofs.ReadWriteDol |
| gcm/appldr.hpp:49 | `(length + trailer - 1) / 32 * 32` rounds down, dropping 1 to 32 payload bytes, and wraps at 0 | any header with length + trailer = 33, which gives size 32 | round up to a multiple of 32 | high, not executed | Apploaders.AsWrittenReadsShort | Apploaders.CorrectedReadsWhole |
| gcm.hpp:178 | the boot header is written before the FST offset is moved at line 190, so the disc keeps the old offset | a DOL whose section ends past the header's FST offset | write the header after the move | high, not executed | DiscProofs.AsWrittenHeaderStale | DiscProofs.CorrectedHeaderCurrent |
