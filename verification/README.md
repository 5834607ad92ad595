# PicoSwitch2 models and proofs

A Dafny model of the parts of PicoSwitch2 that are arithmetic, bit layouts and small state
machines, with the properties their callers rely on. Loops and in-place updates of the original
are methods with invariants over arrays, fields or sequences, each proved against a specification
function; the properties are lemmas about those functions.

| files | what they model |
|---|---|
| `Options`, `Bits`, `BitLayout` | an optional result, two's complement, bytes as bits, and a theory of fields that tile a bit string |
| `MotionPacket`, `MotionPacker`, `MotionFields`, `Fixtures` | the 40-byte motion packet: the C packer over byte arrays, the reference decoder, their bijection, where each field lies, two contract rows |
| `MotionPrefix` | the orientation prefix sliced from a carrier, and its unwrapping against a reference |
| `Crc16`, `NonzeroRuns`, `AmiiboImage`, `AmiiboPositions`, `AmiiboCorpus`, `AmiiboSurvey` | the amiibo corpus tool: CRC, run scan, image classifier and what it says about absolute byte positions, equivalence groups, summary counts, and the tool end to end |
| `HidParser`, `HidTheorems`, `HidVerdict`, `AndroidDescriptors` | the tolerant HID report-descriptor interpreter (Device Class Definition for HID 1.11, sections 6.2.2.2 to 6.2.2.8), the keyboard verdict, the Android bridge descriptors |
| `Regression`, `FieldScan` | the motion-block field scan: decoding, least squares, correlation, monotone fraction |
| `ShiftedEqual` | the shifted-duplicate search over two capture streams |
| `FlashAudit` | the flash-region audit and the install-reset marker check |

## Main results

- **The packer and the decoder are inverse.** For each of the three cadence layouts, packing is a
  bijection between in-range field tuples and all 40-byte packets; the C builders, bit by bit over
  an array, compute exactly that packing or leave the caller's buffer alone. Replacing the carrier
  in place equals decoding, replacing one field and packing again. Every field of every packet is
  located by literal offset and width, by cadence.
- **The prefix slice is a floor, and decoding it is exact precisely under a checkable condition**:
  a lane comes back, without the bits it drops, if and only if no other window of the slot's span
  is nearer to the reference.
- **The CRC is a remainder**: the register is what long division of the message bits by
  x^16 + x^12 + x^5 + 1 leaves, from a register of sixteen ones.
- **The CRC detects every burst of up to 16 bits and every odd number of flipped bits in messages
  of any length**, it is affine, and two appended bytes clear the register if and only if they are
  the CRC low byte first. The tag stores it high byte first, which clears the register only when
  the two bytes coincide.
- **The run scan has one right answer**, and a wider gap only merges runs.
- **The descriptor loop is "split, then fold"**, so truncating a descriptor yields prefixes, and
  appending bytes moves no existing field and puts new ones behind the old end of their report. The clamped depth is the greatest
  net opening over all suffixes. A signed payload is the one number of its size congruent to its
  bytes. Truncation never invents a keyboard or a pointer verdict.
- **The score of the linear fit is one minus the least error any line can reach**, lies in [0, 1],
  is the squared correlation, ignores scale and origin, and is 1 exactly for collinear points; in
  the scan, exactly for series of equal steps. The correlation has the sign of the fitted slope and
  reaches 1 and -1 exactly on rising and falling lines.
- **The shifted search has one right answer**, the greatest share of matching rows among overlapping
  rows, counted as sets; and swapping the two streams mirrors a shift's
  fraction exactly for the row lengths that a closed condition names.
- **From files to summary**, over any list of files: the three verdicts add up, and every group
  count is the number of different bodies, SRAM windows and identities.
- **An audit that fits leaves ordered, disjoint regions, aligned exactly when the flash is a whole
  number of sectors, and an accepted marker's page lies inside the program region.**

## Where the code and its documentation differ

- `firmware/src/motion/ns2_motion_pdu.h:113` says of the catch-up fields that status 0 selects the
  standard status. The builders write the status verbatim (`firmware/src/motion/ns2_motion_pdu.c:272-277`),
  so a packet shows what the header says exactly when the status is not 0
  (`MotionPacket.StatusVerbatim`).
- `contracts/android_controller_hid.h:90-96` says that the v1 field positions are unchanged in v2,
  and line 258 that v2 repeats the v1 items. Since contract 4 the button field is one byte longer.
  Of the five v1 fields the sticks and the buttons keep their position, and both pads and the hat
  move (`AndroidDescriptors.V1PositionsKept`, `AndroidDescriptors.HatMoved`); of the five v1
  sections all but the buttons and the pad after them keep their items
  (`AndroidDescriptors.V1ItemsKept`). What does hold for any descriptor is that appended bytes move
  nothing (`HidTheorems.AppendKeepsLayout`).
- `tools/analyze_sw2_v2_captures.py:384` reads as if a row shifted left past its own length no
  longer overlapped. The negative stop of the slice counts from the row's end, so the row is still
  compared exactly when the shift is less than twice its length and less than the other row's
  length (`ShiftedEqual.ShortRowWraps`).
- The shift search mirrors when the streams are swapped only for some row lengths: for rows of
  equal length at every shift, in general under the exact condition `ShiftedEqual.Mirrors`
  (`ShiftedEqual.MirrorExact` for rows, `ShiftedEqual.MirrorFractionExact` for streams), and
  throughout a window only if the lengths are equal or one row is empty
  (`ShiftedEqual.WindowMirrors`).

## Model

| member | source | states |
|---|---|---|
| `MotionPacker.PayloadPut` | firmware/src/motion/ns2_motion_pdu.c:169-178 | the bit loop ORs one field into the payload and changes no other bit |
| `MotionPacker.PayloadReplace` | firmware/src/motion/ns2_motion_pdu.c:180-191 | the bit loop overwrites exactly the field's bits inside the packet |
| `MotionPacker.PayloadPutVector` | firmware/src/motion/ns2_motion_pdu.c:199-212 | refuses unless all three components fit, before any bit is written; otherwise stores all three |
| `MotionPacker.BuildCatchup` | firmware/src/motion/ns2_motion_pdu.c:214-288 | succeeds exactly for in-range fields under a catch-up elapsed count, then the buffer is their packing; on refusal the buffer is untouched |
| `MotionPacker.BuildHighRate` | firmware/src/motion/ns2_motion_pdu.c:325-386 | the same for the high-rate layout |
| `MotionPacker.SetCarrier` | firmware/src/motion/ns2_motion_pdu.c:302-323 | accepts exactly mode-3 packets with a carrier that fits; afterwards the packet decodes to the old fields with only the carrier replaced |
| `MotionPacker.PatchedCarrier` | firmware/src/motion/ns2_motion_pdu.c:302-323 | overwriting the three lanes in place equals packing the patched field tuple |
| `MotionPacker.MaskBound` | firmware/src/motion/ns2_motion_pdu.c:205-209 | casting to 32 bits and masking keeps the value modulo the slot's range |
| `MotionPacket.LayoutsGapless` | tools/ns2_motion_packet.py:56-75 | each of the three layouts tiles all 288 payload bits with no gap and no overlap |
| `MotionPacket.UnpackPack` | tools/ns2_motion_reference.py:280-431 | decoding a packed tuple of in-range fields returns every field, signs included |
| `MotionPacket.PackUnpack` | contracts/ns2_motion40_catchup.h:8-10 | every 40-byte packet is the packing of in-range fields, those read from it |
| `MotionPacket.DecodeInvertsPack` | tools/ns2_motion_packet.py:209-277 | a packed packet decodes to its own fields and to the layout of its elapsed count exactly when its mode is 3 (the layouts are pinned bit by bit in `MotionFields.FieldsRead`); any other mode is classified, not decoded |
| `MotionPacket.PackInvertsDecode` | contracts/ns2_motion40_catchup.h:4-10 | re-encoding what was decoded restores every genuine packet byte for byte |
| `MotionPacket.OwnerDecides` | contracts/ns2_motion40_catchup.h:20-30 | a payload bit is decided by the one field that owns it, so changing another field cannot change it |
| `MotionPacket.PayloadValue` | tools/ns2_motion_packet.py:151-182 | the payload, read little-endian, is the sum of each field's residue shifted to its offset |
| `MotionPacket.PduValue` | tools/ns2_motion_packet.py:229-277 | the whole packet, read little-endian, is tick, elapsed and status at bits 0, 12 and 24 plus the payload fields at bit 32 |
| `MotionPacket.StatusVerbatim` | firmware/src/motion/ns2_motion_pdu.c:272-284 | the status byte written is what the header promises, a standard status in place of 0, exactly when the status is not 0 |
| `MotionFields.HeaderReads` | tools/ns2_motion_packet.py:209-277 | which packets decode, and the literal bytes and bits of tick, elapsed, status and mode |
| `MotionFields.FieldsRead` | tools/ns2_motion_reference.py:280-431 | for every mode-3 packet, by elapsed count (15 and more, 11 to 14, 10 and fewer), every decoded component is the signed field at its literal payload offset and width, the tail the unsigned one |
| `BitLayout.OrderIrrelevant` | tools/ns2_motion_packet.py:158-165 | the order in which fields are ORed in cannot matter |
| `BitLayout.TilesPartition` | contracts/ns2_motion40_high_rate.h:17-27 | in a gapless layout every bit belongs to exactly one field |
| `BitLayout.ReadsField` | tools/ns2_motion_reference.py:139-154 | the decoder's shift and mask, signed or unsigned, returns exactly the stored field |
| `Fixtures.EdgeRow` | contracts/ns2_motion40_catchup.h:1027 | the first edge row decodes to its fields and is rebuilt from them |
| `Fixtures.CapturedRow` | contracts/ns2_motion40_high_rate.h:33 | the first captured high-rate row decodes to its fields and is rebuilt from them |
| `MotionPrefix.Prefix` | firmware/src/motion/ns2_ds5_motion40.c:71-92 | for any three 32-bit words fills all three lanes with the sign-extended floor of the centred carrier |
| `MotionPrefix.WrapKeepsLane` | firmware/src/motion/ns2_ds5_motion40.c:78-91 | wrapping the centring arithmetic at 32 bits cannot change a lane |
| `MotionPrefix.FloorShift` | firmware/src/motion/ns2_ds5_motion40.c:56-62 | C's truncating division with its correction is the floor, as Python's shift is |
| `MotionPrefix.WideLane` | tools/ns2_motion_carrier.py:250-272 | at high rate each lane is the sign-extended low end of the carrier, lane 2 doubled |
| `MotionPrefix.NarrowIsFloor` | contracts/ns2_motion40_catchup.h:1036-1078 | the narrow prefix is the floor of a quarter of the wide one (lane 2: half of the 24-bit value) and fits its slot |
| `MotionPrefix.PrefixFitsSlot` | contracts/ns2_motion40_catchup.h:1036-1044 | every prefix lane fits the slot that its layout reserves |
| `MotionPrefix.TruncationDiverges` | contracts/ns2_motion40_catchup.h:1036-1038 | a truncating shift differs exactly on negative values it cannot divide, never on lane 2 |
| `MotionPrefix.RoundNearest` | tools/ns2_motion_carrier.py:295 | rounding half to even picks k exactly when no other window is nearer, ties to the even one |
| `MotionPrefix.UnwrapSlice` | tools/ns2_motion_carrier.py:275-297 | unwrapping a slice returns the kept bits if and only if the reference is nearest to that window |
| `MotionPrefix.UnwrapMeaning` | tools/ns2_motion_carrier.py:287-297 | unwrapping returns the value congruent to the wire value at the slot's span that is nearest to the reference |
| `MotionPrefix.DecodeEncode` | tools/ns2_motion_carrier.py:250-301 | a lane survives encode and decode, minus the bits dropped, if and only if it is recoverable from the reference |
| `MotionPrefix.SelfReferenceLossless` | tools/ns2_motion_carrier.py:275-301 | at high rate a carrier decoded against itself is unchanged |
| `Crc16.Compute` | tools/amiibo_corpus.py:84-91 | the two nested loops compute `Crc`, which `Crc16.CrcIsRemainder` gives as a polynomial remainder |
| `Crc16.CrcIsRemainder` | tools/amiibo_corpus.py:84-91 | for every message the CRC's sixteen bits are the message bits folded, low bit first, into a register of sixteen ones: each moves the register down one place and adds what fell out, plus itself, at places 15, 10 and 3 |
| `Crc16.ZeroMessage` | tools/amiibo_corpus.py:86 | the CRC of an all-zero message is never 0, because of the starting register |
| `Crc16.ShiftPermutes` | tools/amiibo_corpus.py:90 | one round of the inner loop permutes the 65536 register states |
| `Crc16.BytesAreSerial` | tools/amiibo_corpus.py:84-91 | byte-at-a-time processing is bit-serial processing, least significant bit first |
| `Crc16.CrcAffine` | tools/amiibo_corpus.py:84-91 | the CRC of the xor of three equal-length messages is the xor of their CRCs |
| `Crc16.BurstDetected` | tools/amiibo_corpus.py:84-91 | equal-length messages that differ only inside 16 consecutive bits have equal CRCs exactly when they are equal |
| `Crc16.SerialParity` | tools/amiibo_corpus.py:88-90 | the register's parity is that of its start and of all bits fed so far |
| `Crc16.OddErrorsDetected` | tools/amiibo_corpus.py:84-91 | flipping any odd number of bits of a message changes its CRC |
| `Crc16.ResidueZero` | tools/amiibo_corpus.py:183-185 | two appended bytes clear the register exactly when they are the CRC, low byte first |
| `Crc16.BigEndianResidue` | tools/amiibo_corpus.py:184 | appended high byte first, as the tag stores it, it clears the register only when both bytes are equal |
| `NonzeroRuns.Compute` | tools/amiibo_corpus.py:94-109 | the loop that extends or appends runs returns a canonical list; with a negative gap, every nonzero byte as its own run |
| `NonzeroRuns.NegativeGapSplits` | tools/amiibo_corpus.py:105 | a negative gap joins nothing, not even neighbouring bytes |
| `NonzeroRuns.RunsAreCanonical` | tools/amiibo_corpus.py:94-109 | runs have nonzero endpoints, cover every nonzero byte, hold no zero stretch longer than the gap and lie more than the gap apart |
| `NonzeroRuns.CanonicalUnique` | tools/amiibo_corpus.py:95-99 | two lists with those properties are equal |
| `NonzeroRuns.RunsUnique` | tools/amiibo_corpus.py:94-109 | the returned list is the only one with those properties |
| `NonzeroRuns.LargerGapMerges` | tools/amiibo_corpus.py:94-109 | with a larger gap every run lies inside one run of the coarser list |
| `NonzeroRuns.CoarseEndpoints` | tools/amiibo_corpus.py:94-109 | a coarser run starts and ends where finer runs do |
| `AmiiboImage.CapabilityPages` | tools/amiibo_corpus.py:147-161 | the page loop returns the markers of all 256 pages in order |
| `AmiiboImage.MarkersExact` | tools/amiibo_corpus.py:155-160 | a page is listed, with its generation, exactly when it holds a marker inside the image, in ascending order |
| `AmiiboImage.RecordPagesOrdered` | tools/amiibo_corpus.py:164-173 | record pages are strictly increasing and lie in the proven-writable pages |
| `AmiiboImage.OneRecordPerByte` | tools/amiibo_corpus.py:164-173 | every nonzero byte of the window belongs to exactly one reported record |
| `AmiiboImage.NoZeroPageInside` | tools/amiibo_corpus.py:167-173 | no record spans an all-zero page |
| `AmiiboImage.RecordPageMeaning` | tools/amiibo_corpus.py:164-173 | a page is reported exactly when a record starts in it |
| `AmiiboImage.Image.ClassifyV3` | tools/amiibo_corpus.py:176-240 | fills issues and fields as specified, in the source's branch order |
| `AmiiboImage.OneByteDamageFlagged` | tools/amiibo_corpus.py:131-136 | damage confined to one of the nine interleaved bytes of an unflagged NTAG215 dump is always reported |
| `AmiiboImage.UidFixesInterleave` | tools/amiibo_corpus.py:131-144 | two unflagged NTAG215 dumps have the same reported UID exactly when their first nine bytes agree |
| `AmiiboImage.LoadImage` | tools/amiibo_corpus.py:243-265 | dispatches on the size; other sizes are skipped, not failed |
| `AmiiboImage.V3SafeMeaning` | tools/amiibo_corpus.py:178-234 | a v3 image is safe exactly when its header is valid and it has no single marker whose record would run past the end of the image |
| `AmiiboImage.AllocationMeaning` | tools/amiibo_corpus.py:213-236 | each allocation verdict by the bytes that cause it: two markers, one marker, none with records, none without |
| `AmiiboImage.RecordsMeaning` | tools/amiibo_corpus.py:164-173 | there are records exactly when some byte of the window is nonzero |
| `AmiiboImage.SramCrcMeaning` | tools/amiibo_corpus.py:183-185 | the stored CRC is valid exactly when bytes 0x3FF and 0x3FE are the remainder of the bits of bytes 0x3C0 to 0x3FD, equivalently when appended swapped they empty the register |
| `AmiiboImage.EmptySramInvalid` | tools/amiibo_corpus.py:183-200 | an SRAM window of zeros is never valid |
| `AmiiboImage.SramBurstDetected` | tools/amiibo_corpus.py:183-200 | damage confined to 16 consecutive bits of the SRAM data never stays valid |
| `AmiiboPositions.MarkerMeaning` | tools/amiibo_corpus.py:147-161 | a marker is A5 00 gg 00 with gg not 0 at the start of a page behind byte 0x400 |
| `AmiiboPositions.WindowMeaning` | tools/amiibo_corpus.py:164-173 | the record window is bytes 0x248 to 0x387 |
| `AmiiboPositions.FactsMeaning` | tools/amiibo_corpus.py:186-200 | the reported markers, with their generations and in page order, and the reported record pages, by absolute bytes |
| `AmiiboPositions.LoneMarkerMeaning` | tools/amiibo_corpus.py:225-234 | the reported allocation of a lone marker, and each of the two complaints about a v3 image by its exact cause |
| `AmiiboPositions.V3Positions` | tools/amiibo_corpus.py:176-204 | where format, UID, identity, header and both CRC values of a v3 image come from |
| `AmiiboPositions.Ntag215Positions` | tools/amiibo_corpus.py:137-144 | an NTAG215 UID skips the first check byte |
| `AmiiboPositions.StateMeaning` | tools/amiibo_corpus.py:187-240 | the body flag, the three extended states and the reuse note, by which byte ranges hold anything |
| `AmiiboPositions.InterleaveMeaning` | tools/amiibo_corpus.py:131-136 | an NTAG215 dump is unflagged exactly when every bit column of its two check groups has the right parity, odd in places 3 and 7 of the first |
| `AmiiboCorpus.GroupImages` | tools/amiibo_corpus.py:268-290 | the loop over images and three dictionaries assigns the specified group ids and changes nothing else |
| `AmiiboCorpus.IdsReflectKeys` | tools/amiibo_corpus.py:276-290 | two entries share an id exactly when they share a key |
| `AmiiboCorpus.IdsDense` | tools/amiibo_corpus.py:286-290 | the ids used are exactly 0 up to the number of distinct keys |
| `AmiiboCorpus.FirstAppearanceOrder` | tools/amiibo_corpus.py:286-290 | ids are numbered in order of first appearance |
| `AmiiboCorpus.SharedGroupsMeanIdentical` | tools/amiibo_corpus.py:268-275 | two v3 images share both body and SRAM groups exactly when all their bytes agree |
| `AmiiboCorpus.GroupCounts` | tools/amiibo_corpus.py:401-406 | the manifest's group counts are the numbers of distinct keys |
| `AmiiboCorpus.CountFormats` | tools/amiibo_corpus.py:370-374 | the dictionary lists exactly the formats that occur, each with its count, and the counts add up to the images |
| `AmiiboCorpus.CountsPartition` | tools/amiibo_corpus.py:394-400 | every loaded image is exactly one of skipped, runtime-safe and unsafe, so the three counts add up to the images |
| `AmiiboSurvey.Survey` | tools/amiibo_corpus.py:369-413 | loading, grouping and counting any list of files: the three verdicts partition the files, the format tally is complete, and the group counts are the numbers of different bodies, SRAM windows and identities |
| `AmiiboCorpus.GroupingKeepsLoaded` | tools/amiibo_corpus.py:268-290 | grouping keeps the classification that the counts rely on |
| `HidParser.Parse` | tools/analyze_hid_descriptor.py:103-206 | the one-pass loop over mutable variables and aliased collections computes split-then-fold, for every byte string |
| `HidParser.ReadItem` | tools/analyze_hid_descriptor.py:128-150 | reads one item or stops, long items and truncation included; values are pinned by `HidParser.ItemMeaning` and `HidParser.SignedMeaning` |
| `HidParser.SignedMeaning` | tools/analyze_hid_descriptor.py:146-149 | the signed value of a payload is the one number of its size congruent to its unsigned value, 0 when empty |
| `HidParser.ItemMeaning` | tools/analyze_hid_descriptor.py:138-146 | the unsigned value byte by byte, and type and tag as the prefix's bits |
| `HidTheorems.PrefixMeaning` | tools/analyze_hid_descriptor.py:138-190 | which prefix bytes are which Main, Global and Local items |
| `HidTheorems.LongItemSkipped` | tools/analyze_hid_descriptor.py:131-136 | a long item is skipped whole, whatever its tag and data |
| `HidTheorems.ShortItemRead` | tools/analyze_hid_descriptor.py:138-150 | a short item takes 0, 1, 2 or 4 payload bytes, and reading goes on behind it |
| `HidTheorems.CutItemStops` | tools/analyze_hid_descriptor.py:131-145 | an item cut off ends the walk |
| `HidParser.Apply` | tools/analyze_hid_descriptor.py:172-204 | a Main item's effect on depth, the field list, the aliased current collection and the locals |
| `HidTheorems.TruncatedParse` | tools/analyze_hid_descriptor.py:127-206 | for any cut, the truncated parse yields a prefix of the fields, of the collections and of each collection's fields |
| `HidTheorems.AppendedParse` | tools/analyze_hid_descriptor.py:126-206 | on an item boundary, parsing the concatenation continues from the first part's state |
| `HidTheorems.AppendKeepsLayout` | contracts/android_controller_hid.h:93-98 | appended bytes change no existing field and move no bit offset, and every new field starts at or after the old end of its report |
| `HidTheorems.FieldsAreDeclared` | tools/analyze_hid_descriptor.py:152-204 | every field carries exactly the usages since the previous Main item and the latest globals before it |
| `HidTheorems.HeadsAreDeclared` | tools/analyze_hid_descriptor.py:173-177 | every collection carries the page in force and the first usage since the previous Main item |
| `HidTheorems.NoLeakAcrossMain` | tools/analyze_hid_descriptor.py:200-204 | locals after a Main item do not depend on anything before it |
| `HidTheorems.IgnoredItemsIrrelevant` | tools/analyze_hid_descriptor.py:106-109 | removing unknown and reserved items changes nothing |
| `HidTheorems.FieldsPartition` | tools/analyze_hid_descriptor.py:173-198 | the field list is the inputs before any collection followed by each collection's own list in order |
| `HidTheorems.DepthIsGreatestSuffix` | tools/analyze_hid_descriptor.py:178-180 | the clamped depth is the greatest net opening of any suffix |
| `HidTheorems.OneCollectionPerTopLevelOpen` | tools/analyze_hid_descriptor.py:173-178 | there is one collection per Collection item met at depth zero |
| `HidVerdict.Judge` | tools/analyze_hid_descriptor.py:228-256 | the accumulator loop computes the merged evidence of all fields |
| `HidVerdict.Weigh` | tools/analyze_hid_descriptor.py:236-254 | one field's effect on the six accumulators |
| `HidVerdict.VerdictConcat` | tools/analyze_hid_descriptor.py:228-256 | the verdict of two lists is the merge of their verdicts |
| `HidVerdict.OrderIrrelevant` | tools/analyze_hid_descriptor.py:228-256 | only which fields are declared matters, not their order |
| `HidVerdict.KeyboardMeaning` | tools/analyze_hid_descriptor.py:218-221 | a keyboard is declared exactly by a live key array of four or more usages and a modifier byte, anywhere |
| `HidVerdict.PointerMeaning` | tools/analyze_hid_descriptor.py:223-225 | a pointer is declared exactly by two X or Y usages in live relative desktop fields, in one field or in two |
| `HidVerdict.AxesCounted` | tools/analyze_hid_descriptor.py:249-250 | the axis accumulator is the number of X and Y usages in live relative desktop fields |
| `HidVerdict.CountersMeaning` | tools/analyze_hid_descriptor.py:244-254 | buttons, key bitmap bits and consumer fields are sums over the live fields of pages 0x09, 0x07 and 0x0C |
| `HidVerdict.VerdictMeaning` | tools/analyze_hid_descriptor.py:240-248 | the two keyboard accumulators, by the fields that raise them |
| `HidVerdict.TruncationNeverInvents` | tools/analyze_hid_descriptor.py:106-109 | a truncated descriptor never looks like a keyboard or a pointer when the whole does not |
| `AndroidDescriptors.ItemsOfEncoding` | contracts/android_controller_hid.h:260-347 | splitting inverts the encoding of a table of short items |
| `AndroidDescriptors.SectionRun` | tools/analyze_hid_descriptor.py:152-204 | one section's globals stick and its locals serve the Main item that ends it |
| `AndroidDescriptors.DescriptorFields` | contracts/android_controller_hid.h:260-347 | a descriptor's bytes declare one field per input section |
| `AndroidDescriptors.V1Layout` | contracts/android_controller_hid.h:156-256 | the v1 descriptor's report is 9 bytes and its hat starts at bit 64 |
| `AndroidDescriptors.V2Layout` | contracts/android_controller_hid.h:161-177 | the v2 descriptor's report is 26 bytes, gyro, accel, battery, flags and timestamp lie at the declared wire offsets, and a motion word ranges from -32768 to 32767 |
| `AndroidDescriptors.V2Fields` | contracts/android_controller_hid.h:278-317 | the buttons, the pad and the motion words of v2: pages, usage range, signed limits and flags |
| `AndroidDescriptors.HatMoved` | contracts/android_controller_hid.h:90-96 | the hat starts eight bits later in v2 than in v1, against the comment |
| `AndroidDescriptors.V1PositionsKept` | contracts/android_controller_hid.h:90-96 | of the five v1 fields exactly the sticks and the buttons start at the same bit in v2 |
| `AndroidDescriptors.V1ItemsKept` | contracts/android_controller_hid.h:258-302 | of the five v1 sections exactly the buttons and the pad after them are encoded differently in v2 |
| `Regression.DotResidual` | tools/analyze_sw2_motion_block.py:135 | the residual sum of squares of any slope, from the three product sums |
| `Regression.LeastSquares` | tools/analyze_sw2_motion_block.py:134-135 | no line has a smaller squared error than the fitted one, whose error is the residual sum |
| `Regression.R2IsBestFit` | tools/analyze_sw2_motion_block.py:124-136 | the score is one minus the least error of any line over the spread of the values |
| `Regression.CauchySchwarz` | tools/analyze_sw2_motion_block.py:129-131 | Cauchy-Schwarz for sequences of any length, with equality exactly for proportional ones |
| `Regression.R2Closed` | tools/analyze_sw2_motion_block.py:124-136 | the fitted score is the closed-form squared correlation |
| `Regression.R2Range` | tools/analyze_sw2_motion_block.py:124-136 | the score lies in [0, 1] on all inputs |
| `Regression.ZeroSpreadMeansConstant` | tools/analyze_sw2_motion_block.py:132-133 | the zero guard fires exactly for constant series |
| `Regression.R2IsPearsonSquared` | tools/analyze_sw2_motion_block.py:243-253 | the score is the square of the correlation, which lies in [-1, 1]; its sign is given by `Regression.PearsonSign` |
| `Regression.PearsonSign` | tools/analyze_sw2_motion_block.py:243-253 | the correlation is positive, zero or negative exactly as the slope of the best line is |
| `Regression.PearsonExtremes` | tools/analyze_sw2_motion_block.py:243-253 | it is 1 exactly when all points lie on a rising line and -1 exactly when they lie on a falling one |
| `Regression.UnscoredMeansFlat` | tools/analyze_sw2_motion_block.py:245-252 | both scores fall back to 0 for fewer than three points or a constant series, and these are exactly the inputs that cannot be scored |
| `Regression.R2AffineInvariant` | tools/analyze_sw2_motion_block.py:124-136 | no non-zero rescaling or shift of the values changes the score |
| `Regression.R2Symmetric` | tools/analyze_sw2_motion_block.py:124-136 | swapping the two series does not change the score |
| `Regression.PerfectMeansCollinear` | tools/analyze_sw2_motion_block.py:124-136 | for non-constant series the score is 1 exactly when all points lie on one line |
| `FieldScan.DecodeMeaning` | tools/analyze_sw2_motion_block.py:116-121 | a row decodes exactly when it covers the field, to the one representable value its bytes encode |
| `FieldScan.DecodeReads` | tools/analyze_sw2_motion_block.py:116-121 | an unsigned field is the little-endian value of its bytes, reversed for big endian, from byte 15 plus the start |
| `FieldScan.EncodeDecode` | tools/analyze_sw2_motion_block.py:116-121 | every representable value survives encode and decode in all widths, orders and signs |
| `FieldScan.ScanFields` | tools/analyze_sw2_motion_block.py:139-177 | the nested loops collect the candidates of all readings in scan order |
| `FieldScan.ScanMeaning` | tools/analyze_sw2_motion_block.py:147-161 | a candidate is reported exactly for a reading inside the payload that every sampled row covers and that varies |
| `FieldScan.ScanOrdered` | tools/analyze_sw2_motion_block.py:147-156 | candidates come out strictly by width, start, byte order and sign, so none comes out twice |
| `FieldScan.CandidateFacts` | tools/analyze_sw2_motion_block.py:162-176 | score and fraction bounds, what their extreme values mean, and least value, greatest value, range and number of distinct values |
| `FieldScan.MonoFractionMeaning` | tools/analyze_sw2_motion_block.py:163-167 | the fraction lies in [1/2, 1] and is 1 exactly for a weakly monotone series |
| `FieldScan.MonoFractionCounts` | tools/analyze_sw2_motion_block.py:163-167 | the fraction times the number of steps that move is the larger of the numbers of rises and falls |
| `FieldScan.MonoFractionRescaled` | tools/analyze_sw2_motion_block.py:163-167 | no rescaling, negation or shift changes the fraction |
| `FieldScan.PerfectMeansEvenSteps` | tools/analyze_sw2_motion_block.py:162-167 | from three samples on, the score is 1 exactly for equal steps, which are then monotone |
| `FieldScan.ScoreMeaning` | tools/analyze_sw2_motion_block.py:124-136 | a score exceeds a threshold exactly when the best line's error is below the complementary share of the constant line's error |
| `FieldScan.ClassMeaning` | tools/analyze_sw2_motion_block.py:180-187 | each class by the two squared errors, the counts of rises and falls, the range and the entropy |
| `FieldScan.CounterIsDrift` | tools/analyze_sw2_motion_block.py:180-187 | a counter with a fixed non-zero step is always reported and always classified as drift |
| `FieldScan.SignIrrelevant` | tools/analyze_sw2_motion_block.py:153-167 | when no sample crosses the sign boundary the signed and unsigned readings score alike |
| `ShiftedEqual.Search` | tools/analyze_sw2_v2_captures.py:368-394 | returns the greatest share of matching rows among overlapping rows, both counted as sets, with the smallest shift attaining it, for any window and any sample size; None exactly when the sample is zero or, for a positive sample, a stream is empty |
| `ShiftedEqual.RowsVisited` | tools/analyze_sw2_v2_captures.py:370-373 | the rows compared are those below the sample size that both streams have |
| `ShiftedEqual.Count` | tools/analyze_sw2_v2_captures.py:377-390 | the inner loop counts overlapping rows and matching rows at one shift |
| `ShiftedEqual.NothingFound` | tools/analyze_sw2_v2_captures.py:375-394 | no shift is reported exactly when no sampled row matches at any shift |
| `ShiftedEqual.BestUnique` | tools/analyze_sw2_v2_captures.py:375-394 | the search has one right answer |
| `ShiftedEqual.FractionMeaning` | tools/analyze_sw2_v2_captures.py:391 | fraction 0: nothing matches; fraction 1: something matches and nothing that overlaps differs |
| `ShiftedEqual.FractionCounts` | tools/analyze_sw2_v2_captures.py:379-391 | at every shift the fraction times the number of overlapping rows is the number of matching rows, and 0 without overlap |
| `ShiftedEqual.ForwardMatch` | tools/analyze_sw2_v2_captures.py:381-390 | a shift to the right leaves nothing past the row's end, and before it a match is equality of every overlapping byte |
| `ShiftedEqual.BackwardMatch` | tools/analyze_sw2_v2_captures.py:383-390 | the same for shifts to the left inside the row |
| `ShiftedEqual.ShortRowWraps` | tools/analyze_sw2_v2_captures.py:384 | past its own length a row is still compared exactly when the shift is less than twice its length and less than the other row's, and then its front is compared byte by byte |
| `ShiftedEqual.MatchMeaning` | tools/analyze_sw2_v2_captures.py:381-390 | at every shift a match is equality of two slices whose common length depends on the row lengths alone |
| `ShiftedEqual.MirrorExact` | tools/analyze_sw2_v2_captures.py:380-390 | for which row lengths, whatever the bytes, swapping the rows mirrors a match: an if-and-only-if on the lengths |
| `ShiftedEqual.MirrorFractionExact` | tools/analyze_sw2_v2_captures.py:376-391 | whatever the streams hold, swapping them mirrors a shift's fraction exactly when every pair of row lengths mirrors |
| `ShiftedEqual.WindowMirrors` | tools/analyze_sw2_v2_captures.py:376 | lengths mirror at every shift of a window exactly when they are equal or one is zero |
| `ShiftedEqual.MirrorFraction` | tools/analyze_sw2_v2_captures.py:368-394 | when every sampled pair of lengths mirrors at a shift, swapping the streams mirrors that shift's fraction |
| `ShiftedEqual.MirrorBest` | tools/analyze_sw2_v2_captures.py:368-394 | for rows of equal length, or empty ones, swapped streams report the same fraction, at the mirror of the largest winning shift |
| `ShiftedEqual.MirrorNeedsEqualLengths` | tools/analyze_sw2_v2_captures.py:380-385 | an instance of lengths that do not mirror |
| `FlashAudit.AlignUpLeast` | tools/audit_firmware_capture_space.py:20-21 | rounding up yields the least multiple not below the value |
| `FlashAudit.AuditErrors` | tools/audit_firmware_capture_space.py:30-35 | each refusal and the report by their exact cause, sizes before alignment before the guard |
| `FlashAudit.ReportMeaning` | tools/audit_firmware_capture_space.py:37-56 | every reported number: the program end is the sector boundary at or after the image, the free gap is the number of bytes between it and the capture area, and it fits exactly when the gap holds the guard |
| `FlashAudit.FitsMeansSectorsFit` | tools/audit_firmware_capture_space.py:37-42 | it fits exactly when the sectors of program, guard, capture and persistence fit in the flash's whole sectors |
| `FlashAudit.FitsLayout` | tools/audit_firmware_capture_space.py:37-58 | a fit leaves the four regions non-empty, ordered, pairwise disjoint and inside the flash |
| `FlashAudit.AlignedIffFlashIs` | tools/audit_firmware_capture_space.py:37-41 | the boundaries are sector-aligned exactly when the flash is a whole number of sectors |
| `FlashAudit.FitsMonotone` | tools/audit_firmware_capture_space.py:24-42 | a smaller image, capture area or guard, or a larger flash, never stops a fit |
| `FlashAudit.Find` | tools/verify_install_reset_marker.py:28-31 | the first occurrence from a position on, or -1 exactly when there is none |
| `FlashAudit.FindAll` | tools/verify_install_reset_marker.py:27-31 | the loop collects every occurrence once, overlapping ones included, in ascending order |
| `FlashAudit.OccurrencesUnique` | tools/verify_install_reset_marker.py:27-31 | that list is unique |
| `FlashAudit.MarkerText` | tools/verify_install_reset_marker.py:10-14 | the nineteen bytes searched for |
| `FlashAudit.VerifyMarker` | tools/verify_install_reset_marker.py:26-47 | the outcome is the one the occurrences determine |
| `FlashAudit.PlacementMeaning` | tools/verify_install_reset_marker.py:33-47 | acceptance and each refusal, by the occurrences in the image that cause it; the reported count is the number of occurrences |
| `FlashAudit.PageInsideProgram` | tools/verify_install_reset_marker.py:38-47 | an aligned occurrence's whole flash page lies in the sector-rounded program area |
| `FlashAudit.AuditPlacesMarker` | tools/audit_firmware_capture_space.py:37-42 | when the audit of the same image fits, the page also clears guard, capture and persistence, and the persistence refusal cannot occur |

## Left out

- Files, JSON, argument parsing, printing, Markdown, the Node subprocess and the AmiiboAPI requests: input and output only.
- Hashing: the group keys are the hashed bytes themselves, so SHA-256 is taken as injective; the `sha256` and `crc32` fields of an image are not modelled.
- Amiibo cryptography: HMAC checks and the encrypted body are not part of this model.
- Image fields that no other code reads (`variant`, `product_type`, `size`, the hexadecimal copies, `nonzero_ranges` of the whole image) and the manifest's `shared_uids` and `extended_allocations` lists: copies or plain collections of modelled values.
- Floating point: scores and fractions are exact reals, so rounding is not captured; `math.sqrt` enters as a parameter that is the exact root. `round` on a quotient is modelled on the exact quotient.
- Entropy, variances and the printed rankings of the field scan; the entropy of a candidate is a parameter of the classification.
- `FieldScan.ScanFields`: a candidate's entropy is not modelled, as it needs logarithms; the capture timestamps that accompany the rows are dropped, as the scan never reads them.
- `tick_delta`, the sample dataclass's derived views and the temperature tail's internal fields: each is one expression on modelled values.
- The motion scheduler and quaternion code of the firmware, and the 30-byte orientation carrier: floating point and state this model does not cover.
- The builders' null `fields` pointer; a null packet pointer is modelled. Signed overflow in the prefix's centring is modelled as wrap-around.
- `AndroidDescriptors.V1Layout`, `AndroidDescriptors.V2Layout`: the descriptors are given as tables of sections and items that encode to bytes, rather than as literal byte arrays.
- HID Push, Pop, Delimiters and extended usages: the interpreter does not implement them either; they are among the ignored items.
- The fixture tables beyond one row of each layout, and the prefix vectors: constants that add nothing to the general statements.
- `switch_gc_select_report`, the audio tools, the exploratory statistics scripts and the composite keyboard sample descriptors: one-branch or constant members.
