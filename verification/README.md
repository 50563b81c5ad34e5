# Rigel chipset verification

A Dafny model of the parts of the Rigel chipset emulator that carry the most
state and arithmetic, and proofs of what those parts promise. Many of them
exist in two forms in the program, a batch and a stepped one, a closed form and
a tick, a painter and a priority scan. The main results say that the two forms
are one.

| file | what it models |
|---|---|
| `Words.dfy` | 16-bit words: barrel shift, minterm unit, area fill |
| `BlitterStream.dfy` | an area blit as a stream of words with a write register one word deep |
| `BlitterLine.dfy` | the line drawer's state and its step |
| `Blitter.dfy` | the two blitter engines, the slot accounting, whole runs under any grants |
| `BlitterTheorems.dfy` | shift as one bit stream, fill as prefix parity, when a copy is a block move |
| `LineGeometry.dfy` | where a line's pixels fall, how near the ideal line, the single-dot rule |
| `LinePixels.dfy` | what a line does to memory, bit by bit |
| `Mfm.dfy` | the track encoder, in place over byte buffers |
| `MfmTheorems.dfy` | legality of the code, uniqueness of the sync mark, the decoder and its round trip |
| `Disk.dfy` | disk DMA from DSKLEN to the last word in chip memory |
| `CiaTimers.dfy` | the CIA timers, their cascade, the serial shifter and the E-clock divider |
| `SlotTable.dfy` | who owns each slot of a line, and which word each slot fetches |
| `Scheduler.dfy` | the table rebuilt in place, the line walked slot by slot, plane pointers over many lines |
| `Denise.dfy` | colours, playfield pixels, sprite pixels and priorities as functions of position |
| `Compositor.dfy` | the four playfield paths and the sprite painter |
| `SpriteDma.dfy` | one sprite channel walking its list of bands |
| `Beam.dfy` | the beam by clocks, by lines and by closed form; the VERTB deadline |
| `Copper.dfy` | the WAIT comparison, its release and its deadline |
| `Ata.dfy` | the ATA channel's data phases over one transfer buffer, and the disk behind it |
| `Arithmetic.dfy` | quotients and remainders by a divisor that is not a constant |
| `Integers.dfy`, `Wrappers.dfy` | the program's integer widths; the optional value |

`dafny verify dfyconfig.toml` checks the project.

## How the model reads

Objects that the program updates in place are classes with those fields, and
their methods are proved against functions of the old state. Chip memory is an
array of 2^20 words (blitter), a sequence of them for each slot (bitplanes), a
map from 32-bit addresses (disk) or a read function of 32-bit addresses
(sprites), the last two because there the program leaves the masking of the
address to the host. Interrupts are a count (blitter) or a log (disk). Tracing
is erased. Pointers and registers wrap at the program's own widths.

Words and bytes that are taken apart bit by bit are bit-vectors inside a
one-field datatype; quantities that are added are integers with the wrap-around
written out.

The functions that serve as specifications, such as `Written` for the memory
after some destination words, `Drawn` for the canvas after some pixels,
`TrackLong` for a longword of a track, `OnPulses` for timers after some pulses,
`LogicalAt` for the word a slot fetches, `Playfield` for a pixel or `BandAt` for
a band of a sprite list, are the partners of the methods; the lemmas beside them
say what they mean.

## What the code does where one might expect otherwise

- A straight copy whose target is two or more words ahead of its source, inside
  the block, is not a block move: the one-word-late write has then reached the
  source. `StraightCopyIsBlockMove` gives the exact condition for any first and last
  word masks, `FullMasks` for full ones.
- The single-dot counter of the line drawer is one byte wide, so a row of more than
  256 pixels gets a second dot: `SingleDotRule` gives the exact condition for a line
  of a given height, `OneDotARow` for lines of any height (dx <= 256 dy) and
  `DottedTwice` a line that shows it.
- A line of height 0 publishes the command's registers from the batch drawer and
  zeros from the stepped one (`ExecuteReference`); under the two-slot cadence it
  takes two slots where the estimate says one (`EstimateIsDeadline`).
- The two odd-half checksum longwords of a sector carry no data: the checksum of
  masked halves has no odd bits, and what its shift leaves is masked away by the
  clock insertion. The even half carries all of it, and decoding gives it back.
- When the track buffer is not a multiple of four bytes its last bytes keep their
  old values, and a stream that starts at an odd byte shifts by one byte when it
  wraps (`StreamIsCyclic`). DSKSYNC 0xAA44 makes one on a standard track (`OddStart`).
  The two bytes that stay of the standard buffer are blank, and not legal MFM where
  the stream meets them (`WrapIsIllegal`).
- The E-clock remainder is added in 32 bits: a step so long that the sum leaves
  them loses ticks (`DividerLosesNothing`), for good (`CutsLoseNothing`).
- A copy is in memory, and its zero flag in the status register, from its first bus
  slot on; only the registers and the interrupt wait (`RunWithGrants`).
- Underflow totals of a step are C ints, and one that is negative is taken for none:
  2^31 ticks at once can lose an interrupt (`LostUnderflows`). The divider never
  passes more than a fifth of 2^32.
- Timer A underflows that come from CNT pulses reach timer B in input mode 3 only,
  not in mode 2 (`CountCnt`).
- Odd bitplane modulos lose their low bit on every line (`StepDisplay`).
- Bit 6 of BPLCON2 both stops half-bright mode and puts playfield 2 in front.
- The VERTB deadline is one frame late at line 0, clock 0, and in a long frame of an
  interlaced display, which has an extra line that the deadline does not count, one
  line early (`VertbDeadline`, `LongFrameVertb`).
- A WAIT's deadline does not count that line either (`LongFrameWait`). The Copper
  compares the low eight bits of line and clock, so the deadline is too late when they
  come round to the waited position once more before the frame ends (`WaitDeadline`),
  and never right for a clock beyond the line's end (`WaitBeyondLine`). Under partial
  masks a WAIT can pass before its deadline, the end of the line (`PartialDeadline`,
  `PassesBeforeDeadline`).
- The clocks of a position computed ahead of time wrap at 64 bits
  (`PositionIsStepped`).
- A bitplane fetch that does not fit in the line loses the words past it, and the
  pointers move by what was fetched (`StepLine`).
- A failed or unknown ATA command leaves a running data phase running, with the
  error in the status register; and the data phase of an odd-length CD answer never
  ends, since its last byte is not a word (`ReadPhase`).

## Model

| member | source | states |
|---|---|---|
| `Words.LogicBit` | src/chipset/agnus/blitter/blitter_ref.c:73-96 | each bit of the word-wide sum of products is the minterm-table entry chosen by the A, B and C bits there, for all 256 minterms |
| `Words.AndBit` | src/chipset/agnus/blitter/blitter_ref.c:188-202 | a bit of a masked word is set if and only if it is in the word and in the mask |
| `Words.LogicByColumn` | src/chipset/agnus/blitter/blitter_logic.c:3-15 | the loop over the sixteen columns computes the same word as the sum of products, for every minterm |
| `Words.ShiftDelays` | src/chipset/agnus/blitter/blitter_ref.c:98-126 | in stream order (mirrored when descending) a shift delays the bits by the shift, taking the missing ones from the end of the previous word |
| `Words.FillPrefixBit` | src/chipset/agnus/blitter/blitter_ref.c:128-173 | an output bit of a filled word is the carry-in XOR the parity of the word's bits up to and including it |
| `Words.FillWord` | src/chipset/agnus/blitter/blitter_ref.c:128-173 | the four loops of the fill, inclusive and exclusive and in both directions, produce the prefix-parity word and leave the carry of the whole word |
| `Words.ToU32Is` | src/chipset/agnus/blitter/blitter_ref.c:222-241 | a pointer sum is kept as the one uint32_t that differs from it by a multiple of 2^32 |
| `Words.ToI16Is` | src/chipset/agnus/blitter/blitter_line.c:77-113 | an error sum is kept as the one int16_t that differs from it by a multiple of 2^16 |
| `BlitterEngine.PointerNextWord` | src/chipset/agnus/blitter/blitter_ref.c:222-241 | one more word moves a used channel by two bytes in the blit's direction, modulo 2^32, and an unused one not at all |
| `BlitterEngine.PointerNextRow` | src/chipset/agnus/blitter/blitter_ref.c:277-293 | one more row adds the modulo to a channel's pointer, or subtracts it when descending, used or not |
| `BlitterEngine.Blitter.ApplyMasks` | src/chipset/agnus/blitter/blitter_ref.c:188-202 | AFWM masks the word in the first column of a row and ALWM the one in the last, both the word of a one-word row |
| `BlitterEngine.Blitter.FetchWord` | src/chipset/agnus/blitter/blitter_ref.c:222-241 | a disabled channel supplies its latch and stays put; an enabled one reads chip memory and moves on |
| `BlitterEngine.Blitter.CopyWord` | src/chipset/agnus/blitter/blitter_ref.c:470-548 | word n of an area blit moves the pipeline from its state after n words to its state after n+1; the write of word n-1 lands after the fetches of word n |
| `BlitterEngine.Blitter.ExecuteCopyMode` | src/chipset/agnus/blitter/blitter_ref.c:447-559 | after an area blit memory holds every destination word in order, each computed from memory with only the words up to two before it written, and the published pointers are the start plus or minus height times (two bytes a word, plus modulo); what the words are bit by bit is `MaskedBit`, `ShifterADelaysStream`, `CombinedBit` and `FilledRowIsPrefixParity` |
| `BlitterEngine.Blitter.ExecuteLineMode` | src/chipset/agnus/blitter/blitter_ref.c:312-445 | the batch line drawer leaves the memory and registers of height single pixel steps, which `PixelBit`, `LinePlots` and `SolidLine` spell out bit by bit; for height 0 it publishes the command's own registers |
| `BlitterEngine.Blitter.ExecuteReference` | src/chipset/agnus/blitter/blitter_ref.c:561-582 | the batch door does nothing without a command; otherwise memory and result are final, except that a line of height 0 computes registers that differ from the stepped drawer's |
| `BlitterEngine.Blitter.DrawPixel` | src/chipset/agnus/blitter/blitter_line.c:153-194 | the bus half of a pixel: C read, minterm, and the write that single-dot may suppress |
| `LinePixels.PixelBit` | src/chipset/agnus/blitter/blitter_line.c:153-194 | bit i of the word that pixel n combines is the minterm's table entry for ADAT and AFWM at i + x (clear past the word's end), BDAT at (bshift - n) modulo 16, and the C word at i |
| `LinePixels.LinePlots` | src/chipset/agnus/blitter/blitter_ref.c:312-445 | on a line of single pixels the last of them to be plotted at a place of memory leaves its texture bit there, also where the line crosses itself round the 2 MB |
| `LinePixels.SolidLine` | src/chipset/agnus/blitter/blitter_ref.c:312-445 | a line of single pixels in a solid texture sets a pixel of memory if and only if it was set already or one of the line's pixels falls on it, modulo the memory; under single-dot only the plotted ones count |
| `BlitterEngine.Blitter.LineStepSlot` | src/chipset/agnus/blitter/blitter_line.c:153-201 | a committed slot takes the line from n pixels drawn to n+1, and changes nothing once the line is done |
| `BlitterEngine.Blitter.StartTiming` | src/chipset/agnus/blitter/blitter_timing.c:111-130 | a started blit is zero slots into its run, with the estimate still to go |
| `BlitterEngine.Blitter.CommitSlot` | src/chipset/agnus/blitter/blitter_dma.c:38-48 | the slot that commits the last pixel publishes; no earlier one does |
| `BlitterEngine.Blitter.LineSlot` | src/chipset/agnus/blitter/blitter_dma.c:23-48 | the one-slot and the two-slot cadence: a read slot defers the pixel, a write slot commits it |
| `BlitterEngine.Blitter.StepLine` | src/chipset/agnus/blitter/blitter_dma.c:16-50 | a portion of slots is that many single slots, stopping at the last pixel |
| `BlitterEngine.Blitter.StepCopy` | src/chipset/agnus/blitter/blitter_dma.c:52-78 | the first slot runs the copy, the rest count its bus time down, and the registers appear when the time is used up |
| `BlitterEngine.Blitter.StepDma` | src/chipset/agnus/blitter/blitter_dma.c:4-78 | registers and the interrupt appear on exactly the slot that reaches the number needed, and a blit without a command ends without either |
| `BlitterEngine.Blitter.RunWithGrants` | src/chipset/agnus/blitter/blitter_dma.c:4-78 | whole runs: every partition of the same number of granted slots, under either cadence, ends with the same memory, registers, zero flag and single interrupt; registers and interrupt wait for the last slot, while memory and the zero flag show a copy as a whole from its first grant on and a line pixel by pixel |
| `BlitterEngine.EstimateIsDeadline` | src/chipset/agnus/blitter/blitter_timing.c:62-109 | the advertised estimate is the number of slots a blit takes, except for the two-slot cadence of a line of height 0, and only then |
| `BlitterEngine.SlotsOfBlit` | src/chipset/agnus/blitter/blitter_timing.c:5-109 | a word of a copy takes a slot for A, one for B, two for D with or without C, or one for C alone, and one when no channel is on; a line pixel takes two; the product is taken modulo 2^32 and is at least one |
| `LineGeometry.PixelPosition` | src/chipset/agnus/blitter/blitter_line.c:44-113 | in every octant and for every modulo pixel n lies n major strides and as many minor strides as there were minor moves from the first pixel, modulo the memory; a step down an odd modulo is the even number below it, a step up the even number above its negative |
| `LineGeometry.ErrorTracksLine` | src/chipset/agnus/blitter/blitter_line.c:77-113 | for a command prepared the standard way the error accumulator is 4dy(n+1) - 2dx - 4dx times the minor moves, and stays in range |
| `LineGeometry.LineIsNearest` | src/chipset/agnus/blitter/blitter_line.c:77-113 | every pixel is the one nearest the ideal line: n*dy/dx rounded, halves up |
| `LineGeometry.DotsCountRun` | src/chipset/agnus/blitter/blitter_line.c:77-113 | the single-dot counter is the length of the current horizontal run modulo 256 |
| `LineGeometry.DotRule` | src/chipset/agnus/blitter/blitter_line.c:153-194 | single-dot mode plots exactly the pixels at multiples of 256 in their run |
| `LineGeometry.SingleDotRule` | src/chipset/agnus/blitter/blitter_line.c:153-194 | on a line of any height single-dot mode plots exactly the first pixel of every row if and only if no pixel 256 or more from the start is on the row of the pixel 256 before it |
| `LineGeometry.OneDotARow` | src/chipset/agnus/blitter/blitter_line.c:153-194 | however long the line, that is one dot a row if and only if dx <= 256 dy |
| `LineGeometry.DottedTwice` | src/chipset/agnus/blitter/blitter_line.c:153-194 | a command for a line 600 right and one down plots pixels 0 and 256 on its first row, on any memory |
| `BlitterTheorems.ShifterADelaysStream` | src/chipset/agnus/blitter/blitter_ref.c:467-551 | over a whole blit the A shifter is one bit-stream shift of the masked source, across words and rows, mirrored when descending |
| `BlitterTheorems.ShifterBDelaysStream` | src/chipset/agnus/blitter/blitter_ref.c:467-551 | the same for B while its channel is on |
| `BlitterTheorems.FilledRowIsPrefixParity` | src/chipset/agnus/blitter/blitter_ref.c:467-551 | each bit of a filled row is the carry-in XOR the parity of the row up to it, rows are independent, and differencing neighbouring output bits gives the row back |
| `BlitterTheorems.WrittenKeeps` | src/chipset/agnus/blitter/blitter_ref.c:528-545 | a word of memory that no destination word up to k falls on keeps its value |
| `BlitterTheorems.WrittenHolds` | src/chipset/agnus/blitter/blitter_ref.c:528-545 | a destination word stays in memory until a later one falls on the same place |
| `BlitterTheorems.MaskedBit` | src/chipset/agnus/blitter/blitter_ref.c:188-202 | bit i of a masked A word is set if and only if it is set in the word fetched, and in AFWM when the word is the first of its row, and in ALWM when it is the last |
| `BlitterTheorems.CombinedBit` | src/chipset/agnus/blitter/blitter_ref.c:467-551 | every bit of a blit before the fill is the minterm's table entry for the masked A source ashift bits before in stream order, the B source bshift bits before or the hold register, and the C source at the same place |
| `BlitterTheorems.PlacesAlong` | src/chipset/agnus/blitter/blitter_ref.c:447-559 | word n of a straight copy goes from the n-th word after (before, when descending) the one APT names to the n-th after the one DPT names, round the 2 MB |
| `BlitterTheorems.CopiedBit` | src/chipset/agnus/blitter/blitter_ref.c:447-559 | each bit of a straight copy is its origin's, as the one-word-late writes left it, where the masks let it through |
| `BlitterTheorems.UnsafeLeadSpoils` | src/chipset/agnus/blitter/blitter_ref.c:447-559 | a target two or more words ahead of its source spoils a concrete memory as soon as a word that far into the block passes the masks at all |
| `BlitterTheorems.StraightCopyIsBlockMove` | src/chipset/agnus/blitter/blitter_ref.c:447-559 | an unshifted A to D blit under any first and last word masks leaves at every target exactly the masked bits of its origin, for every memory and in both directions, if and only if the target is at most one word ahead of the source, or clear of the block, or the masks pass nothing of the words that an early write reaches |
| `BlitterTheorems.FullMasks` | src/chipset/agnus/blitter/blitter_ref.c:447-559 | with full masks that condition is on the lead alone: at most one word, or the length of the block or more; and whole words move |
| `BlitterTheorems.BlockMoveWithoutWrap` | src/chipset/agnus/blitter/blitter_ref.c:447-559 | for ranges inside chip memory the move is right when they are disjoint, or ascending with dpt <= apt+2, or descending with dpt >= apt-2, under any masks |
| `Mfm.WriteLong` | src/floppy/floppy_mfm.c:7-13 | a longword is stored big-endian and nothing else changes |
| `Mfm.LowByteValue` | src/floppy/floppy_mfm.c:133-136 | the header's track, sector and sectors-to-gap bytes are those numbers modulo 256 |
| `Mfm.InsertClocks` | src/floppy/floppy_mfm.c:79-91 | every longword gets its clock bits from its own data bits and the last data bit before it |
| `Mfm.FillData` | src/floppy/floppy_mfm.c:145-155 | the two halves of every data longword go to their places and the data checksum is their running XOR |
| `Mfm.EncodeSector` | src/floppy/floppy_mfm.c:93-169 | the 272 longwords of a sector appear at its place, or nothing when there is no room |
| `Mfm.EncodeTrack` | src/floppy/floppy_mfm.c:171-229 | gap, sectors and trailing longword fill the buffer for every track content and every buffer large enough; a smaller one is refused untouched; bytes past the last longword keep their values |
| `MfmTheorems.TrackIsLegal` | src/floppy/floppy_mfm.c:79-91 | no encoded track has two adjacent 1 bits or more than three 0 bits in a row, at any byte of its longwords, across longword, sector and gap joints |
| `MfmTheorems.LegalButAtWrap` | src/floppy/floppy_mfm.c:171-229 | a track in a buffer with two blank bytes behind its longwords, read round and round, is legal at every byte but the three whose cells touch those two |
| `MfmTheorems.MarksOnlyAtSectors` | src/floppy/floppy_mfm.c:171-229 | the sync word stands exactly at the two marks of every sector and nowhere else, at any byte |
| `MfmTheorems.FindSync` | src/chipset/paula/disk.c:58-73 | the search returns the first byte at which the sync word stands, or the length when there is none |
| `MfmTheorems.FirstMark` | src/chipset/paula/disk.c:58-73 | on an encoded track the search stops at the first sector's first mark |
| `MfmTheorems.EarlySyncIsOdd` | src/chipset/paula/disk.c:58-73 | 0xAA44 as the sync word is first found on an encoded track at the odd byte before the first mark |
| `MfmTheorems.SectorRoundTrip` | src/floppy/floppy_mfm.c:93-229 | decoding any sector, from the track or any stretch holding it, gives the values 255, track, sector and sectors to gap (modulo 256) and all 512 bytes, with both checksums right |
| `Disk.StreamIsCyclic` | src/chipset/paula/disk.c:515-529 | word k of a read is the track word at start + 2k modulo the track length if and only if the start is even or the buffer's end is not yet reached |
| `Disk.DiskUnit.WrapIsIllegal` | src/chipset/paula/disk.c:515-529 | that is so of the standard buffer, whose last two bytes no read ever writes |
| `Disk.DiskUnit.OddStart` | src/chipset/paula/disk.c:352-364 | a standard track with DSKSYNC 0xAA44 streams from byte 1659, and word k is the track word at 1659 + 2k modulo the track length if and only if the buffer's end is not yet reached |
| `Disk.DiskUnit.TrackPlace` | src/chipset/paula/disk.c:46-56 | on cylinders 0 to 79 the track number is twice the cylinder, plus one on side 1, and its bytes begin at 512 * 11 times that; it is readable if and only if they are all in the image |
| `Disk.DiskUnit.StartDma` | src/chipset/paula/disk.c:267-386 | a read of a readable track, which on cylinders 0 to 79 is track 2 cylinder + side with bytes 5632 track to 5632 (track + 1) of the image, is encoded under that number and streams from the first sync word under word sync, from byte 0 otherwise; anything else transfers nothing |
| `Disk.DiskUnit.LocateSync` | src/chipset/paula/disk.c:352-364 | where the stream begins, and the first sync interrupt |
| `Disk.DiskUnit.WriteDskLen` | src/chipset/paula/disk.c:388-415 | clearing DMAEN stops and disarms; the first DMAEN write only arms; only an armed one starts a transfer |
| `Disk.DiskUnit.MoveWord` | src/chipset/paula/disk.c:515-529 | one granted slot moves the word under the head to the next address and turns the track by a word |
| `Disk.DiskUnit.FinishRead` | src/chipset/paula/disk.c:548-570 | a finished read leaves the pointer past its data, DMA off and disarmed, and raises the sync interrupt again before the block one |
| `Disk.DiskUnit.ServiceGrant` | src/chipset/paula/disk.c:502-570 | grant k writes word k; the last grant and no other finishes the read |
| `Disk.DiskUnit.Serve` | src/chipset/paula/disk.c:485-570 | after any number of grants exactly that many words are in memory, at most the transfer's; the block interrupt is raised once |
| `Disk.FilledWords` | src/chipset/paula/disk.c:515-529 | after the transfer every word k < L is at base + 2k, however often the stream wrapped |
| `Disk.ImageIsStretch` | src/chipset/paula/disk.c:515-529 | up to the buffer's end the words in memory are a stretch of the track |
| `Disk.DiskUnit.ReadWholeTrack` | src/chipset/paula/disk.c:267-570 | end to end: arm, start, serve; on cylinders 0 to 79 sector k of the track then decodes from chip memory to the track number 2 cylinder + side, the sector number k, and bytes 512 (11 track + k) onwards of the image; the interrupts are sync, sync, block |
| `CiaTimers.FreeRuns` | src/cia/cia_timers.c:34-41 | from its latch a continuous timer is division by its period |
| `CiaTimers.CountedSplits` | src/cia/cia_timers.c:9-76 | a continuous timer, or a one-shot timer that has not ended, counts a + b pulses as a and then b |
| `CiaTimers.Advance` | src/cia/cia_timers.c:9-44 | the closed form gives the counter of that many single ticks, and their underflows converted to C int |
| `CiaTimers.ToIntIs` | src/cia/cia_timers.c:9-44 | a total returned as a C int is the one value of that type that differs from it by a multiple of 2^32 |
| `CiaTimers.AdvanceEvents` | src/cia/cia_timers.c:46-76 | the event loop gives the counter and underflows of that many single pulses, for totals a C int holds |
| `CiaTimers.BatchIsPulses` | src/cia/cia_timers.c:119-237 | taking all of timer A's pulses and then all of timer B's is the same as one pulse at a time through both, with the interrupt flags and the serial shifter |
| `CiaTimers.PulsesSplit` | src/cia/cia_timers.c:119-178 | only the number of pulses matters, not how they are grouped |
| `CiaTimers.PulseIs` | src/cia/cia_timers.c:119-237 | one pulse in terms of the registers: which input modes of both timers it reaches, what an underflow does to counter, flag and START, and when timer A's reaches timer B (mode 2 from E-clock ticks only, mode 3 from ticks while CNT is high and from CNT pulses) |
| `CiaTimers.ShiftIs` | src/cia/cia_serial.c:56-83 | what one timer A underflow does to the output shifter: it starts on the byte that waits, sends a bit, and after the last takes the next byte |
| `CiaTimers.ByteIsSent` | src/cia/cia_serial.c:56-83 | a byte waiting for an idle shifter is n bits further after n underflows, and out with its interrupt after exactly eight |
| `CiaTimers.Cia.TimersStep` | src/cia/cia_timers.c:119-178 | ticks in one call are that many single ticks, in all modes of both timers, for every call the divider can make (below 2^31 ticks); beyond, only totals that are positive as a C int show |
| `CiaTimers.SteppedIsPulses` | src/cia/cia_timers.c:119-178 | the totals fit for every step below 2^31 ticks, whatever the timers hold |
| `CiaTimers.SteppedInTurn` | src/cia/cia_timers.c:119-178 | timer B can be stepped after timer A as the program does, since what A leaves is what B's step looks at |
| `CiaTimers.LostUnderflows` | src/cia/cia_timers.c:9-44 | a free-running timer A of period 1 stepped by 2^31 ticks at once raises no interrupt, and one by one it does |
| `CiaTimers.Cia.CountCnt` | src/cia/cia_timers.c:180-237 | CNT pulses in one call are that many single pulses, for totals a C int holds |
| `CiaTimers.CascadeIsOneCounter` | src/cia/cia_timers.c:119-178 | a cascaded pair is one counter going down by n modulo (La+1)(Lb+1) |
| `CiaTimers.DividerLosesNothing` | src/chipset/chipset.c:99-106 | the divider keeps every tick if and only if remainder plus cycles fits 32 bits |
| `CiaTimers.CutsLoseNothing` | src/chipset/chipset.c:99-106 | the ticks of a list of steps are those of one span of as many cycles if and only if no step loses any |
| `CiaTimers.EClock.Step` | src/chipset/chipset.c:99-106 | chip cycles become one tick each fifth cycle for both CIAs, with the remainder kept and the sum taken in 32 bits; never 2^31 ticks or more |
| `CiaTimers.EClock.Run` | src/chipset/chipset.c:99-106 | counters, START bits, interrupt flags and shifters after any list of steps are those of the span of cycles less 2^32 for each step that loses ticks: for the rest it does not matter how the span is cut |
| `SlotTable.EachWordHasOneSlot` | src/chipset/agnus/timing/slot_scheduler.c:518-667 | on a display line whose fetch fits, every logical word has exactly one slot |
| `SlotTable.AllFetchedIffFits` | src/chipset/agnus/timing/slot_scheduler.c:518-667 | all words of a display line are fetched if and only if the fetch fits in the line |
| `SlotTable.FittingFetchIsWhole` | src/chipset/agnus/timing/slot_scheduler.c:518-667 | the words with a slot on the line are, when the fetch fits, all words of all planes |
| `SlotTable.FetchedIsSlot` | src/chipset/agnus/timing/slot_scheduler.c:621-667 | a slot fetches only the word whose slot it is |
| `SlotTable.BitplaneOwnsFetches` | src/chipset/agnus/timing/slot_scheduler.c:621-667 | the slots owned by the bitplanes are exactly those that fetch a word |
| `SlotTable.WordsInWindow` | src/chipset/agnus/timing/slot_scheduler.c:518-566 | word w of a plane is asked for if and only if, in lores, start + 8w <= stop, and in hires, where words come in pairs, start + 8(w/2) <= stop + 4 and w < 64; an empty window asks for 20 and 40 |
| `SlotTable.StandardWindows` | src/chipset/agnus/timing/slot_scheduler.c:518-566 | the windows the program names: 20 words in lores for 0x38 to 0xD0, 40, 40 and 38 in hires |
| `SlotTable.WordIsFetched` | src/chipset/agnus/timing/slot_scheduler.c:518-667 | a word is fetched if and only if bitplane DMA is on, the line is 26 or below and not above DIWSTRT's, the plane is one of the depth's, the window asks for the word, and its clock is one of the line's 227 |
| `Scheduler.SlotScheduler.Rebuild` | src/chipset/agnus/timing/slot_scheduler.c:568-727 | the table filled in place is the line's static ownership, and each bitplane slot knows its word |
| `Scheduler.SlotScheduler.FetchWord` | src/chipset/agnus/timing/slot_scheduler.c:293-461 | a bitplane slot stores one word of its plane, latches the plane pointers on the line's first fetch, and touches nothing else |
| `Scheduler.SlotScheduler.ApplyModulo` | src/chipset/agnus/bitplanes/bitplane_pointers.c:11-19 | each fetched plane takes its modulo modulo 2^21, bit 0 cleared: BPL1MOD for planes 1, 3 and 5, BPL2MOD for the others |
| `Scheduler.SlotScheduler.EndLine` | src/chipset/agnus/timing/slot_scheduler.c:899-923 | the end of a line that fetched moves each plane pointer past its words and its modulo, and unlatches; any other line moves nothing |
| `Scheduler.SlotScheduler.StepSlot` | src/chipset/agnus/timing/slot_scheduler.c:834-892 | after slot h exactly the words whose slots have passed are in place, each read as memory stood at its slot |
| `Scheduler.SlotScheduler.StepLine` | src/chipset/agnus/timing/slot_scheduler.c:799-923 | a display line stores memory word base_p + 2w in plane p, word w, once each, for every word that `WordIsFetched` names, and nothing else; the pointers move by twice the words fetched plus the modulo; other lines do nothing |
| `Scheduler.SlotScheduler.StepDisplay` | src/chipset/agnus/timing/slot_scheduler.c:799-923 | over n display lines row n of plane p is read from base + n(2 words + modulo), and BPLxPT ends there modulo 2^21; odd modulos lose bit 0; a fetch that runs over the line counts the words that were fetched |
| `Scheduler.StandardRows` | src/chipset/agnus/timing/slot_scheduler.c:518-566 | on the standard screens all 20 lores or 40 hires words of a row are fetched, and rows are 40 or 80 bytes and the modulo apart |
| `Scheduler.SlotGoesTo` | src/chipset/agnus/timing/slot_scheduler.c:880-889 | a fixed owner keeps its slot; the blitter takes free ones and with priority the CPU's, the Copper free ones while the blitter is idle, and the CPU what is left of both |
| `Scheduler.SlotScheduler.NextEvent` | src/chipset/agnus/timing/slot_scheduler.c:952-969 | the first later slot with a fixed owner, or the line's end, for any line length with which the search stays in the table |
| `Scheduler.SlotScheduler.CpuResumeIn` | src/chipset/agnus/timing/slot_scheduler.c:996-1020 | the first later slot the CPU gets under the present claims, or the line's end, for any line length with which the search stays in the table |
| `Denise.Palette.Write` | src/chipset/denise/palette/color_regs.c:39-55 | the packed palette stays the packed form of the true-colour one |
| `Denise.FirstIsSeparate` | src/chipset/denise/render/dualpf.c:3-18 | playfield 1 of a decoded pixel depends on the odd planes' column only |
| `Denise.SecondIsSeparate` | src/chipset/denise/render/dualpf.c:3-18 | playfield 2 depends on the even planes' column only |
| `Denise.DecodeBits` | src/chipset/denise/render/dualpf.c:3-18 | the decoder's masks and shifts take bits 0, 2, 4 and bits 1, 3, 5 of the pixel, and lift a non-zero playfield 2 by eight |
| `Denise.PlaneOfPixel` | src/chipset/denise/output/planar.c:13-33 | bit p of the pixel at x is set if and only if its column, x less the left edge and the plane's own scroll, is one of the fetched ones and has its bit set in plane p |
| `Denise.PriorityResolve` | src/chipset/denise/render/priority.c:13-38 | the winner is the first sprite i that shows a colour, if the playfield is colour 0 or i + 2 prio < 8, and the playfield only when no sprite shows or all that do are behind it |
| `Denise.AttachedPixel` | src/chipset/denise/sprites/sprite_attach.c:15-31 | an attached pair shows one of colours 17 to 31 or nothing |
| `Compositing.PlanarToChunky` | src/chipset/denise/output/planar.c:13-33 | pixel px of a block is the index whose bit p is bit 15-px of plane p, at most six planes |
| `Compositing.ChunkyIsColumn` | src/chipset/denise/output/planar.c:13-33 | a pixel of block w is column 16w + px of the fetched stream |
| `Compositing.Compositor.BlockPath` | src/chipset/denise/render/compositor.c:290-319 | the block path yields at every pixel the colour, active mask and palette colours of each plane read at its own scroll |
| `Compositing.Compositor.PixelPath` | src/chipset/denise/render/compositor.c:319-366 | the per-pixel, per-plane path yields the very same pixels, for any scrolls; so the two paths agree whenever the scrolls are equal, in normal and half-bright mode, lores and hires |
| `Compositing.Compositor.HamPath` | src/chipset/denise/render/compositor.c:214-237 | hold-and-modify: every pixel in the window has the colour that all columns up to its own leave, also those outside the window |
| `Compositing.Compositor.DrawFirst` | src/chipset/denise/render/compositor.c:251-266 | drawing a column of playfield 1 over whatever is there shows the pair drawn so far |
| `Compositing.Compositor.DrawSecond` | src/chipset/denise/render/compositor.c:268-283 | drawing a column of playfield 2 over whatever is there shows the pair drawn so far |
| `Compositing.Compositor.DualPath` | src/chipset/denise/render/compositor.c:238-286 | the dual-playfield loop yields at every pixel the resolution of the two scrolled playfields, with the winner's sprite priority and both active bits |
| `Compositing.PaintIsScan` | src/chipset/denise/render/compositor.c:452-459 | painting sprite k over what the later ones left is the priority scan started at k |
| `Compositing.Compositor.DrawSprite` | src/chipset/denise/render/compositor.c:374-463 | a sprite, or the even sprite of an attached pair, paints its sixteen columns once or doubled and no other pixel |
| `Compositing.Compositor.OverlaySprites` | src/chipset/denise/render/compositor.c:370-463 | painting sprites 7 down to 0 shows at every pixel what the priority scan 0 up to 7 picks, attached pairs included |
| `Compositing.SpriteOverPlayfield` | src/chipset/denise/render/compositor.c:370-463 | a lone sprite i shows over colour 0 always, and over an opaque playfield of priority p if and only if i + 2p < 8 |
| `Compositing.Compositor.ComposeLine` | src/chipset/denise/render/compositor.c:59-463 | a whole line: background, one of the four playfield paths, sprites; where one sprite i alone shows, the pixel is its colour over colour 0 or where i + 2 prio < 8, and the playfield's otherwise |
| `SpriteDma.Channel.Slot` | src/chipset/agnus/dma/sprite_dma.c:74-152 | what an idle, an A and a B slot do to the channel and hand to Denise |
| `SpriteDma.ControlPair` | src/chipset/agnus/dma/sprite_dma.c:134-136 | a control pair gives VSTART and VSTOP if and only if bits 8 to 15 of its words spell their low bytes, and bit 2 and bit 1 of the second word are their ninth bits |
| `SpriteDma.Channel.Line` | src/chipset/agnus/dma/sprite_dma.c:74-152 | the two slots of a line deliver what the list in memory prescribes for that line, and the pointer is the base plus the bytes consumed |
| `SpriteDma.Channel.Frame` | src/chipset/agnus/dma/sprite_dma.c:55-152 | over a frame, for every memory content, each line delivers exactly the list's control pair, data pair or nothing |
| `SpriteDma.NextLine` | src/chipset/agnus/dma/sprite_dma.c:91-140 | each line is idle, takes the next control pair or takes the next row, at the next four bytes |
| `SpriteDma.CurrentIsCurrent` | src/chipset/agnus/dma/sprite_dma.c:55-152 | the band in force on a line has begun and the next has not |
| `SpriteDma.RowDelivered` | src/chipset/agnus/dma/sprite_dma.c:91-140 | row k of a band arrives on its first line plus k, whatever the list |
| `SpriteDma.ControlDelivered` | src/chipset/agnus/dma/sprite_dma.c:91-140 | a band's control pair arrives on its line, nothing between it and the first row, and nothing ever after the terminator |
| `SpriteDma.BandsAreListed` | src/chipset/agnus/dma/sprite_dma.c:91-140 | in a well-formed list band i's control pair is fetched at the frame start or where band i-1 stops, from just behind band i-1's rows |
| `SpriteDma.WellFormedList` | src/chipset/agnus/dma/sprite_dma.c:55-152 | a well-formed list delivers row v - vstart on line v of a band, control pairs at the frame start and at each vstop, and nothing otherwise |
| `Beam.TicksAdd` | src/chipset/agnus/beam.c:57-88 | m and then n clocks are m + n clocks, through any LOF and LOL toggling |
| `Beam.EndedLine` | src/chipset/agnus/beam.c:67-75 | a beam standing at its line's end behaves as one at the start of the next line |
| `Beam.BeamUnit.Step` | src/chipset/agnus/beam.c:57-88 | any number of clocks in one call is that many single clocks, after a reset when there is no geometry |
| `Beam.BeamUnit.SetInterlace` | src/chipset/denise/denise.c:117-120 | turning interlace off makes the present frame a normal one at once |
| `Beam.BeamUnit.Run` | src/chipset/agnus/beam.c:16-88 | through any clocks and BPLCON0 writes in any order the beam stays on lines of the normal length, at most one line past the normal frame |
| `Beam.Inside` | src/chipset/agnus/beam.c:57-88 | clocks that do not pass the end of the present frame, long or not, are places in it |
| `Beam.Beyond` | src/chipset/agnus/beam.c:57-88 | clocks that pass it once are places from the start of the next frame |
| `Beam.NextFrame` | src/chipset/agnus/beam.c:16-38 | in every reachable state the frame's last clock leads to line 0, clock 0 with the count one up, in a long frame if and only if interlace is on and this one was not |
| `Beam.InterlacedFrames` | src/chipset/agnus/beam.c:16-88 | with interlace on any number of frame pairs takes that many times 2 * lines + 1 lines, and leaves the beam as it was |
| `Beam.TicksMovePlace` | src/chipset/agnus/beam.c:57-88 | a uniform beam goes round its frame, one place a clock |
| `Beam.PositionIsStepped` | src/core/rigel_beam_api.c:32-65 | the closed form is the position after that many clocks if and only if neither the clocks from the line's start nor the lines from the frame's start leave 64 bits, or 2^64 is a number of whole frames |
| `Beam.VertbDeadline` | src/chipset/agnus/timing/vblank.c:3-26 | in every reachable state, interlaced or not, the deadline is the first time of the VERTB position if and only if the beam is on it, or is neither at line 0, clock 0, where it is one frame late, nor in a long frame above its extra line, where it is one line early |
| `Beam.LongFrameVertb` | src/chipset/agnus/timing/vblank.c:3-26 | in a long frame of a 312-line display the deadline comes with the beam on line 312 |
| `Copper.PassedIsOrder` | src/chipset/agnus/copper/copper.h:27-36 | with full masks the 16-bit comparison is line before clock, on the line's low eight bits |
| `Copper.MaskOnes` | src/chipset/agnus/copper/copper.h:27-36 | a mask of n ones keeps the low n bits |
| `Copper.WaitDeadline` | src/domains/copper/copper_domain.c:64-90 | in every reachable state, for any geometry, a full-mask deadline is the first time the WAIT passes if and only if it has passed already, or the waited position is still ahead in this frame, or the frame is not long and the beam's low eight bits do not come round to it before the frame ends (or a frame of 256 or 512 lines makes both lines one); when they do not come round the first time is one frame on, counted with the extra line |
| `Copper.LongFrameWait` | src/domains/copper/copper_domain.c:64-90 | in a long frame the deadline of a WAIT for line 100 of the next comes with the beam on line 99 |
| `Copper.WaitBeyondLine` | src/domains/copper/copper_domain.c:64-90 | a WAIT for a clock beyond the line's end passes only as a line begins, and its deadline is never exact before it has passed |
| `Copper.PartialDeadline` | src/domains/copper/copper_domain.c:64-90 | under any other masks the deadline is the line's end, and nothing passes before it if and only if the masked line is still short of the waited one or no later clock of the line has the masked clock |
| `Copper.PassesBeforeDeadline` | src/domains/copper/copper_domain.c:64-90 | a WAIT for clock 100 of any line passes there, 127 clocks before its deadline |
| `Copper.CopperUnit.Step` | src/domains/copper/copper_domain.c:92-123 | a clock releases the WAIT exactly when DMA is on, the blitter does not hold it and the position has passed; release moves the program counter and asks for a fetch |
| `Copper.CopperUnit.WaitOut` | src/domains/copper/copper_domain.c:64-123 | stepped clock by clock the Copper wakes at the first time its WAIT passes, whatever the masks and the frame; that is after the clocks its deadline said if and only if the deadline is exact |
| `Ata.ReplacedReadsBack` | harness/expansions/ata_ide.c:593-608 | sectors put on a disk read back as put, and every other byte of the disk stays |
| `Ata.Channel.ExecuteDiskCommand` | harness/expansions/ata_ide.c:272-356 | what each disk command starts; a failed or unknown one reports the error and leaves a running data phase as it was |
| `Ata.Channel.StartSectors` | harness/expansions/ata_ide.c:301-348 | a sector command in range latches its address and count (0 means 256) and opens its data phase; one out of range aborts |
| `Ata.Channel.ExecuteCommand` | harness/expansions/ata_ide.c:358-426 | the selected device takes the command; an absent disk aborts it |
| `Ata.Channel.ExecutePacket` | harness/expansions/ata_ide.c:428-485 | the CD layer's answer: error, no data, or a data phase holding its bytes |
| `Ata.Channel.Read16` | harness/expansions/ata_ide.c:505-559 | the data register gives the next word of a data phase, and the last word ends the phase; registers 1 and 7 are error and status, and there is nothing beyond |
| `Ata.HeadBits` | harness/expansions/ata_ide.c:487-503 | the device register reads as written with bits 5 and 7 set, and bit 4 selects the device |
| `Ata.Channel.ReadPhase` | harness/expansions/ata_ide.c:505-559 | any number of data reads through a phase gives its words in order, then 0xFFFF; the phase ends if and only if it has an even number of bytes and the reads are enough, and one of odd length stays at its last byte |
| `Ata.Channel.Write8` | harness/expansions/ata_ide.c:561-578 | a register write changes that register, and 2 to 6 read back; only the command register touches a transfer |
| `Ata.Channel.Write16` | harness/expansions/ata_ide.c:580-631 | a data word joins the buffer; the last word of a disk write calls the disk once with the latched sectors; the sixth word of a packet is answered |
| `Ata.Channel.FlushWrite` | harness/expansions/ata_ide.c:599-611 | the disk call: the latched address, count and the buffered bytes; one that fails leaves the disk and reports the error |
| `Ata.Channel.HostWrite` | harness/expansions/ata_ide.c:272-611 | WRITE SECTORS of any range on the disk, with any register writes between the words, calls the disk exactly once and replaces exactly those sectors, or reports the failed call |
| `Ata.Channel.HostRead` | harness/expansions/ata_ide.c:272-559 | READ SECTORS returns the words of the range in order, with any register writes between them |
| `Ata.Channel.RoundTrip` | harness/expansions/ata_ide.c:272-611 | the words written are the words read, and every byte outside the range is unchanged |
| `Ata.Channel.Run` | harness/expansions/ata_ide.c:505-631 | for any accesses in any order, while disk and CD calls fail or answer differently from one access to the next, the position stays within the length and the buffer, every disk write is of whole sectors of the disk, and the disk is what those that did not fail made of it |

## Left out

- Decoding of register writes into blitter commands, bitplane and sprite
  registers, and the DSKLEN word: commands, line configurations and DSKLEN's three
  fields are given as they are decoded.
- CIA outputs on PB6 and PB7, the time-of-day clock and the SP pin level: they
  change once a call or are overwritten in the same call.
- CiaTimers.AdvanceEvents: underflow totals below 2^31, since beyond them the program's
  C int overflows, which C leaves undefined.
- CiaTimers.Cia.CountCnt: the same totals below 2^31.
- Disk writes, the countdown that ends a transfer without media, DSKBYTR's flags
  beside its data, and encoding of a track image shorter than its sectors.
- Disk.DiskUnit.ReadWholeTrack: with word sync and the standard mark; other
  starts are covered by `StartDma` and `Serve`.
- The pending disk request that takes any slot but refresh, audio slots and what
  the Copper, blitter and CPU do in their slots: the line theorems hold with no
  such request, and memory at each slot is a parameter.
- Scheduler.SlotScheduler.StepLine: registers that stay the same during the line. The
  program's lines have 227 clocks (raster.c:7), which is the length taken here; of
  longer ones, whose further clocks use the owner of slot 0 once more, those are taken
  whose owner there is not a bitplane.
- Scheduler.SlotScheduler.StepDisplay: the same lines.
- Scheduler.SlotScheduler.NextEvent: line lengths over 227 only when a slot found
  inside the table ends the search, since beyond the table the program reads past its
  array.
- Scheduler.SlotScheduler.CpuResumeIn: the same line lengths.
- Collision detection, frame flags and dirty lines in the compositor; sprites come
  with their positions decoded.
- Compositing.Compositor.ComposeLine: the arrays of one line (colours, playfield
  colour, priority, active bits, sprites) are one array of records.
- SIMD variants of the planar conversion.
- SpriteDma.Channel.Frame: memory stays the same during the frame, and the pointer
  registers are not written in it.
- Beam.VertbDeadline: long lines; nothing in the program sets `lol_toggle`, without
  which they do not come about (`Beam.BeamUnit.Run`).
- Copper.WaitDeadline: long lines, and lines the frame does not have: the program's
  frames have 262 lines or 312, and a WAIT names one of 256.
- The contents of the two IDENTIFY blocks of the ATA channel and of CD packets:
  arbitrary data given to the channel. A disk or CD call that fails is taken to leave
  disk and buffer alone, and an answer never to exceed the buffer it was offered.
- Paula's audio and serial units, interrupt priorities, input, the real-time clock,
  the hunk loader, the host harness around the chipset, and all tracing.
