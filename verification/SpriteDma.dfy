/** One sprite DMA channel: two bus slots on every line walk a list of bands in
    memory, a control pair and then a data pair for each line of the band. */
module SpriteDma {
  import opened Integers
  import opened Words

  /** What a 16-bit read of an address returns. */
  type Memory = U32 -> Word

  datatype Delivery = Nothing | Control(pos: Word, ctl: Word) | Data(data: Word, datb: Word)

  /** The high byte of a word. */
  function HighByte(w: Word): (b: nat)
    ensures b < 256
  {
    (w.bits >> 8) as nat
  }

  function VStart(pos: Word, ctl: Word): nat {
    HighByte(pos) + if Bit(ctl, 2) then 256 else 0
  }

  function VStop(ctl: Word): nat {
    HighByte(ctl) + if Bit(ctl, 1) then 256 else 0
  }

  /** The number that `n` bits of a word spell, from bit `low` up. */
  function Spelled(w: Word, low: nat, n: nat): nat
    requires low + n <= 16
    decreases n
  {
    if n == 0 then 0 else (if Bit(w, low) then 1 else 0) + 2 * Spelled(w, low + 1, n - 1)
  }

  function BitValue(w: bv16, i: bv5): nat
    requires i < 16
  {
    if BitAt(w, i) then 1 else 0
  }

  lemma BitsOfHighByte(w: bv16)
    ensures (w >> 8) as nat
         == BitValue(w, 8) + 2 * BitValue(w, 9) + 4 * BitValue(w, 10) + 8 * BitValue(w, 11)
          + 16 * BitValue(w, 12) + 32 * BitValue(w, 13) + 64 * BitValue(w, 14) + 128 * BitValue(w, 15)
  {
  }

  lemma SpelledFrom(w: Word, low: nat)
    requires 8 <= low < 16
    ensures Index(low) < 16 && Spelled(w, 16, 0) == 0
    ensures Spelled(w, low, 16 - low) == BitValue(w.bits, Index(low)) + 2 * Spelled(w, low + 1, 15 - low)
  {
    hide BitAt;
    BitIsBitAt(w, low);
  }

  lemma HighByteIs(w: Word)
    ensures HighByte(w) == Spelled(w, 8, 8)
  {
    hide Bit, BitAt, Index, BitValue, Spelled;
    IndexTable();
    BitsOfHighByte(w.bits);
    SpelledFrom(w, 8);
    SpelledFrom(w, 9);
    SpelledFrom(w, 10);
    SpelledFrom(w, 11);
    SpelledFrom(w, 12);
    SpelledFrom(w, 13);
    SpelledFrom(w, 14);
    SpelledFrom(w, 15);
  }

  /** A control pair gives the lines `vstart` and `vstop` if and only if bits 8 to 15 of its
      two words spell their low bytes, and bits 2 and 1 of the second are their ninth bits. */
  lemma ControlPair(pos: Word, ctl: Word, vstart: nat, vstop: nat)
    requires vstart < 512 && vstop < 512
    ensures VStart(pos, ctl) == vstart <==> Spelled(pos, 8, 8) == vstart % 256 && Bit(ctl, 2) == (vstart >= 256)
    ensures VStop(ctl) == vstop <==> Spelled(ctl, 8, 8) == vstop % 256 && Bit(ctl, 1) == (vstop >= 256)
  {
    hide Bit, Spelled, HighByte;
    HighByteIs(pos);
    HighByteIs(ctl);
  }

  // ------------------------------------------------- the list, as memory has it

  /** A band: the line its control pair is fetched on, and where the pair is. */
  datatype Band = Band(line: nat, offset: nat)

  function WordAt(mem: Memory, base: U32, offset: nat): Word {
    mem(ToU32(base + offset))
  }

  function Pos(mem: Memory, base: U32, b: Band): Word {
    WordAt(mem, base, b.offset)
  }

  function Ctl(mem: Memory, base: U32, b: Band): Word {
    WordAt(mem, base, b.offset + 2)
  }

  /** Two zero control words end the list. */
  predicate Ends(mem: Memory, base: U32, b: Band) {
    Pos(mem, base, b) == ZERO && Ctl(mem, base, b) == ZERO
  }

  function Start(mem: Memory, base: U32, b: Band): nat {
    VStart(Pos(mem, base, b), Ctl(mem, base, b))
  }

  function Stop(mem: Memory, base: U32, b: Band): nat {
    VStop(Ctl(mem, base, b))
  }

  /** The first line that can carry data: the line after the control pair at the
      earliest. */
  function First(mem: Memory, base: U32, b: Band): (line: nat)
    ensures line > b.line
  {
    var start := Start(mem, base, b);
    if start > b.line then start else b.line + 1
  }

  function Rows(mem: Memory, base: U32, b: Band): nat {
    var first, stop := First(mem, base, b), Stop(mem, base, b);
    if stop > first then stop - first else 0
  }

  /** The band after `b`: its control pair follows `b`'s rows in memory, and is
      fetched on the first line after them. */
  function Following(mem: Memory, base: U32, b: Band): (next: Band)
    ensures next.line > b.line
  {
    var first, stop := First(mem, base, b), Stop(mem, base, b);
    Band(if stop > first then stop else first, b.offset + 4 + 4 * Rows(mem, base, b))
  }

  function BandAt(mem: Memory, base: U32, i: nat): Band {
    if i == 0 then Band(0, 0) else Following(mem, base, BandAt(mem, base, i - 1))
  }

  /** The band that line `v` belongs to: the last one whose control pair has been
      fetched by then. */
  function Current(mem: Memory, base: U32, v: nat): (i: nat) {
    if v == 0 then 0
    else
      var i := Current(mem, base, v - 1);
      if !Ends(mem, base, BandAt(mem, base, i)) && BandAt(mem, base, i + 1).line == v then i + 1 else i
  }

  /** What line `v` delivers. */
  function Delivered(mem: Memory, base: U32, v: nat): Delivery {
    var b := BandAt(mem, base, Current(mem, base, v));
    if Ends(mem, base, b) then Nothing
    else if v == b.line then Control(Pos(mem, base, b), Ctl(mem, base, b))
    else if First(mem, base, b) <= v < Stop(mem, base, b) then
      var row := b.offset + 4 + 4 * (v - First(mem, base, b));
      Data(WordAt(mem, base, row), WordAt(mem, base, row + 2))
    else Nothing
  }

  /** Bytes fetched by the end of line `v`. */
  function Consumed(mem: Memory, base: U32, v: nat): nat {
    var b := BandAt(mem, base, Current(mem, base, v));
    var rows := if Ends(mem, base, b) || v < First(mem, base, b) then 0 else v + 1 - First(mem, base, b);
    b.offset + 4 + 4 * if rows > Rows(mem, base, b) then Rows(mem, base, b) else rows
  }

  /** The current band has begun, and the next one has not. */
  lemma {:induction false} CurrentIsCurrent(mem: Memory, base: U32, v: nat)
    ensures var i := Current(mem, base, v);
      && BandAt(mem, base, i).line <= v
      && (!Ends(mem, base, BandAt(mem, base, i)) ==> v < BandAt(mem, base, i + 1).line)
  {
    hide Ends, Following;
    if v == 0 {
    } else {
      CurrentIsCurrent(mem, base, v - 1);
    }
  }

  /** Line 0 fetches the first control pair. */
  lemma FirstLine(mem: Memory, base: U32)
    ensures Current(mem, base, 0) == 0 && BandAt(mem, base, 0) == Band(0, 0) && Consumed(mem, base, 0) == 4
    ensures var b := Band(0, 0);
      Delivered(mem, base, 0) == if Ends(mem, base, b) then Nothing else Control(Pos(mem, base, b), Ctl(mem, base, b))
  {
    hide Ends, Rows, Start, Stop;
  }

  /** What line `v` does, from where line `v - 1` left the list: stay idle, take
      the next control pair, or take a row. */
  lemma NextLine(mem: Memory, base: U32, v: nat)
    requires v > 0
    ensures var i, at := Current(mem, base, v - 1), Consumed(mem, base, v - 1);
      var b := BandAt(mem, base, i);
      if Ends(mem, base, b) || v < Start(mem, base, b) then
        Current(mem, base, v) == i && Consumed(mem, base, v) == at && Delivered(mem, base, v) == Nothing
      else if v >= Stop(mem, base, b) then
        var next := Band(v, at);
        && Current(mem, base, v) == i + 1 && BandAt(mem, base, i + 1) == next && Consumed(mem, base, v) == at + 4
        && Delivered(mem, base, v) ==
          if Ends(mem, base, next) then Nothing else Control(Pos(mem, base, next), Ctl(mem, base, next))
      else
        && Current(mem, base, v) == i && Consumed(mem, base, v) == at + 4
        && Delivered(mem, base, v) == Data(WordAt(mem, base, at), WordAt(mem, base, at + 2))
  {
    hide Ends, Start, Stop, Pos, Ctl, WordAt, BandAt;
    CurrentIsCurrent(mem, base, v - 1);
    NextBand(mem, base, Current(mem, base, v - 1));
  }

  // ------------------------------------------------------- what a list delivers

  /** No band before `i` ends the list. */
  ghost predicate Reached(mem: Memory, base: U32, i: nat) {
    forall j: nat | j < i :: !Ends(mem, base, BandAt(mem, base, j))
  }

  lemma {:induction false} CurrentReached(mem: Memory, base: U32, v: nat)
    ensures Reached(mem, base, Current(mem, base, v))
  {
    hide Ends, BandAt;
    if v == 0 {
    } else {
      CurrentReached(mem, base, v - 1);
    }
  }

  lemma {:induction false} LinesAscend(mem: Memory, base: U32, i: nat, j: nat)
    requires i <= j
    ensures BandAt(mem, base, i).line + (j - i) <= BandAt(mem, base, j).line
    decreases j - i
  {
    hide Following;
    if i == j {
    } else {
      LinesAscend(mem, base, i, j - 1);
    }
  }

  /** The bands' lines divide the frame. */
  lemma CurrentIs(mem: Memory, base: U32, i: nat, v: nat)
    requires Reached(mem, base, i) && BandAt(mem, base, i).line <= v
    requires !Ends(mem, base, BandAt(mem, base, i)) ==> v < BandAt(mem, base, i + 1).line
    ensures Current(mem, base, v) == i
  {
    hide Ends, BandAt, Current;
    var c := Current(mem, base, v);
    CurrentIsCurrent(mem, base, v);
    CurrentReached(mem, base, v);
    if c > i {
      LinesAscend(mem, base, i + 1, c);
    } else if c < i {
      LinesAscend(mem, base, c + 1, i);
    }
  }

  /** Row `k` of a band, from consecutive words. */
  function Row(mem: Memory, base: U32, b: Band, k: nat): Delivery {
    Data(WordAt(mem, base, b.offset + 4 + 4 * k), WordAt(mem, base, b.offset + 6 + 4 * k))
  }

  lemma RowDelivered(mem: Memory, base: U32, i: nat, k: nat)
    requires Reached(mem, base, i) && !Ends(mem, base, BandAt(mem, base, i))
      && k < Rows(mem, base, BandAt(mem, base, i))
    ensures var b := BandAt(mem, base, i); Delivered(mem, base, First(mem, base, b) + k) == Row(mem, base, b, k)
  {
    hide Ends, BandAt, Current, Start, Stop, WordAt, Pos, Ctl, Reached;
    NextBand(mem, base, i);
    CurrentIs(mem, base, i, First(mem, base, BandAt(mem, base, i)) + k);
  }

  /** Before its first row a band delivers its control pair and no more; the end
      of the list delivers nothing ever after. */
  lemma ControlDelivered(mem: Memory, base: U32, i: nat, v: nat)
    requires Reached(mem, base, i)
    requires var b := BandAt(mem, base, i); b.line <= v && (Ends(mem, base, b) || v < First(mem, base, b))
    ensures var b := BandAt(mem, base, i);
      Delivered(mem, base, v) ==
        if Ends(mem, base, b) || v > b.line then Nothing else Control(Pos(mem, base, b), Ctl(mem, base, b))
  {
    hide Ends, BandAt, Current, Start, Stop, WordAt, Pos, Ctl, Reached;
    NextBand(mem, base, i);
    CurrentIs(mem, base, i, v);
  }

  lemma NextBand(mem: Memory, base: U32, i: nat)
    ensures BandAt(mem, base, i + 1) == Following(mem, base, BandAt(mem, base, i))
  {
    hide Following;
  }

  // ---------------------------------------------------------- well-formed lists

  datatype Extent = Extent(start: nat, stop: nat)

  function OffsetOf(bands: seq<Extent>, i: nat): nat
    requires i <= |bands|
  {
    if i == 0 then 0
    else
      var band := bands[i - 1];
      OffsetOf(bands, i - 1) + 4 + 4 * if band.stop > band.start then band.stop - band.start else 0
  }

  /** Bands in line order, with a line between the control pair and the first row; a band
      may have no rows. */
  ghost predicate WellFormed(bands: seq<Extent>) {
    forall i: nat | i < |bands| :: InOrder(bands, i)
  }

  predicate InOrder(bands: seq<Extent>, i: nat)
    requires i < |bands|
  {
    ControlLine(bands, i) < bands[i].start <= bands[i].stop
  }

  /** Memory holds the list: every band's control pair in its place, and a
      terminator after the last band. */
  ghost predicate Holds(mem: Memory, base: U32, bands: seq<Extent>) {
    && (forall i: nat | i < |bands| :: HoldsBand(mem, base, bands[i], OffsetOf(bands, i)))
    && Ends(mem, base, Band(0, OffsetOf(bands, |bands|)))
  }

  ghost predicate HoldsBand(mem: Memory, base: U32, extent: Extent, offset: nat) {
    var b := Band(0, offset);
    !Ends(mem, base, b) && Start(mem, base, b) == extent.start && Stop(mem, base, b) == extent.stop
  }

  /** The line of control pair `i`: the frame's first, or where the band before stops. */
  function ControlLine(bands: seq<Extent>, i: nat): nat
    requires i <= |bands|
  {
    if i == 0 then 0 else bands[i - 1].stop
  }

  /** A band's words depend on where it is, not on when it is fetched. */
  lemma WordsOf(mem: Memory, base: U32, b: Band)
    ensures var same := Band(0, b.offset);
      && Ends(mem, base, b) == Ends(mem, base, same) && Start(mem, base, b) == Start(mem, base, same)
      && Stop(mem, base, b) == Stop(mem, base, same)
  {
    hide VStart, VStop, WordAt;
  }

  lemma {:induction false} BandsAreListed(mem: Memory, base: U32, bands: seq<Extent>, i: nat)
    requires WellFormed(bands) && Holds(mem, base, bands) && i <= |bands|
    ensures BandAt(mem, base, i) == Band(ControlLine(bands, i), OffsetOf(bands, i)) && Reached(mem, base, i)
    ensures i < |bands| <==> !Ends(mem, base, BandAt(mem, base, i))
    ensures i < |bands| ==> var b := BandAt(mem, base, i);
      && First(mem, base, b) == bands[i].start && Stop(mem, base, b) == bands[i].stop
      && Rows(mem, base, b) == bands[i].stop - bands[i].start
  {
    hide Ends, Start, Stop, First, Rows, BandAt, WellFormed, Holds;
    if i == 0 {
      assert BandAt(mem, base, 0) == Band(0, 0) by { FirstLine(mem, base); }
    } else {
      BandsAreListed(mem, base, bands, i - 1);
      NextBand(mem, base, i - 1);
    }
    ListedBand(mem, base, bands, i);
  }

  lemma ListedBand(mem: Memory, base: U32, bands: seq<Extent>, i: nat)
    requires WellFormed(bands) && Holds(mem, base, bands) && i <= |bands|
    ensures var b := Band(ControlLine(bands, i), OffsetOf(bands, i));
      if i == |bands| then Ends(mem, base, b)
      else
        && !Ends(mem, base, b) && First(mem, base, b) == bands[i].start && Stop(mem, base, b) == bands[i].stop
        && Rows(mem, base, b) == bands[i].stop - bands[i].start
  {
    hide Ends, Start, Stop, OffsetOf;
    WordsOf(mem, base, Band(ControlLine(bands, i), OffsetOf(bands, i)));
    if i < |bands| { assert InOrder(bands, i) && HoldsBand(mem, base, bands[i], OffsetOf(bands, i)); }
  }

  /** A well-formed list delivers control pair `i` at the frame start or where the
      band before stops, data row `v - start` on line `v` of a band, and nothing on
      any other line. */
  lemma WellFormedList(mem: Memory, base: U32, bands: seq<Extent>)
    requires WellFormed(bands) && Holds(mem, base, bands)
    ensures forall i: nat | i < |bands| ::
      Delivered(mem, base, ControlLine(bands, i)) ==
        Control(WordAt(mem, base, OffsetOf(bands, i)), WordAt(mem, base, OffsetOf(bands, i) + 2))
    ensures forall i: nat, v: nat | i < |bands| && bands[i].start <= v < bands[i].stop ::
      Delivered(mem, base, v) == Row(mem, base, Band(ControlLine(bands, i), OffsetOf(bands, i)), v - bands[i].start)
    ensures forall v: nat | Between(bands, v) :: Delivered(mem, base, v) == Nothing
  {
    hide Ends, BandAt, Start, Stop, WordAt, Rows, First, OffsetOf, ControlLine, Current, Row, Delivered, WellFormed,
      Holds, Reached, Between;
    forall i: nat | i < |bands|
      ensures Delivered(mem, base, ControlLine(bands, i)) ==
        Control(WordAt(mem, base, OffsetOf(bands, i)), WordAt(mem, base, OffsetOf(bands, i) + 2))
    {
      BandsAreListed(mem, base, bands, i);
      ControlDelivered(mem, base, i, ControlLine(bands, i));
    }
    forall i: nat, v: nat | i < |bands| && bands[i].start <= v < bands[i].stop
      ensures Delivered(mem, base, v)
           == Row(mem, base, Band(ControlLine(bands, i), OffsetOf(bands, i)), v - bands[i].start)
    {
      BandsAreListed(mem, base, bands, i);
      RowDelivered(mem, base, i, v - bands[i].start);
    }
    forall v: nat | Between(bands, v) { NothingBetween(mem, base, bands, v); }
  }

  /** Line `v` is neither a control line nor inside a band. */
  ghost predicate Between(bands: seq<Extent>, v: nat) {
    forall i: nat | i < |bands| :: v != ControlLine(bands, i) && !(bands[i].start <= v < bands[i].stop)
  }

  lemma NothingBetween(mem: Memory, base: U32, bands: seq<Extent>, v: nat)
    requires WellFormed(bands) && Holds(mem, base, bands) && Between(bands, v)
    ensures Delivered(mem, base, v) == Nothing
  {
    hide Ends, BandAt, Start, Stop, WordAt, Rows, First, OffsetOf, ControlLine, Current, WellFormed, Holds;
    var c := Current(mem, base, v);
    CurrentReached(mem, base, v);
    BandsAreListed(mem, base, bands, |bands|);
    if c < |bands| { BandsAreListed(mem, base, bands, c); }
  }

  // -------------------------------------------------------------- the channel

  class Channel {
    var basePtr: U32
    var ptr: U32
    var armed: bool
    var terminated: bool
    var fetchCtrl: bool
    var vstart: nat
    var vstop: nat
    var w0: Word

    constructor (basePtr: U32)
      ensures this.basePtr == basePtr && AtFrameStart()
    {
      this.basePtr, ptr := basePtr, basePtr;
      armed, terminated, fetchCtrl := false, false, true;
      vstart, vstop, w0 := 0, 0, ZERO;
    }

    predicate AtFrameStart()
      reads this
    {
      ptr == basePtr && !armed && !terminated && fetchCtrl && vstart == vstop == 0 && w0 == ZERO
    }

    method FrameStart()
      modifies this
      ensures AtFrameStart() && basePtr == old(basePtr)
    {
      ptr, armed, terminated, fetchCtrl := basePtr, false, false, true;
      vstart, vstop, w0 := 0, 0, ZERO;
    }

    /** One DMA slot: `delivery` is what the slot hands to Denise. */
    method Slot(vpos: nat, isB: bool, mem: Memory) returns (delivery: Delivery)
      modifies `ptr, `armed, `terminated, `fetchCtrl, `vstart, `vstop, `w0
      ensures var idle := old(terminated) || (old(armed) && vpos < old(vstart));
        idle ==> delivery == Nothing && unchanged(this)
      ensures var idle := old(terminated) || (old(armed) && vpos < old(vstart));
        !idle && !isB ==>
          && delivery == Nothing && ptr == ToU32(old(ptr) + 2) && w0 == mem(old(ptr))
          && fetchCtrl == (!old(armed) || vpos >= old(vstop))
          && armed == old(armed) && !terminated && vstart == old(vstart) && vstop == old(vstop)
      ensures var idle, w1 := old(terminated) || (old(armed) && vpos < old(vstart)), mem(old(ptr));
        !idle && isB ==>
          && ptr == ToU32(old(ptr) + 2) && w0 == old(w0) && fetchCtrl == old(fetchCtrl)
          && (if !fetchCtrl then
                && delivery == Data(w0, w1) && !terminated
                && armed == old(armed) && vstart == old(vstart) && vstop == old(vstop)
              else if w0 == ZERO && w1 == ZERO then delivery == Nothing && terminated && !armed
              else
                && delivery == Control(w0, w1) && !terminated && armed
                && vstart == VStart(w0, w1) && vstop == VStop(w1))
    {
      if terminated { return Nothing; }
      var idle := armed && vpos < vstart;
      if !isB {
        if idle { return Nothing; }
        fetchCtrl := !armed || vpos >= vstop;
        w0 := mem(ptr);
        ptr := ToU32(ptr + 2);
        return Nothing;
      }
      if idle { return Nothing; }
      var w1 := mem(ptr);
      ptr := ToU32(ptr + 2);
      if fetchCtrl {
        if w0 == ZERO && w1 == ZERO {
          armed, terminated, fetchCtrl := false, true, true;
          return Nothing;
        }
        vstart, vstop, armed := VStart(w0, w1), VStop(w1), true;
        return Control(w0, w1);
      }
      return Data(w0, w1);
    }

    /** The channel's state when line `v` is over. */
    ghost predicate After(mem: Memory, v: nat)
      reads this
    {
      var b := BandAt(mem, basePtr, Current(mem, basePtr, v));
      && ptr == ToU32(basePtr + Consumed(mem, basePtr, v))
      && terminated == Ends(mem, basePtr, b)
      && (!terminated ==> armed && vstart == Start(mem, basePtr, b) && vstop == Stop(mem, basePtr, b))
    }

    /** Both slots of a line. */
    method Line(v: nat, mem: Memory) returns (delivery: Delivery)
      requires if v == 0 then AtFrameStart() else After(mem, v - 1)
      modifies `ptr, `armed, `terminated, `fetchCtrl, `vstart, `vstop, `w0
      ensures After(mem, v) && delivery == Delivered(mem, basePtr, v)
    {
      hide VStart, VStop, Current, BandAt, Consumed, Delivered, ToU32;
      ToU32Step(basePtr, if v == 0 then 0 else Consumed(mem, basePtr, v - 1));
      if v == 0 { FirstLine(mem, basePtr); } else { NextLine(mem, basePtr, v); }
      var nothing := Slot(v, false, mem);
      delivery := Slot(v, true, mem);
    }

    /** A frame of `lines` lines, from its start. */
    method Frame(lines: nat, mem: Memory) returns (deliveries: seq<Delivery>)
      modifies this
      ensures basePtr == old(basePtr) && |deliveries| == lines
      ensures forall v: nat | v < lines :: deliveries[v] == Delivered(mem, basePtr, v)
      ensures lines > 0 ==> ptr == ToU32(basePtr + Consumed(mem, basePtr, lines - 1))
    {
      hide Delivered, Consumed, BandAt, Current, Ends, Start, Stop, ToU32;
      FrameStart();
      deliveries := [];
      for v := 0 to lines
        invariant basePtr == old(basePtr) && |deliveries| == v
        invariant if v == 0 then AtFrameStart() else After(mem, v - 1)
        invariant forall k: nat | k < v :: deliveries[k] == Delivered(mem, basePtr, k)
      {
        var delivery := Line(v, mem);
        deliveries := deliveries + [delivery];
      }
    }
  }

  lemma ToU32Step(base: U32, offset: nat)
    ensures ToU32(base) == base && ToU32(ToU32(base + offset) + 2) == ToU32(base + (offset + 2))
    ensures ToU32(ToU32(ToU32(base + offset) + 2) + 2) == ToU32(base + (offset + 4))
  {
  }
}
