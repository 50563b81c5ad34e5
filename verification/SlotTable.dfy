/** The slot table of a scan line: who owns each bus slot, and which bitplane
    word each bitplane slot fetches. */
module SlotTable {
  import opened Arithmetic
  import opened Integers

  const SLOTS := 227
  const MAX_PLANE_WORDS := 64
  const NO_INDEX := 0xFFFF

  datatype Owner = Free | Refresh | Disk | Audio(channel: nat) | Sprite(number: nat) | Bitplane | Copper | Blitter | Cpu

  datatype Dmacon = Dmacon(master: bool, blitterPriority: bool, bitplanes: bool, copper: bool, blitter: bool,
                           sprites: bool, disk: bool, audio0: bool, audio1: bool, audio2: bool, audio3: bool)

  type Depth = x: int | 0 <= x < 8
  type Position = x: int | 0 <= x < 256

  /** What the table of a line depends on. */
  datatype LineConfig = LineConfig(dmacon: Dmacon, ddfstrt: Position, ddfstop: Position, depth: Depth, hires: bool,
                                   vstrt: U16)

  // ---------------------------------------------------------- fetch geometry

  /** Words fetched for each plane, from the data-fetch window. */
  function WordsPerPlane(c: LineConfig): (words: nat)
    ensures words <= MAX_PLANE_WORDS
    ensures words == 0 <==> c.depth == 0 || c.depth > 6
  {
    if c.depth == 0 || c.depth > 6 then 0
    else
      var start := if c.hires then c.ddfstrt / 2 * 2 else c.ddfstrt / 4 * 4;
      var stop := c.ddfstop / 2 * 2;
      if stop <= start then (if c.hires then 40 else 20)
      else
        var span := stop - start;
        var words := if c.hires then span / 4 + (if span / 4 % 2 == 1 then 3 else 2) else span / 8 + 1;
        if words > MAX_PLANE_WORDS then MAX_PLANE_WORDS else words
  }

  /** Which words of a plane the data-fetch window asks for, in lores: those whose fetch
      unit, eight clocks a word, begins within it. */
  predicate LoresWindow(c: LineConfig, w: nat) {
    var start, stop := c.ddfstrt - c.ddfstrt % 4, c.ddfstop - c.ddfstop % 2;
    if start < stop then start + 8 * w <= stop else w < 20
  }

  /** In hires: two words every eight clocks, the first pair before the window and the
      last pair begun four clocks after it at the latest. */
  predicate HiresWindow(c: LineConfig, w: nat) {
    var start, stop := c.ddfstrt - c.ddfstrt % 2, c.ddfstop - c.ddfstop % 2;
    if start < stop then w < 64 && start + 8 * (w / 2) <= stop + 4 else w < 40
  }

  /** The word count of the program is that of the window. */
  lemma WordsInWindow(c: LineConfig, w: nat)
    ensures w < WordsPerPlane(c)
       <==> (1 <= c.depth <= 6 && if c.hires then HiresWindow(c, w) else LoresWindow(c, w))
  {
    if 1 <= c.depth <= 6 {
      if c.hires { HiresWords(c, w); } else { LoresWords(c, w); }
    }
  }

  lemma LoresWords(c: LineConfig, w: nat)
    requires 1 <= c.depth <= 6 && !c.hires
    ensures w < WordsPerPlane(c) <==> LoresWindow(c, w)
  {
    Rounded(c.ddfstrt, 4);
    Rounded(c.ddfstop, 2);
  }

  lemma HiresWords(c: LineConfig, w: nat)
    requires 1 <= c.depth <= 6 && c.hires
    ensures w < WordsPerPlane(c) <==> HiresWindow(c, w)
  {
    Rounded(c.ddfstrt, 2);
    Rounded(c.ddfstop, 2);
    var start, stop := c.ddfstrt - c.ddfstrt % 2, c.ddfstop - c.ddfstop % 2;
    if start < stop { HiresPairs((stop - start) / 4, w); }
  }

  lemma Rounded(x: nat, d: nat)
    requires d > 0
    ensures x / d * d == x - x % d
  {
  }

  lemma HiresPairs(q: nat, w: nat)
    ensures w < q + (if q % 2 == 1 then 3 else 2) <==> 2 * (w / 2) <= q + 1
  {
  }

  /** The windows the program's comment gives: 20 words for the standard lores screen, 40,
      40 and 38 for hires ones. */
  lemma StandardWindows(c: LineConfig)
    requires 1 <= c.depth <= 6
    ensures !c.hires && c.ddfstrt == 0x38 && c.ddfstop == 0xD0 ==> WordsPerPlane(c) == 20
    ensures c.hires && c.ddfstrt == 0x3C && c.ddfstop == 0xD0 ==> WordsPerPlane(c) == 40
    ensures c.hires && c.ddfstrt == 0x3C && c.ddfstop == 0xD4 ==> WordsPerPlane(c) == 40
    ensures c.hires && c.ddfstrt == 0x40 && c.ddfstop == 0xD0 ==> WordsPerPlane(c) == 38
  {
  }

  function FetchCount(c: LineConfig): nat {
    WordsPerPlane(c) * c.depth
  }

  /** Offset of a plane's slot in an eight-slot lores fetch unit. */
  function LoresOffset(plane: nat): (o: nat)
    requires plane < 8
    ensures o < 8
  {
    match plane
    case 0 => 7 case 1 => 3 case 2 => 5 case 3 => 1
    case 4 => 6 case 5 => 2 case 6 => 4 case _ => 0
  }

  function LoresPlane(offset: nat): (p: nat)
    requires offset < 8
    ensures p < 8
  {
    match offset
    case 7 => 0 case 3 => 1 case 5 => 2 case 1 => 3
    case 6 => 4 case 2 => 5 case 4 => 6 case _ => 7
  }

  lemma LoresOrderIsPermutation(p: nat)
    requires p < 8
    ensures LoresPlane(LoresOffset(p)) == p && LoresOffset(LoresPlane(p)) == p
  {
  }

  /** Logical word `i` is word `WordOf` of plane `PlaneOf`: the planes take turns. */
  function WordOf(c: LineConfig, i: nat): nat {
    if c.depth == 0 then 0 else i / c.depth
  }

  function PlaneOf(c: LineConfig, i: nat): (p: nat)
    ensures p < 8 && (c.depth > 0 ==> p < c.depth)
  {
    if c.depth == 0 then 0 else i % c.depth
  }

  /** The slot that fetches logical word `i`. */
  function FetchSlot(c: LineConfig, i: nat): nat
  {
    if c.hires then c.ddfstrt + i else c.ddfstrt + 8 * WordOf(c, i) + LoresOffset(PlaneOf(c, i))
  }

  /** Whether the whole fetch lies inside the line. */
  predicate FetchFits(c: LineConfig) {
    FetchCount(c) == 0
    || (if c.hires then c.ddfstrt + FetchCount(c) <= SLOTS else c.ddfstrt + 8 * WordsPerPlane(c) <= SLOTS)
  }

  predicate DisplayLine(c: LineConfig, vpos: nat) {
    vpos > 25 && vpos >= c.vstrt && c.dmacon.master && c.dmacon.bitplanes
  }

  /** The logical word that slot `h` fetches, or `NO_INDEX`. */
  function LogicalAt(c: LineConfig, vpos: nat, h: nat): nat {
    if !DisplayLine(c, vpos) || h < c.ddfstrt || h >= SLOTS || c.depth == 0 then NO_INDEX
    else if c.hires then (if h - c.ddfstrt < FetchCount(c) then h - c.ddfstrt else NO_INDEX)
    else
      var word, plane := (h - c.ddfstrt) / 8, LoresPlane((h - c.ddfstrt) % 8);
      if word < WordsPerPlane(c) && plane < c.depth then word * c.depth + plane else NO_INDEX
  }

  /** The fixed owner of slot `h` when no bitplane word is fetched there. */
  function BaseOwner(d: Dmacon, h: nat): Owner {
    if 0x15 <= h <= 0x33 && h % 2 == 1 && d.master && d.sprites then Sprite((h - 0x15) / 4)
    else if h == 0x0B && d.master && d.audio0 then Audio(0)
    else if h == 0x0D && d.master && d.audio1 then Audio(1)
    else if h == 0x0F && d.master && d.audio2 then Audio(2)
    else if h == 0x11 && d.master && d.audio3 then Audio(3)
    else if (h == 7 || h == 9) && d.master && d.disk then Disk
    else if h == 1 || h == 3 || h == 5 then Refresh
    else Cpu
  }

  /** The fixed owner of slot `h`: bitplanes win over every other channel, and
      what is left is the CPU's, or open to the Copper and blitter under DMA. */
  function StaticOwner(c: LineConfig, vpos: nat, h: nat): Owner {
    var owner := if LogicalAt(c, vpos, h) != NO_INDEX then Bitplane else BaseOwner(c.dmacon, h);
    if owner == Cpu && c.dmacon.master then Free else owner
  }

  lemma BitplaneOwnsFetches(c: LineConfig, vpos: nat, h: nat)
    ensures StaticOwner(c, vpos, h) == Bitplane <==> LogicalAt(c, vpos, h) != NO_INDEX
  {
    hide LogicalAt;
  }

  // ------------------------------------------------ one slot for each word

  lemma CountFits(c: LineConfig)
    ensures FetchCount(c) < NO_INDEX
    ensures FetchCount(c) > 0 ==> 0 < c.depth <= 6
  {
    hide WordsPerPlane;
    SmallProduct(WordsPerPlane(c), c.depth);
  }

  lemma SmallProduct(words: nat, depth: nat)
    requires words <= MAX_PLANE_WORDS && depth < 8
    ensures words * depth < 512
  {
    if depth == 0 {
    } else {
      SmallProduct(words, depth - 1);
      assert words * depth == words * (depth - 1) + words;
    }
  }

  lemma WordOfIndex(c: LineConfig, i: nat)
    requires i < FetchCount(c)
    ensures WordOf(c, i) < WordsPerPlane(c) && PlaneOf(c, i) < c.depth && WordOf(c, i) * c.depth + PlaneOf(c, i) == i
  {
    hide WordsPerPlane;
    var q, words := WordOf(c, i), WordsPerPlane(c);
    assert c.depth > 0;
    assert i == q * c.depth + PlaneOf(c, i);
    assert (q - words) * c.depth == q * c.depth - words * c.depth;
    MultipleBound(q - words, c.depth);
  }

  lemma IndexOfWord(c: LineConfig, w: nat, p: nat)
    requires w < WordsPerPlane(c) && p < c.depth
    ensures w * c.depth + p < FetchCount(c)
    ensures WordOf(c, w * c.depth + p) == w && PlaneOf(c, w * c.depth + p) == p
  {
    hide WordsPerPlane;
    Division(w, c.depth, p);
    var more := WordsPerPlane(c) - w;
    assert WordsPerPlane(c) * c.depth == w * c.depth + more * c.depth;
    MultipleBound(more, c.depth);
  }

  lemma LoresSlot(slot: nat, word: nat, offset: nat)
    requires slot == 8 * word + offset && offset < 8
    ensures slot / 8 == word && slot % 8 == offset
  {
  }

  /** A logical word is fetched at its slot, if that slot is on the line, ... */
  lemma SlotFetches(c: LineConfig, vpos: nat, i: nat)
    requires DisplayLine(c, vpos) && i < FetchCount(c) && FetchSlot(c, i) < SLOTS
    ensures LogicalAt(c, vpos, FetchSlot(c, i)) == i
  {
    hide WordsPerPlane, LoresOffset, LoresPlane, FetchCount, DisplayLine, WordOf, PlaneOf;
    CountFits(c);
    WordOfIndex(c, i);
    if !c.hires {
      LoresOrderIsPermutation(PlaneOf(c, i));
      LoresSlot(FetchSlot(c, i) - c.ddfstrt, WordOf(c, i), LoresOffset(PlaneOf(c, i)));
    }
  }

  /** ... and a slot fetches only the word whose slot it is. */
  lemma FetchedIsSlot(c: LineConfig, vpos: nat, h: nat)
    requires LogicalAt(c, vpos, h) != NO_INDEX
    ensures DisplayLine(c, vpos) && h < SLOTS && LogicalAt(c, vpos, h) < FetchCount(c)
    ensures 0 < c.depth <= 6 && FetchSlot(c, LogicalAt(c, vpos, h)) == h
  {
    hide WordsPerPlane, LoresOffset, LoresPlane, DisplayLine, FetchCount, WordOf, PlaneOf;
    CountFits(c);
    if !c.hires {
      var at := h - c.ddfstrt;
      IndexOfWord(c, at / 8, LoresPlane(at % 8));
      LoresOrderIsPermutation(at % 8);
    }
  }

  /** When the fetch fits in the line, every word has exactly one slot. */
  lemma EachWordHasOneSlot(c: LineConfig, vpos: nat, i: nat, h: nat)
    requires DisplayLine(c, vpos) && FetchFits(c) && i < FetchCount(c) && h < SLOTS
    ensures 0 < c.depth <= 6 && FetchSlot(c, i) < SLOTS
    ensures LogicalAt(c, vpos, h) == i <==> h == FetchSlot(c, i)
  {
    hide WordsPerPlane, LoresOffset, DisplayLine, LogicalAt;
    CountFits(c);
    WordOfIndex(c, i);
    SlotFetches(c, vpos, i);
    if LogicalAt(c, vpos, h) == i {
      FetchedIsSlot(c, vpos, h);
    }
  }

  ghost predicate Fetched(c: LineConfig, vpos: nat, i: nat) {
    exists h: nat :: h < SLOTS && LogicalAt(c, vpos, h) == i
  }

  ghost predicate AllFetched(c: LineConfig, vpos: nat) {
    forall i: nat | i < FetchCount(c) :: Fetched(c, vpos, i)
  }

  /** On a display line all words are fetched exactly when the fetch fits. */
  lemma AllFetchedIffFits(c: LineConfig, vpos: nat)
    requires DisplayLine(c, vpos)
    ensures AllFetched(c, vpos) <==> FetchFits(c)
  {
    hide WordsPerPlane, DisplayLine, LogicalAt, LoresOffset;
    CountFits(c);
    if FetchFits(c) {
      forall i: nat | i < FetchCount(c)
        ensures Fetched(c, vpos, i)
      {
        EachWordHasOneSlot(c, vpos, i, 0);
        EachWordHasOneSlot(c, vpos, i, FetchSlot(c, i));
      }
    } else {
      var last := LastSlotWord(c);
      if Fetched(c, vpos, last) {
        var h: nat :| h < SLOTS && LogicalAt(c, vpos, h) == last;
        FetchedIsSlot(c, vpos, h);
      }
    }
  }

  /** The word with the last slot of all: plane 0 of the last word in lores. */
  lemma LastSlotWord(c: LineConfig) returns (i: nat)
    requires !FetchFits(c)
    ensures i < FetchCount(c) && 0 < c.depth <= 6 && FetchSlot(c, i) >= SLOTS
  {
    hide WordsPerPlane;
    CountFits(c);
    if c.hires {
      i := FetchCount(c) - 1;
    } else {
      i := (WordsPerPlane(c) - 1) * c.depth;
      IndexOfWord(c, WordsPerPlane(c) - 1, 0);
    }
  }

  // --------------------------------------------------- what a line fetches

  /** Whether line `vpos` fetches word `w` of plane `p`. */
  predicate FetchesWord(c: LineConfig, vpos: nat, p: nat, w: nat) {
    DisplayLine(c, vpos) && p < c.depth && w < WordsPerPlane(c) && OnLine(c, w, p)
  }

  /** The clock of word `w` of plane `p`: in hires the planes take turns from DDFSTRT on, in
      lores each has its place in the eight clocks of a word. */
  function ClockOf(c: LineConfig, p: nat, w: nat): nat {
    c.ddfstrt + if c.hires then w * c.depth + p else 8 * w + match p
      case 0 => 7 case 1 => 3 case 2 => 5 case 3 => 1 case 4 => 6 case 5 => 2 case _ => 4
  }

  /** A word of a plane is fetched if and only if bitplane DMA is on, the line is below
      the 26 lines of the blanking and not above DIWSTRT's, the plane is one of the
      depth's, the window asks for the word, and its clock is on the line. */
  lemma WordIsFetched(c: LineConfig, vpos: nat, p: nat, w: nat)
    ensures FetchesWord(c, vpos, p, w)
       <==> (c.dmacon.master && c.dmacon.bitplanes && vpos >= 26 && vpos >= c.vstrt && p < c.depth <= 6
             && (if c.hires then HiresWindow(c, w) else LoresWindow(c, w)) && ClockOf(c, p, w) < 227)
  {
    hide WordsPerPlane, HiresWindow, LoresWindow;
    WordsInWindow(c, w);
    if p < c.depth <= 6 && w < WordsPerPlane(c) {
      hide WordOf, PlaneOf;
      IndexOfWord(c, w, p);
    }
  }

  /** Whether word `w` of some plane has its slot on the line. */
  predicate WordOnLine(c: LineConfig, w: nat) {
    exists p: nat | p < c.depth :: OnLine(c, w, p)
  }

  predicate OnLine(c: LineConfig, w: nat, p: nat) {
    p < c.depth && FetchSlot(c, w * c.depth + p) < SLOTS
  }

  /** Words up to the last one, of the first `n`, that some plane fetches. */
  function WordsOnLine(c: LineConfig, n: nat): (words: nat)
    ensures words <= n
  {
    if n == 0 then 0 else if WordOnLine(c, n - 1) then n else WordsOnLine(c, n - 1)
  }

  /** Words that a display line fetches for its widest plane. */
  function WordsFetched(c: LineConfig): (words: nat)
    ensures words <= WordsPerPlane(c)
  {
    WordsOnLine(c, WordsPerPlane(c))
  }

  lemma {:induction false} LastWordOnLine(c: LineConfig, n: nat)
    ensures var words := WordsOnLine(c, n);
      && (words > 0 ==> WordOnLine(c, words - 1))
      && forall w: nat | words <= w < n :: !WordOnLine(c, w)
  {
    hide WordOnLine;
    if n == 0 {
    } else {
      LastWordOnLine(c, n - 1);
    }
  }

  lemma FetchedIsCounted(c: LineConfig, vpos: nat, p: nat, w: nat)
    requires FetchesWord(c, vpos, p, w)
    ensures w < WordsFetched(c) && OnLine(c, w, p)
  {
    hide WordsPerPlane, FetchSlot, DisplayLine, WordsOnLine;
    LastWordOnLine(c, WordsPerPlane(c));
    assert OnLine(c, w, p) && WordOnLine(c, w);
  }

  /** When the fetch fits in the line every word of every plane is fetched. */
  lemma FittingFetchIsWhole(c: LineConfig, vpos: nat, p: nat, w: nat)
    requires FetchFits(c)
    ensures WordsFetched(c) == WordsPerPlane(c)
    ensures FetchesWord(c, vpos, p, w) <==> DisplayLine(c, vpos) && p < c.depth && w < WordsPerPlane(c)
  {
    hide WordsPerPlane, FetchSlot, DisplayLine;
    if p < c.depth && w < WordsPerPlane(c) { FittingWord(c, p, w); }
    var words := WordsPerPlane(c);
    if words > 0 {
      CountFits(c);
      LastOnLine(c, words);
    }
  }

  lemma FittingWord(c: LineConfig, p: nat, w: nat)
    requires FetchFits(c) && p < c.depth && w < WordsPerPlane(c)
    ensures FetchSlot(c, w * c.depth + p) < SLOTS
  {
    hide WordsPerPlane;
    IndexOfWord(c, w, p);
  }

  lemma LastOnLine(c: LineConfig, words: nat)
    requires FetchFits(c) && words == WordsPerPlane(c) > 0
    ensures WordsOnLine(c, words) == words
  {
    hide WordsPerPlane, FetchSlot;
    assert c.depth > 0 by { Planar(c); }
    FittingWord(c, 0, words - 1);
    assert OnLine(c, words - 1, 0);
  }

  lemma Planar(c: LineConfig)
    requires WordsPerPlane(c) > 0
    ensures 0 < c.depth <= 6
  {
  }
}
