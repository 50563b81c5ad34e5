/** The slot scheduler: it rebuilds the slot table at the start of a line and
    walks it slot by slot, fetching bitplane words and advancing the pointers. */
module Scheduler {
  import opened Arithmetic
  import opened BlitterStream
  import opened Integers
  import opened SlotTable
  import opened Words

  const PLANES := 6

  /** What the rest of the machine does during one slot: the memory it leaves to
      be read, and its claims on the bus. */
  datatype Bus = Bus(chip: ChipRam, blitterActive: bool, blitterNasty: bool, copperRequest: bool)

  /** Who gets a slot with fixed owner `owner`. */
  function Arbitrate(owner: Owner, bus: Bus): Owner {
    if bus.blitterActive then (if owner == Free || (bus.blitterNasty && owner == Cpu) then Owner.Blitter else owner)
    else if bus.copperRequest && owner == Free then Owner.Copper
    else owner
  }

  /** Whether the CPU may use a slot with this owner. */
  predicate Open(owner: Owner) {
    owner == Cpu || owner == Free
  }

  /** A fixed owner keeps its slot. The blitter takes what is free, and with priority what
      is the CPU's too; the Copper takes what is free while the blitter is idle; the CPU
      has its own slots, and the free ones that neither of them wants. */
  lemma SlotGoesTo(owner: Owner, bus: Bus)
    requires !owner.Copper? && !owner.Blitter?
    ensures owner !in {Free, Cpu} ==> Arbitrate(owner, bus) == owner
    ensures Arbitrate(owner, bus) == Owner.Blitter
       <==> bus.blitterActive && (owner == Free || (owner == Cpu && bus.blitterNasty))
    ensures Arbitrate(owner, bus) == Owner.Copper <==> owner == Free && bus.copperRequest && !bus.blitterActive
    ensures Open(Arbitrate(owner, bus))
       <==> (owner == Cpu && !(bus.blitterActive && bus.blitterNasty))
            || (owner == Free && !bus.blitterActive && !bus.copperRequest)
  {
  }

  class SlotScheduler {
    const table: array<Owner>
    const slotIndex: array<nat>
    const bplpt: array<U32>
    const lineBase: array<U32>
    const planeWords: array2<Word>
    var config: LineConfig
    var fetchPlaneIndex: nat
    var dmaThisLine: bool
    var wordsThisLine: nat
    var lineDepth: nat
    var baseValid: bool
    var planeWordCount: nat

    ghost predicate Valid() {
      && table.Length == SLOTS && slotIndex.Length == SLOTS
      && bplpt.Length == PLANES && lineBase.Length == PLANES && bplpt != lineBase
      && planeWords.Length0 == PLANES && planeWords.Length1 == MAX_PLANE_WORDS
    }

    constructor (config: LineConfig)
      ensures Valid() && this.config == config
      ensures fresh(table) && fresh(slotIndex) && fresh(bplpt) && fresh(lineBase) && fresh(planeWords)
    {
      table, slotIndex := new Owner[SLOTS](_ => Cpu), new nat[SLOTS](_ => NO_INDEX);
      bplpt, lineBase := new U32[PLANES](_ => 0), new U32[PLANES](_ => 0);
      planeWords := new Word[PLANES, MAX_PLANE_WORDS]((_, _) => ZERO);
      this.config := config;
      fetchPlaneIndex, dmaThisLine, wordsThisLine, lineDepth, baseValid, planeWordCount := 0, false, 0, 0, false, 0;
    }

    // ---------------------------------------------------------- the table

    method FillSlot(h: nat, owner: Owner)
      requires Valid()
      modifies table
      ensures forall k: nat | k < SLOTS :: table[k] == if k == h then owner else old(table[k])
    {
      if h < SLOTS { table[h] := owner; }
    }

    method FillBitplaneSlot(h: nat, logical: nat)
      requires Valid()
      modifies table, slotIndex
      ensures forall k: nat | k < SLOTS :: table[k] == if k == h then Bitplane else old(table[k])
      ensures forall k: nat | k < SLOTS :: slotIndex[k] == if k == h then logical else old(slotIndex[k])
    {
      if h < SLOTS {
        table[h] := Bitplane;
        slotIndex[h] := logical;
      }
    }

    method ClearTable()
      requires Valid()
      modifies table, slotIndex
      ensures forall h: nat | h < SLOTS :: slotIndex[h] == NO_INDEX
      ensures forall h: nat | h < SLOTS :: table[h] == if h == 1 || h == 3 || h == 5 then Refresh else Cpu
    {
      for i := 0 to SLOTS
        invariant forall h: nat | h < i :: table[h] == Cpu
      {
        table[i] := Cpu;
      }
      for i := 0 to SLOTS
        invariant forall h: nat | h < SLOTS :: table[h] == Cpu
        invariant forall h: nat | h < i :: slotIndex[h] == NO_INDEX
      {
        slotIndex[i] := NO_INDEX;
      }
      for i := 0 to SLOTS
        invariant forall h: nat | h < SLOTS :: slotIndex[h] == NO_INDEX
        invariant forall h: nat | h < SLOTS ::
          table[h] == if h < i && (h == 1 || h == 3 || h == 5) then Refresh else Cpu
      {
        if i == 1 || i == 3 || i == 5 { FillSlot(i, Refresh); }
      }
    }

    method FillSprite(n: nat)
      requires Valid() && n < 8
      modifies table
      ensures forall h: nat | h < SLOTS ::
        table[h] == if h == 0x15 + 4 * n || h == 0x17 + 4 * n then Sprite(n) else old(table[h])
    {
      FillSlot(0x15 + 4 * n, Sprite(n));
      FillSlot(0x17 + 4 * n, Sprite(n));
    }

    method FillSprites()
      requires Valid()
      modifies table
      ensures forall h: nat | h < SLOTS ::
        table[h] == if 0x15 <= h <= 0x33 && h % 2 == 1 then Sprite((h - 0x15) / 4) else old(table[h])
    {
      FillSprite(0);
      FillSprite(1);
      FillSprite(2);
      FillSprite(3);
      FillSprite(4);
      FillSprite(5);
      FillSprite(6);
      FillSprite(7);
    }

    method FillFixedSlots()
      requires Valid()
      modifies table, slotIndex
      ensures forall h: nat | h < SLOTS :: table[h] == BaseOwner(config.dmacon, h) && slotIndex[h] == NO_INDEX
    {
      var d := config.dmacon;
      ClearTable();
      if d.master && d.disk {
        FillSlot(0x07, Owner.Disk);
        FillSlot(0x09, Owner.Disk);
      }
      if d.master && d.audio0 { FillSlot(0x0B, Audio(0)); }
      if d.master && d.audio1 { FillSlot(0x0D, Audio(1)); }
      if d.master && d.audio2 { FillSlot(0x0F, Audio(2)); }
      if d.master && d.audio3 { FillSlot(0x11, Audio(3)); }
      if d.master && d.sprites { FillSprites(); }
    }

    /** Slots that fetch a logical word below `n` are taken; the rest are not. */
    ghost predicate Taken(vpos: nat, n: nat)
      requires Valid()
      reads this, table, slotIndex
    {
      forall h: nat | h < SLOTS :: TakenAt(vpos, n, h)
    }

    ghost predicate TakenAt(vpos: nat, n: nat, h: nat)
      requires Valid() && h < SLOTS
      reads this, table, slotIndex
    {
      var l := LogicalAt(config, vpos, h);
      && slotIndex[h] == (if l != NO_INDEX && l < n then l else NO_INDEX)
      && table[h] == (if l != NO_INDEX && l < n then Bitplane else BaseOwner(config.dmacon, h))
    }

    method TakeSlot(vpos: nat, n: nat)
      requires Valid() && DisplayLine(config, vpos) && n < FetchCount(config) && 0 < config.depth <= 6
      requires Taken(vpos, n)
      modifies table, slotIndex
      ensures Taken(vpos, n + 1)
    {
      hide LogicalAt, FetchSlot, WordOf, PlaneOf, FetchCount, BaseOwner;
      var s := FetchSlot(config, n);
      FillBitplaneSlot(s, n);
      CountFits(config);
      ghost var next := n + 1;
      forall h: nat | h < SLOTS
        ensures TakenAt(vpos, next, h)
      {
        assert old(TakenAt(vpos, n, h));
        if h == s { SlotFetches(config, vpos, n); }
        if LogicalAt(config, vpos, h) == n { FetchedIsSlot(config, vpos, h); }
      }
    }

    /** The table of a line on which `vpos` is the beam's line. */
    method Rebuild(vpos: nat)
      requires Valid()
      modifies table, slotIndex
      ensures forall h: nat | h < SLOTS ::
        table[h] == StaticOwner(config, vpos, h) && slotIndex[h] == LogicalAt(config, vpos, h)
    {
      hide LogicalAt, FetchSlot, WordOf, PlaneOf, WordsPerPlane, BaseOwner;
      var c := config;
      FillFixedSlots();
      NothingTaken(vpos);
      if DisplayLine(c, vpos) {
        if c.hires {
          FillHires(vpos);
        } else {
          FillLores(vpos);
        }
      }
      AllTaken(vpos);
      for i := 0 to SLOTS
        invariant forall h: nat | h < SLOTS :: slotIndex[h] == LogicalAt(c, vpos, h)
        invariant forall h: nat | h < i :: table[h] == StaticOwner(c, vpos, h)
        invariant forall h: nat | i <= h < SLOTS ::
          table[h] == if LogicalAt(c, vpos, h) != NO_INDEX then Bitplane else BaseOwner(c.dmacon, h)
      {
        if table[i] == Cpu {
          if c.dmacon.master { table[i] := Free; }
        }
      }
    }

    lemma NothingTaken(vpos: nat)
      requires Valid()
      requires forall h: nat | h < SLOTS :: table[h] == BaseOwner(config.dmacon, h) && slotIndex[h] == NO_INDEX
      ensures Taken(vpos, 0)
      ensures !DisplayLine(config, vpos) ==> Taken(vpos, FetchCount(config))
    {
      hide BaseOwner;
    }

    lemma AllTaken(vpos: nat)
      requires Valid() && Taken(vpos, FetchCount(config))
      ensures forall h: nat | h < SLOTS ::
        && slotIndex[h] == LogicalAt(config, vpos, h)
        && table[h] == if LogicalAt(config, vpos, h) != NO_INDEX then Bitplane else BaseOwner(config.dmacon, h)
    {
      hide LogicalAt, BaseOwner;
      forall h: nat | h < SLOTS
        ensures slotIndex[h] == LogicalAt(config, vpos, h)
        ensures table[h] == if LogicalAt(config, vpos, h) != NO_INDEX then Bitplane else BaseOwner(config.dmacon, h)
      {
        assert TakenAt(vpos, FetchCount(config), h);
        if LogicalAt(config, vpos, h) != NO_INDEX { FetchedIsSlot(config, vpos, h); }
      }
    }

    method FillHires(vpos: nat)
      requires Valid() && DisplayLine(config, vpos) && config.hires && Taken(vpos, 0)
      modifies table, slotIndex
      ensures Taken(vpos, FetchCount(config))
    {
      hide LogicalAt, BaseOwner, Taken, DisplayLine;
      CountFits(config);
      var target := WordsPerPlane(config) * config.depth;
      var n := 0;
      var h := config.ddfstrt;
      while h < SLOTS && n < target
        invariant h == config.ddfstrt + n && n <= target == FetchCount(config) && Taken(vpos, n)
        decreases target - n
      {
        TakeSlot(vpos, n);
        n, h := n + 1, h + 1;
      }
      if n < target { OffLine(vpos, n); }
    }

    /** Words whose slots lie past the end of the line take none. */
    lemma OffLine(vpos: nat, n: nat)
      requires Valid() && Taken(vpos, n) && n <= FetchCount(config) && 0 < config.depth <= 6
      requires config.hires && config.ddfstrt + n >= SLOTS
      ensures Taken(vpos, FetchCount(config))
    {
      hide LogicalAt, BaseOwner;
      forall h: nat | h < SLOTS ensures TakenAt(vpos, FetchCount(config), h) {
        assert TakenAt(vpos, n, h);
        if LogicalAt(config, vpos, h) != NO_INDEX { FetchedIsSlot(config, vpos, h); }
      }
    }

    method FillLores(vpos: nat)
      requires Valid() && DisplayLine(config, vpos) && !config.hires && Taken(vpos, 0)
      modifies table, slotIndex
      ensures Taken(vpos, FetchCount(config))
    {
      hide LogicalAt, BaseOwner, Taken, DisplayLine, FetchSlot, WordOf, PlaneOf, WordsPerPlane;
      CountFits(config);
      var words, depth := WordsPerPlane(config), config.depth;
      var n := 0;
      for word := 0 to words
        invariant n == word * depth && Taken(vpos, n)
      {
        for plane := 0 to depth
          invariant n == word * depth + plane && Taken(vpos, n)
        {
          IndexOfWord(config, word, plane);
          TakeSlot(vpos, n);
          n := n + 1;
        }
        assert (word + 1) * depth == word * depth + depth;
      }
    }

    // ----------------------------------------------------------- the fetch

    predicate Planar()
      reads `config
    {
      0 < config.depth <= PLANES
    }

    /** The logical word a bitplane slot fetches: its own, or the next in turn. */
    function LogicalOf(h: nat): nat
      requires Valid()
      reads slotIndex, `fetchPlaneIndex
    {
      if h < SLOTS && slotIndex[h] != NO_INDEX then slotIndex[h] else fetchPlaneIndex
    }

    /** The first bitplane slot of a line latches the plane pointers. */
    method LatchBases()
      requires Valid()
      modifies `lineDepth, `baseValid, lineBase
      ensures baseValid
      ensures old(baseValid) ==> lineDepth == old(lineDepth) && lineBase[..] == old(lineBase[..])
      ensures !old(baseValid) ==> lineDepth == config.depth
      ensures !old(baseValid) ==> forall p: nat | p < PLANES :: lineBase[p] == ChipAddress(bplpt[p])
    {
      if baseValid { return; }
      for p := 0 to PLANES
        invariant forall q: nat | q < p :: lineBase[q] == ChipAddress(bplpt[q])
      {
        lineBase[p] := ChipAddress(bplpt[p]);
      }
      lineDepth, baseValid := config.depth, true;
    }

    function Planes(): (words: map<(nat, nat), Word>)
      requires Valid()
      reads planeWords
      ensures forall p: nat, w: nat | p < PLANES && w < MAX_PLANE_WORDS ::
        (p, w) in words && words[(p, w)] == planeWords[p, w]
    {
      map p: nat, w: nat | p < PLANES && w < MAX_PLANE_WORDS :: (p, w) := planeWords[p, w]
    }

    /** A bitplane slot: one word of chip memory for one plane. */
    method FetchWord(h: nat, chip: ChipRam)
      requires Valid()
      modifies `fetchPlaneIndex, `dmaThisLine, `wordsThisLine, `lineDepth, `baseValid, `planeWordCount, lineBase,
        planeWords
      ensures !(Planar() && WordOf(config, old(LogicalOf(h))) < MAX_PLANE_WORDS) ==>
        unchanged(this) && unchanged(planeWords) && unchanged(lineBase)
      ensures var l := old(LogicalOf(h));
        Planar() && WordOf(config, l) < MAX_PLANE_WORDS ==>
          var p, w := PlaneOf(config, l), WordOf(config, l);
          && baseValid && dmaThisLine && fetchPlaneIndex == l + 1
          && (old(baseValid) ==> lineDepth == old(lineDepth) && lineBase[..] == old(lineBase[..]))
          && (!old(baseValid) ==>
                lineDepth == config.depth && forall q: nat | q < PLANES :: lineBase[q] == ChipAddress(bplpt[q]))
          && wordsThisLine == Max(old(wordsThisLine), w + 1) && planeWordCount == Max(old(planeWordCount), w + 1)
          && Planes() == old(Planes())[(p, w) := chip[WordIndex(lineBase[p] + 2 * w)]]
    {
      hide WordIndex, ChipAddress, WordOf, PlaneOf, Planes;
      var logical := LogicalOf(h);
      var plane, w := PlaneOf(config, logical), WordOf(config, logical);
      if config.depth > 0 && config.depth <= 6 && plane < config.depth && w < MAX_PLANE_WORDS {
        LatchBases();
        StoreWord(plane, w, chip[WordIndex(lineBase[plane] + 2 * w)]);
        dmaThisLine := true;
        planeWordCount := Max(planeWordCount, w + 1);
        wordsThisLine := Max(wordsThisLine, w + 1);
        fetchPlaneIndex := logical + 1;
      }
    }

    method StoreWord(plane: nat, w: nat, word: Word)
      requires Valid() && plane < PLANES && w < MAX_PLANE_WORDS
      modifies planeWords
      ensures Planes() == old(Planes())[(plane, w) := word]
    {
      planeWords[plane, w] := word;
    }

    /** The end of a line that fetched: each pointer moves past its words and by
        its modulo. */
    method EndLine(mod1: I16, mod2: I16)
      requires Valid() && (dmaThisLine ==> lineDepth <= PLANES)
      modifies `fetchPlaneIndex, `dmaThisLine, `wordsThisLine, `lineDepth, `baseValid, bplpt
      ensures fetchPlaneIndex == wordsThisLine == lineDepth == 0 && !dmaThisLine && !baseValid
      ensures forall p: nat | p < PLANES ::
        bplpt[p] == if old(dmaThisLine) && p < old(lineDepth)
          then ChipAddress((if old(baseValid) then ChipAddress(lineBase[p] + 2 * old(wordsThisLine)) else old(bplpt[p]))
                    + Modulo(p, mod1, mod2))
          else old(bplpt[p])
    {
      hide ChipAddress;
      fetchPlaneIndex := 0;
      if dmaThisLine {
        if baseValid { AdvancePointers(lineDepth, wordsThisLine * 2); }
        ApplyModulo(lineDepth, mod1, mod2);
      }
      dmaThisLine, wordsThisLine, lineDepth, baseValid := false, 0, 0, false;
    }

    method AdvancePointers(depth: nat, advance: nat)
      requires Valid() && depth <= PLANES
      modifies bplpt
      ensures forall p: nat | p < PLANES ::
        bplpt[p] == if p < depth then ChipAddress(lineBase[p] + advance) else old(bplpt[p])
    {
      hide ChipAddress;
      for p := 0 to depth
        invariant forall q: nat | q < PLANES ::
          bplpt[q] == if q < p then ChipAddress(lineBase[q] + advance) else old(bplpt[q])
      {
        bplpt[p] := ChipAddress(lineBase[p] + advance);
      }
    }

    /** BPL1MOD is the modulo of planes 1, 3 and 5, which come first, third and fifth;
        BPL2MOD that of the others. */
    method ApplyModulo(depth: nat, mod1: I16, mod2: I16)
      requires Valid()
      modifies bplpt
      ensures forall p: nat | p < PLANES ::
        bplpt[p] == if p < depth then ChipAddress(old(bplpt[p]) + if p in {0, 2, 4} then mod1 else mod2)
                    else old(bplpt[p])
    {
      hide ChipAddress;
      var i := 0;
      while i < depth && i < PLANES
        invariant i <= PLANES
        invariant forall p: nat | p < PLANES ::
          bplpt[p] == if p < i && p < depth then ChipAddress(old(bplpt[p]) + if p in {0, 2, 4} then mod1 else mod2)
                      else old(bplpt[p])
      {
        var mod := if i % 2 == 1 then mod2 else mod1;
        bplpt[i] := ChipAddress(bplpt[i] + mod);
        i := i + 1;
      }
    }

    // ------------------------------------------------------------- a line

    /** `h` slots into line `vpos`: exactly the words whose slots have passed are
        in place, each read from its plane as memory was at its slot. */
    ghost predicate Underway(vpos: nat, bus: seq<Bus>, was: map<(nat, nat), Word>, counted: nat, h: nat)
      requires Valid()
      reads this, planeWords, lineBase, bplpt
    {
      && |bus| >= SLOTS
      && Stored(config, vpos, bus, bplpt[..], was, Planes(), h)
      && CountIs(config, vpos, wordsThisLine, h) && planeWordCount == Max(counted, wordsThisLine)
      && dmaThisLine == baseValid == (wordsThisLine > 0)
      && (baseValid ==>
            lineDepth == config.depth <= PLANES && forall p: nat | p < PLANES :: lineBase[p] == ChipAddress(bplpt[p]))
    }

    method StepSlot(vpos: nat, bus: seq<Bus>, h: nat, ghost was: map<(nat, nat), Word>, ghost counted: nat)
      requires Valid() && h < SLOTS && Underway(vpos, bus, was, counted, h)
      requires table[h] == StaticOwner(config, vpos, h) && slotIndex[h] == LogicalAt(config, vpos, h)
      modifies `fetchPlaneIndex, `dmaThisLine, `wordsThisLine, `lineDepth, `baseValid, `planeWordCount, lineBase,
        planeWords
      ensures Underway(vpos, bus, was, counted, h + 1)
    {
      hide WordsPerPlane, LogicalAt, StaticOwner, ChipAddress, WordIndex, FetchCount, FetchSlot, WordOf, PlaneOf,
        Stored, CountIs;
      BitplaneOwnsFetches(config, vpos, h);
      ghost var before, words, l := Planes(), wordsThisLine, LogicalAt(config, vpos, h);
      var owner := Arbitrate(table[h], bus[h]);
      if owner == Bitplane {
        FetchedIsSlot(config, vpos, h);
        WordOfIndex(config, l);
        FetchWord(h, bus[h].chip);
      }
      StoredNext(config, vpos, bus, bplpt[..], was, before, Planes(), h);
      CountNext(config, vpos, words, wordsThisLine, h);
    }

    /** Between lines nothing is latched. */
    ghost predicate Idle()
      reads this
    {
      fetchPlaneIndex == wordsThisLine == 0 && !dmaThisLine && !baseValid
    }

    /** The slots of line `vpos`, one bus state for each colour clock. A 228th
        clock finds slot 0's owner. */
    method StepSlots(vpos: nat, bus: seq<Bus>)
      requires Valid() && Idle() && |bus| >= SLOTS && (|bus| > SLOTS ==> config.ddfstrt > 0 || !config.hires)
      modifies table, slotIndex, lineBase, planeWords
      modifies `fetchPlaneIndex, `dmaThisLine, `wordsThisLine, `lineDepth, `baseValid, `planeWordCount
      ensures Underway(vpos, bus, old(Planes()), old(planeWordCount), SLOTS)
    {
      hide LogicalAt, StaticOwner, WordsPerPlane, FetchSlot, WordOf, PlaneOf, ChipAddress, Underway;
      ghost var was, counted := Planes(), planeWordCount;
      Rebuild(vpos);
      StartsUnderway(vpos, bus, was, counted);
      var h := 0;
      while h < |bus|
        invariant h <= |bus|
        invariant forall k: nat | k < SLOTS ::
          table[k] == StaticOwner(config, vpos, k) && slotIndex[k] == LogicalAt(config, vpos, k)
        invariant Underway(vpos, bus, was, counted, if h < SLOTS then h else SLOTS)
      {
        if h < SLOTS {
          StepSlot(vpos, bus, h, was, counted);
        } else {
          NoFetchAtZero(config, vpos);
          var owner := Arbitrate(table[0], bus[h]);
          if owner == Bitplane { FetchWord(h, bus[h].chip); }
        }
        h := h + 1;
      }
    }

    lemma StartsUnderway(vpos: nat, bus: seq<Bus>, was: map<(nat, nat), Word>, counted: nat)
      requires Valid() && Idle() && |bus| >= SLOTS && was == Planes() && counted == planeWordCount
      ensures Underway(vpos, bus, was, counted, 0)
    {
      hide LogicalAt, WordsPerPlane, FetchSlot, WordOf, PlaneOf, Source;
    }

    /** A whole line. On a display line every word that has its slot on the line is
        fetched, from where its plane's pointer stood when the line began, and each
        pointer moves past the words fetched and its modulo; on any other line nothing
        moves. */
    method StepLine(vpos: nat, bus: seq<Bus>, mod1: I16, mod2: I16)
      requires Valid() && Idle() && |bus| >= SLOTS && (|bus| > SLOTS ==> config.ddfstrt > 0 || !config.hires)
      modifies table, slotIndex, lineBase, planeWords, bplpt
      modifies `fetchPlaneIndex, `dmaThisLine, `wordsThisLine, `lineDepth, `baseValid, `planeWordCount
      ensures Idle()
      ensures forall p: nat, w: nat | p < PLANES && w < MAX_PLANE_WORDS ::
        planeWords[p, w] ==
          (if FetchesWord(config, vpos, p, w) then Source(config, bus, old(bplpt[p]), p, w) else old(planeWords[p, w]))
      ensures planeWordCount == Max(old(planeWordCount), if DisplayLine(config, vpos) then WordsFetched(config) else 0)
      ensures forall p: nat | p < PLANES ::
        bplpt[p] ==
          (if MovesPlane(config, vpos, p)
            then ChipAddress(ChipAddress(old(bplpt[p])) + Advance(config, Modulo(p, mod1, mod2)))
            else old(bplpt[p]))
    {
      hide LogicalAt, WordsPerPlane, WordsFetched, FetchSlot, WordOf, PlaneOf, ChipAddress, Source, DisplayLine,
        FetchCount, Stored, CountIs, FetchesWord;
      ghost var was, counted := Planes(), planeWordCount;
      StepSlots(vpos, bus);
      ghost var pointers, planes := bplpt[..], Planes();
      AllStored(config, vpos, bus, pointers, was, planes);
      WordsCounted(config, vpos, wordsThisLine);
      EndLine(mod1, mod2);
      forall p: nat | p < PLANES && MovesPlane(config, vpos, p)
        ensures bplpt[p] == ChipAddress(ChipAddress(old(bplpt[p])) + Advance(config, Modulo(p, mod1, mod2)))
      {
        AdvanceIsEven(old(bplpt[p]), 2 * WordsFetched(config), Modulo(p, mod1, mod2));
      }
    }

    /** Consecutive display lines read a bitmap: row `n` of plane `p` lies `n`
        times the line's words and modulo past the plane's first pointer. */
    method StepDisplay(vpos: nat, buses: seq<seq<Bus>>, mod1: I16, mod2: I16) returns (rows: seq<map<(nat, nat), Word>>)
      requires Valid() && Idle() && DisplayLine(config, vpos)
      requires forall n: nat | n < |buses| ::
        |buses[n]| >= SLOTS && (|buses[n]| > SLOTS ==> config.ddfstrt > 0 || !config.hires)
      modifies table, slotIndex, lineBase, planeWords, bplpt
      modifies `fetchPlaneIndex, `dmaThisLine, `wordsThisLine, `lineDepth, `baseValid, `planeWordCount
      ensures Idle() && |rows| == |buses|
      ensures forall p: nat | p < PLANES :: bplpt[p] == PointerAfter(config, old(bplpt[p]), p, mod1, mod2, |buses|)
      ensures forall n: nat | n < |buses| :: RowIs(config, vpos, buses[n], old(bplpt[..]), mod1, mod2, n, rows[n])
    {
      hide WordsPerPlane, WordsFetched, FetchSlot, WordOf, PlaneOf, ChipAddress, Source, FetchCount, Advance, RowIs,
        PointerAfter, FetchesWord, DisplayLine, MovesPlane;
      rows := [];
      ghost var base := bplpt[..];
      NoLines(config, base, mod1, mod2);
      for n := 0 to |buses|
        invariant Idle() && |rows| == n
        invariant forall p: nat | p < PLANES :: bplpt[p] == PointerAfter(config, base[p], p, mod1, mod2, n)
        invariant forall k: nat | k < n :: RowIs(config, vpos, buses[k], base, mod1, mod2, k, rows[k])
      {
        ghost var now := bplpt[..];
        SameLines(config, vpos, n);
        StepLine(vpos + n, buses[n], mod1, mod2);
        var row := Planes();
        ReadsRow(config, vpos, buses[n], now, row);
        rows := rows + [row];
        RowsFollow(config, vpos, buses[n], base, now, mod1, mod2, n, row);
      }
    }

    /** The words a line stored, as the map handed on. */
    lemma ReadsRow(c: LineConfig, vpos: nat, bus: seq<Bus>, now: seq<U32>, row: map<(nat, nat), Word>)
      requires Valid() && |now| == PLANES && |bus| >= SLOTS && row == Planes()
      requires forall p: nat, w: nat | FetchesWord(c, vpos, p, w) :: w < MAX_PLANE_WORDS
      requires forall p: nat, w: nat | p < PLANES && w < MAX_PLANE_WORDS ::
        FetchesWord(c, vpos, p, w) ==> planeWords[p, w] == Source(c, bus, now[p], p, w)
      ensures RowRead(c, vpos, bus, now, row)
    {
      hide FetchesWord, Source;
      forall p: nat, w: nat | p < PLANES && FetchesWord(c, vpos, p, w)
        ensures (p, w) in row && row[(p, w)] == Source(c, bus, now[p], p, w)
      {
        assert row[(p, w)] == planeWords[p, w];
      }
    }

    // ----------------------------------------------------------- look-ahead

    /** Colour clocks to the next slot with a fixed owner, or to the line's end. The
        search must end before the table does. */
    method NextEvent(hpos: nat, lineClocks: nat, dirty: bool) returns (n: nat)
      requires Valid() && hpos < lineClocks
      requires dirty || lineClocks <= SLOTS || hpos + 1 >= lineClocks
        || exists h: nat :: hpos < h < SLOTS && !Open(table[h])
      ensures dirty ==> n == 1
      ensures !dirty ==> 0 < n <= lineClocks - hpos
      ensures !dirty ==> forall k: nat | hpos < k < hpos + n :: k < SLOTS && Open(table[k])
      ensures !dirty && n < lineClocks - hpos ==> hpos + n < SLOTS && !Open(table[hpos + n])
    {
      if dirty { return 1; }
      for h := hpos + 1 to lineClocks
        invariant h <= SLOTS || h == hpos + 1 == lineClocks
        invariant forall k: nat | hpos < k < h :: k < SLOTS && Open(table[k])
      {
        if !Open(table[h]) { return h - hpos; }
      }
      return lineClocks - hpos;
    }

    /** Colour clocks until the CPU next gets the bus, as long as the claims on
        the bus stay as they are. The search must end before the table does. */
    method CpuResumeIn(hpos: nat, lineClocks: nat, dirty: bool, bus: Bus) returns (n: nat)
      requires Valid() && hpos < lineClocks
      requires dirty || lineClocks <= SLOTS || hpos + 1 >= lineClocks
        || exists h: nat :: hpos < h < SLOTS && Open(Arbitrate(table[h], bus))
      ensures dirty ==> n == 1
      ensures !dirty ==> 0 < n <= lineClocks - hpos
      ensures !dirty ==> forall k: nat | hpos < k < hpos + n :: k < SLOTS && !Open(Arbitrate(table[k], bus))
      ensures !dirty && n < lineClocks - hpos ==> hpos + n < SLOTS && Open(Arbitrate(table[hpos + n], bus))
    {
      if dirty { return 1; }
      for h := hpos + 1 to lineClocks
        invariant h <= SLOTS || h == hpos + 1 == lineClocks
        invariant forall k: nat | hpos < k < h :: k < SLOTS && !Open(Arbitrate(table[k], bus))
      {
        var owner := Arbitrate(table[h], bus);
        if Open(owner) { return h - hpos; }
      }
      return lineClocks - hpos;
    }
  }

  /** Whether word `w` of plane `p` has been fetched before slot `h`. */
  ghost predicate Reached(c: LineConfig, vpos: nat, p: nat, w: nat, h: nat) {
    DisplayLine(c, vpos) && p < c.depth && w < WordsPerPlane(c) && FetchSlot(c, w * c.depth + p) < h && h <= SLOTS
  }

  /** Word `w` of a plane that starts at `pointer`, as its slot finds it. */
  ghost function Source(c: LineConfig, bus: seq<Bus>, pointer: U32, p: nat, w: nat): Word
    requires |bus| >= SLOTS
  {
    if 0 < c.depth && FetchSlot(c, w * c.depth + p) < SLOTS
    then bus[FetchSlot(c, w * c.depth + p)].chip[WordIndex(ChipAddress(pointer) + 2 * w)] else ZERO
  }

  lemma ReachedNext(c: LineConfig, vpos: nat, h: nat)
    requires h < SLOTS
    ensures var l := LogicalAt(c, vpos, h);
      forall p: nat, w: nat ::
        Reached(c, vpos, p, w, h + 1) <==>
          Reached(c, vpos, p, w, h) || (l != NO_INDEX && p == PlaneOf(c, l) && w == WordOf(c, l))
  {
    hide WordsPerPlane, LogicalAt, FetchSlot, WordOf, PlaneOf;
    var l := LogicalAt(c, vpos, h);
    if l != NO_INDEX {
      FetchedIsSlot(c, vpos, h);
      WordOfIndex(c, l);
    }
    forall p: nat, w: nat
      ensures Reached(c, vpos, p, w, h + 1) <==>
          Reached(c, vpos, p, w, h) || (l != NO_INDEX && p == PlaneOf(c, l) && w == WordOf(c, l))
    {
      if DisplayLine(c, vpos) && p < c.depth && w < WordsPerPlane(c) {
        IndexOfWord(c, w, p);
        CountFits(c);
        if FetchSlot(c, w * c.depth + p) == h {
          SlotFetches(c, vpos, w * c.depth + p);
        }
      }
    }
  }

  /** The plane words after the slots before `h`: those reached are their plane's. */
  ghost predicate Stored(c: LineConfig, vpos: nat, bus: seq<Bus>, pointers: seq<U32>, was: map<(nat, nat), Word>,
                         now: map<(nat, nat), Word>, h: nat)
    requires |bus| >= SLOTS && |pointers| == PLANES
  {
    forall p: nat, w: nat | p < PLANES && w < MAX_PLANE_WORDS :: StoredAt(c, vpos, bus, pointers, was, now, h, p, w)
  }

  ghost predicate StoredAt(c: LineConfig, vpos: nat, bus: seq<Bus>, pointers: seq<U32>, was: map<(nat, nat), Word>,
                           now: map<(nat, nat), Word>, h: nat, p: nat, w: nat)
    requires |bus| >= SLOTS && |pointers| == PLANES && p < PLANES
  {
    && (p, w) in was && (p, w) in now
    && now[(p, w)] == if Reached(c, vpos, p, w, h) then Source(c, bus, pointers[p], p, w) else was[(p, w)]
  }

  /** Slot `h` stores the one word it fetches, if it fetches one. */
  lemma StoredNext(c: LineConfig, vpos: nat, bus: seq<Bus>, pointers: seq<U32>, was: map<(nat, nat), Word>,
                   before: map<(nat, nat), Word>, after: map<(nat, nat), Word>, h: nat)
    requires |bus| >= SLOTS && |pointers| == PLANES && h < SLOTS && Stored(c, vpos, bus, pointers, was, before, h)
    requires var l := LogicalAt(c, vpos, h);
      if l == NO_INDEX then after == before
      else
        var p, w := PlaneOf(c, l), WordOf(c, l);
        p < PLANES && after == before[(p, w) := bus[h].chip[WordIndex(ChipAddress(pointers[p]) + 2 * w)]]
    ensures Stored(c, vpos, bus, pointers, was, after, h + 1)
  {
    hide WordsPerPlane, LogicalAt, FetchSlot, WordOf, PlaneOf, ChipAddress, WordIndex, Reached, FetchCount;
    ghost var next, l := h + 1, LogicalAt(c, vpos, h);
    ReachedNext(c, vpos, h);
    forall p: nat, w: nat | p < PLANES && w < MAX_PLANE_WORDS
      ensures StoredAt(c, vpos, bus, pointers, was, after, next, p, w)
    {
      assert StoredAt(c, vpos, bus, pointers, was, before, h, p, w);
      assert Reached(c, vpos, p, w, next) <==>
        Reached(c, vpos, p, w, h) || (l != NO_INDEX && p == PlaneOf(c, l) && w == WordOf(c, l));
      if l != NO_INDEX && p == PlaneOf(c, l) && w == WordOf(c, l) {
        FetchedIsSlot(c, vpos, h);
        WordOfIndex(c, l);
      }
    }
  }

  lemma AllStored(c: LineConfig, vpos: nat, bus: seq<Bus>, pointers: seq<U32>, was: map<(nat, nat), Word>,
                  now: map<(nat, nat), Word>)
    requires |bus| >= SLOTS && |pointers| == PLANES && Stored(c, vpos, bus, pointers, was, now, SLOTS)
    ensures forall p: nat, w: nat | p < PLANES && w < MAX_PLANE_WORDS ::
      && (p, w) in was && (p, w) in now
      && now[(p, w)] == if FetchesWord(c, vpos, p, w) then Source(c, bus, pointers[p], p, w) else was[(p, w)]
  {
    hide WordsPerPlane, FetchSlot, WordOf, PlaneOf, Source, DisplayLine;
    forall p: nat, w: nat | p < PLANES && w < MAX_PLANE_WORDS
      ensures (p, w) in was && (p, w) in now
      ensures now[(p, w)] == if FetchesWord(c, vpos, p, w) then Source(c, bus, pointers[p], p, w) else was[(p, w)]
    {
      assert StoredAt(c, vpos, bus, pointers, was, now, SLOTS, p, w);
    }
  }

  /** `count` is one more than the last word reached before slot `h`. */
  ghost predicate CountIs(c: LineConfig, vpos: nat, count: nat, h: nat) {
    && (forall p: nat, w: nat | Reached(c, vpos, p, w, h) :: w < count)
    && (count > 0 ==> WordReached(c, vpos, count - 1, h))
  }

  ghost predicate WordReached(c: LineConfig, vpos: nat, w: nat, h: nat) {
    exists p: nat :: Reached(c, vpos, p, w, h)
  }

  lemma CountNext(c: LineConfig, vpos: nat, before: nat, after: nat, h: nat)
    requires h < SLOTS && CountIs(c, vpos, before, h)
    requires var l := LogicalAt(c, vpos, h);
      after == if l != NO_INDEX then Max(before, WordOf(c, l) + 1) else before
    ensures CountIs(c, vpos, after, h + 1)
  {
    hide WordsPerPlane, LogicalAt, FetchSlot, WordOf, PlaneOf, Reached;
    ghost var next, l := h + 1, LogicalAt(c, vpos, h);
    ReachedNext(c, vpos, h);
    forall p: nat, w: nat | Reached(c, vpos, p, w, next)
      ensures w < after
    {
      assert Reached(c, vpos, p, w, h) || (l != NO_INDEX && w == WordOf(c, l));
    }
    if after > before {
      var w := WordOf(c, l);
      var p := PlaneOf(c, l);
      assert Reached(c, vpos, p, w, next)
        <==> Reached(c, vpos, p, w, h) || (l != NO_INDEX && p == PlaneOf(c, l) && w == WordOf(c, l));
      assert WordReached(c, vpos, w, next);
    } else if before > 0 {
      var w := before - 1;
      var p: nat :| Reached(c, vpos, p, w, h);
      assert Reached(c, vpos, p, w, next);
      assert WordReached(c, vpos, w, next);
    }
  }

  lemma WordsCounted(c: LineConfig, vpos: nat, count: nat)
    requires CountIs(c, vpos, count, SLOTS)
    ensures count == if DisplayLine(c, vpos) then WordsFetched(c) else 0
  {
    hide WordsPerPlane, FetchSlot, WordOf, PlaneOf, DisplayLine, WordsOnLine;
    LastWordOnLine(c, WordsPerPlane(c));
    var words := WordsFetched(c);
    if count > 0 {
      var w := count - 1;
      assert WordReached(c, vpos, w, SLOTS);
      var p: nat :| Reached(c, vpos, p, w, SLOTS);
      assert OnLine(c, w, p) && WordOnLine(c, w);
    }
    if DisplayLine(c, vpos) && words > 0 {
      var w := words - 1;
      var p: nat :| p < c.depth && OnLine(c, w, p);
      assert Reached(c, vpos, p, w, SLOTS);
    }
  }

  /** Whether line `vpos` moves the pointer of plane `p`. */
  predicate MovesPlane(c: LineConfig, vpos: nat, p: nat) {
    DisplayLine(c, vpos) && p < c.depth && WordsFetched(c) > 0
  }

  /** How far a plane pointer moves in a line: the words fetched and the even part
      of its modulo. */
  function Advance(c: LineConfig, mod: I16): int {
    2 * WordsFetched(c) + mod - mod % 2
  }

  /** Word `w` of a plane that starts at `pointer`, `offset` bytes further on. */
  ghost function BitmapWord(c: LineConfig, bus: seq<Bus>, pointer: U32, p: nat, w: nat, offset: int): Word
    requires |bus| >= SLOTS
  {
    if 0 < c.depth && FetchSlot(c, w * c.depth + p) < SLOTS
    then bus[FetchSlot(c, w * c.depth + p)].chip[WordIndex(ChipAddress(pointer) + offset + 2 * w)] else ZERO
  }

  /** The standard screens: a row of 320 lores pixels is 40 bytes and one of 640 hires
      pixels 80, and the modulo comes on top. */
  lemma StandardRows(c: LineConfig, mod: I16)
    requires 1 <= c.depth <= (if c.hires then 4 else 6) && c.ddfstop == 0xD0
    requires c.ddfstrt == if c.hires then 0x3C else 0x38
    ensures FetchFits(c) && WordsFetched(c) == (if c.hires then 40 else 20)
    ensures Advance(c, mod) == (if c.hires then 80 else 40) + mod - mod % 2
  {
    hide WordsPerPlane, WordsFetched;
    StandardWindows(c);
    FittingFetchIsWhole(c, 0, 0, 0);
  }

  function Modulo(p: nat, mod1: I16, mod2: I16): I16 {
    if p % 2 == 1 then mod2 else mod1
  }

  /** A plane's pointer after `n` display lines. */
  function PointerAfter(c: LineConfig, pointer: U32, p: nat, mod1: I16, mod2: I16, n: nat): U32 {
    if n == 0 || p >= c.depth || WordsFetched(c) == 0 then pointer
    else ChipAddress(ChipAddress(pointer) + n * Advance(c, Modulo(p, mod1, mod2)))
  }

  lemma NoLines(c: LineConfig, base: seq<U32>, mod1: I16, mod2: I16)
    ensures forall p: nat | p < |base| :: PointerAfter(c, base[p], p, mod1, mod2, 0) == base[p]
  {
    hide WordsPerPlane, ChipAddress, Advance, Modulo;
  }

  /** Row `n` of the bitmap whose planes start at `base`. */
  ghost predicate RowIs(c: LineConfig, vpos: nat, bus: seq<Bus>, base: seq<U32>, mod1: I16, mod2: I16, n: nat,
                        row: map<(nat, nat), Word>)
    requires |base| == PLANES && |bus| >= SLOTS
  {
    forall p: nat, w: nat | p < PLANES && FetchesWord(c, vpos, p, w) ::
      (p, w) in row && row[(p, w)] == BitmapWord(c, bus, base[p], p, w, n * Advance(c, Modulo(p, mod1, mod2)))
  }

  /** The words of a line whose planes start at `now`. */
  ghost predicate RowRead(c: LineConfig, vpos: nat, bus: seq<Bus>, now: seq<U32>, row: map<(nat, nat), Word>)
    requires |now| == PLANES && |bus| >= SLOTS
  {
    forall p: nat, w: nat | p < PLANES && FetchesWord(c, vpos, p, w) ::
      (p, w) in row && row[(p, w)] == Source(c, bus, now[p], p, w)
  }

  lemma SameLines(c: LineConfig, vpos: nat, n: nat)
    requires DisplayLine(c, vpos)
    ensures forall p: nat, w: nat :: FetchesWord(c, vpos + n, p, w) <==> FetchesWord(c, vpos, p, w)
    ensures forall p: nat :: MovesPlane(c, vpos + n, p) <==> MovesPlane(c, vpos, p)
    ensures forall p: nat, w: nat | FetchesWord(c, vpos, p, w) :: w < MAX_PLANE_WORDS
  {
    hide WordsPerPlane;
  }

  lemma RowsFollow(c: LineConfig, vpos: nat, bus: seq<Bus>, base: seq<U32>, now: seq<U32>, mod1: I16, mod2: I16, n: nat,
                   row: map<(nat, nat), Word>)
    requires |base| == |now| == PLANES && |bus| >= SLOTS && DisplayLine(c, vpos)
    requires forall p: nat | p < PLANES :: now[p] == PointerAfter(c, base[p], p, mod1, mod2, n)
    requires RowRead(c, vpos, bus, now, row)
    ensures RowIs(c, vpos, bus, base, mod1, mod2, n, row)
    ensures forall p: nat | p < PLANES ::
      PointerAfter(c, base[p], p, mod1, mod2, n + 1) ==
        (if MovesPlane(c, vpos, p) then ChipAddress(ChipAddress(now[p]) + Advance(c, Modulo(p, mod1, mod2)))
         else now[p])
  {
    hide WordsPerPlane, DisplayLine, ChipAddress, Source, BitmapWord, Advance, Modulo, PointerAfter, FetchesWord;
    forall p: nat | p < PLANES { RowFollows(c, vpos, bus, base[p], p, mod1, mod2, n); }
  }

  /** One more line moves the pointer once more and reads the next row. */
  lemma RowFollows(c: LineConfig, vpos: nat, bus: seq<Bus>, pointer: U32, p: nat, mod1: I16, mod2: I16, n: nat)
    requires |bus| >= SLOTS && DisplayLine(c, vpos)
    ensures var now, advance := PointerAfter(c, pointer, p, mod1, mod2, n), Advance(c, Modulo(p, mod1, mod2));
      && PointerAfter(c, pointer, p, mod1, mod2, n + 1)
        == (if MovesPlane(c, vpos, p) then ChipAddress(ChipAddress(now) + advance) else now)
      && forall w: nat | FetchesWord(c, vpos, p, w) ::
        Source(c, bus, now, p, w) == BitmapWord(c, bus, pointer, p, w, n * advance)
  {
    hide WordsPerPlane, WordsFetched, FetchSlot, WordOf, PlaneOf, ChipAddress, Advance, WordIndex, Modulo, FetchesWord;
    var now, advance := PointerAfter(c, pointer, p, mod1, mod2, n), Advance(c, Modulo(p, mod1, mod2));
    AdvanceParity(c, Modulo(p, mod1, mod2), n);
    forall w: nat | FetchesWord(c, vpos, p, w)
      ensures p < c.depth && WordsFetched(c) > 0
    {
      FetchedIsCounted(c, vpos, p, w);
    }
    if p < c.depth && WordsFetched(c) > 0 {
      var x := ChipAddress(pointer) + n * advance;
      assert (n + 1) * advance == n * advance + advance;
      EvenSum(ChipAddress(pointer), 0);
      EvenSum(x, 0);
      EvenSum(x, advance);
      forall w: nat | FetchesWord(c, vpos, p, w)
        ensures Source(c, bus, now, p, w) == BitmapWord(c, bus, pointer, p, w, n * advance)
      {
        SameWord(ChipAddress(now) + 2 * w, x + 2 * w) by { EvenSum(x, 2 * w); }
      }
    }
  }

  lemma SameWord(x: int, y: int)
    requires ChipAddress(x) == ChipAddress(y)
    ensures WordIndex(x) == WordIndex(y)
  {
  }

  lemma AdvanceParity(c: LineConfig, mod: I16, n: nat)
    ensures n * Advance(c, mod) % 2 == 0
  {
    hide WordsFetched;
    var half := WordsFetched(c) + mod / 2;
    assert Advance(c, mod) == 2 * half;
    assert n * (2 * half) == n * half * 2 + 0;
    IntDivision(n * half, 2, 0);
  }

  lemma EvenSum(x: int, y: int)
    requires x % 2 == 0
    ensures ChipAddress(ChipAddress(x) + y) == ChipAddress(x + y) == ChipAddress(x + y - y % 2)
  {
    hide ChipAddress;
    EvenValue(x);
    var q, k := x / CHIP_BYTES, (ChipAddress(x) + y) / CHIP_BYTES;
    var z := (ChipAddress(x) + y) % CHIP_BYTES;
    SameParity(ChipAddress(x) / 2, y, k, z);
    ChipAddressIs(q + k, z);
    ChipAddressIs(k, z);
    ChipAddressIs(q + k, z - z % 2);
  }

  lemma SameParity(half: int, y: int, k: int, z: nat)
    requires 2 * half + y == k * CHIP_BYTES + z
    ensures z % 2 == y % 2 && z - z % 2 >= 0 && (z - z % 2) % 2 == 0
  {
    assert z - y == 2 * (half - k * (CHIP_BYTES / 2));
  }

  lemma EvenValue(x: int)
    requires x % 2 == 0
    ensures x == x / CHIP_BYTES * CHIP_BYTES + ChipAddress(x)
  {
    assert x == x / CHIP_BYTES * CHIP_BYTES + x % CHIP_BYTES;
  }

  lemma AdvanceIsEven(pointer: U32, words: nat, mod: I16)
    requires words % 2 == 0
    ensures ChipAddress(ChipAddress(ChipAddress(pointer) + words) + mod)
         == ChipAddress(ChipAddress(pointer) + words + mod - mod % 2)
  {
    hide ChipAddress;
    EvenSum(ChipAddress(pointer) + words, mod);
  }

  lemma NoFetchAtZero(c: LineConfig, vpos: nat)
    requires c.ddfstrt > 0 || !c.hires
    ensures StaticOwner(c, vpos, 0) != Bitplane
  {
  }

  function Max(a: nat, b: nat): nat {
    if a > b then a else b
  }
}
