/** The blitter: the frozen command, the channel memory it works on, the two
    execution engines, and the slot-by-slot accounting that publishes results. */
module BlitterEngine {
  import opened BlitterLine
  import opened BlitterStream
  import opened Integers
  import opened Words

  /** The source side of an area blit: channel pointers, shifter history, hold
      register, and the words last seen on each channel. */
  datatype Sources = Sources(
    apt: U32, bpt: U32, cpt: U32,
    previousA: Word, previousB: Word, bhold: Word,
    lastA: Word, lastB: Word, lastC: Word)

  /** The destination side: pointer, zero flag, last word, and the word waiting
      to be written. */
  datatype Destination = Destination(
    dpt: U32, zero: bool, lastD: Word,
    pending: bool, pendingPtr: U32, pendingWord: Word)

  ghost predicate SourcesAt(c: BlitCommand, m: ChipRam, n: nat, y: nat, s: Sources) {
    && s.apt == Pointer(c, c.apt, c.useA, c.amod, n, y)
    && s.bpt == Pointer(c, c.bpt, c.useB, c.bmod, n, y)
    && s.cpt == Pointer(c, c.cpt, c.useC, c.cmod, n, y)
    && s.previousA == (if n == 0 then ZERO else MaskedA(c, m, n - 1))
    && (c.useB ==> s.previousB == if n == 0 then ZERO else FetchedB(c, m, n - 1))
    && s.bhold == (if n == 0 then c.bhold else AlignedB(c, m, n - 1))
    && s.lastA == (if n == 0 then c.adat else FetchedA(c, m, n - 1))
    && s.lastB == (if n == 0 then c.bdat else FetchedB(c, m, n - 1))
    && s.lastC == (if n == 0 then c.cdat else FetchedC(c, m, n - 1))
  }

  /** Word n-1 is in the write register and not yet in memory. */
  ghost predicate DestinationAt(c: BlitCommand, m: ChipRam, n: nat, y: nat, d: Destination) {
    && d.dpt == Pointer(c, c.dpt, c.useD, c.dmod, n, y)
    && d.lastD == (if n == 0 then ZERO else WordD(c, m, n - 1))
    && (d.zero <==> AllZero(c, m, n))
    && d.pending == (c.useD && n > 0)
    && (d.pending ==> d.pendingPtr == PointerD(c, n - 1) && d.pendingWord == WordD(c, m, n - 1))
  }

  lemma PointerNextWord(c: BlitCommand, start: U32, used: bool, modulo: I16, words: nat, rows: nat)
    ensures Pointer(c, start, used, modulo, words + 1, rows)
         == if used then ToU32(Pointer(c, start, used, modulo, words, rows) + (if c.descending then -2 else 2))
            else Pointer(c, start, used, modulo, words, rows)
  {
    hide ToU32;
    if used {
      var distance := 2 * words + rows * modulo;
      ToU32Absorbs(if c.descending then start - distance else start + distance, if c.descending then -2 else 2);
    }
  }

  lemma PointerNextRow(c: BlitCommand, start: U32, used: bool, modulo: I16, words: nat, rows: nat)
    ensures Pointer(c, start, used, modulo, words, rows + 1)
         == ToU32(Pointer(c, start, used, modulo, words, rows) + (if c.descending then 0 - modulo else modulo))
  {
    hide ToU32;
    var distance := (if used then 2 * words else 0) + rows * modulo;
    assert (rows + 1) * modulo == rows * modulo + modulo;
    ToU32Absorbs(if c.descending then start - distance else start + distance,
                 if c.descending then 0 - modulo else modulo);
  }

  datatype ExecState = Idle | Pending | Running

  const NOTHING := BlitterResult(BlitterRegisters(0, 0, 0, 0, ZERO, ZERO, ZERO, ZERO, ZERO), true)

  /** What the batch engine computes for a line of no pixels. */
  function EmptyLineResult(c: BlitCommand): BlitterResult {
    BlitterResult(BlitterRegisters(c.apt, c.bpt, c.cpt, c.dpt, c.adat, c.bdat, c.cdat, ZERO, c.bhold), true)
  }

  function ActiveChannels(c: BlitCommand): (n: nat)
    ensures 1 <= n <= 4
  {
    var n := (if c.useA then 1 else 0) + (if c.useB then 1 else 0) + (if c.useC then 1 else 0)
      + (if c.useD then 1 else 0);
    if n == 0 then 1 else n
  }

  /** Bus slots per word: one a channel, and an idle one when D runs without C. */
  function WordCost(c: BlitCommand): (n: nat)
    ensures 1 <= n <= 4
  {
    ActiveChannels(c) + if c.useD && !c.useC then 1 else 0
  }

  function EstimateCycles(c: BlitCommand, cycleExact: bool): (n: U32)
    ensures n >= 1
  {
    var cycles := match c.mode
                  case Line => if cycleExact then 2 * c.height else c.height
                  case Copy => ToU32(if cycleExact then WordCount(c) * WordCost(c) else WordCount(c));
    if cycles == 0 then 1 else cycles
  }

  class Blitter {
    const chip: array<Word>
    const line: LineUnit
    var cmd: BlitCommand
    var commandValid: bool
    var cycleExact: bool
    var result: BlitterResult
    var regs: BlitterRegisters
    var execState: ExecState
    var busy: bool
    var cyclesRemaining: U32
    var slotsConsumed: U32
    var blitInterrupts: nat

    ghost predicate Valid() {
      chip.Length == CHIP_WORDS
    }

    constructor (chip: array<Word>, cmd: BlitCommand)
      requires chip.Length == CHIP_WORDS
      ensures Valid() && !busy && execState.Idle? && this.chip == chip && fresh(line)
    {
      this.chip, this.cmd, commandValid, cycleExact := chip, cmd, false, false;
      line := new LineUnit();
      result, regs, execState, busy := NOTHING, NOTHING.registers, Idle, false;
      cyclesRemaining, slotsConsumed, blitInterrupts := 0, 0, 0;
    }

    /** One DMA fetch: a disabled channel supplies its latch and stays put. */
    method FetchWord(enabled: bool, ptr: U32, increment: int, latched: Word, last: Word)
      returns (value: Word, next: U32, observed: Word)
      requires Valid()
      ensures value == if enabled then chip[WordIndex(ptr)] else latched
      ensures next == if enabled then ToU32(ptr + increment) else ptr
      ensures observed == if enabled then value else last
    {
      value, next, observed := latched, ptr, last;
      if enabled {
        value := chip[WordIndex(ptr)];
        next := ToU32(ptr + increment);
        observed := value;
      }
    }

    /** The first word of a row goes through AFWM, the last through ALWM. */
    method ApplyMasks(raw: Word, x: nat) returns (adat: Word)
      requires x < cmd.width
      ensures adat == And(raw, Masks(cmd, x))
    {
      hide And;
      AndTwice(raw, cmd.afwm, cmd.alwm);
      AndOnes(raw);
      AndOnes(ONES);
      AndOnes(cmd.afwm);
      AndOnes(cmd.alwm);
      adat := raw;
      if x == 0 { adat := And(adat, cmd.afwm); }
      if x + 1 == cmd.width { adat := And(adat, cmd.alwm); }
    }

    /** The fetches of word n, and the shifters. */
    method FetchSources(s: Sources, x: nat, ghost m: ChipRam, ghost y: nat, ghost n: nat)
      returns (t: Sources, a: Word, b: Word, cdat: Word)
      requires Valid() && x < cmd.width && n == y * cmd.width + x
      requires SourcesAt(cmd, m, n, y, s) && chip[..] == Visible(cmd, m, n)
      ensures a == AlignedA(cmd, m, n) && b == AlignedB(cmd, m, n) && cdat == FetchedC(cmd, m, n)
      ensures SourcesAt(cmd, m, n + 1, y, t)
    {
      hide Shift, Masks, Pointer, WordIndex, MaskedA, AlignedA, Written;
      RowAndColumn(cmd, y, x);
      var c := cmd;
      var increment := if c.descending then -2 else 2;
      var raw, apt, lastA := FetchWord(c.useA, s.apt, increment, c.adat, s.lastA);
      var adat := ApplyMasks(raw, x);
      var bdat, bpt, lastB := FetchWord(c.useB, s.bpt, increment, c.bdat, s.lastB);
      var cpt, lastC;
      cdat, cpt, lastC := FetchWord(c.useC, s.cpt, increment, c.cdat, s.lastC);
      a := Shift(c.descending, s.previousA, adat, c.ashift);
      b := s.bhold;
      t := Sources(apt, bpt, cpt, adat, s.previousB, s.bhold, lastA, lastB, lastC);
      if c.useB {
        b := Shift(c.descending, s.previousB, bdat, c.bshift);
        t := t.(bhold := b, previousB := bdat);
      }
      PointerNextWord(c, c.apt, c.useA, c.amod, n, y);
      PointerNextWord(c, c.bpt, c.useB, c.bmod, n, y);
      PointerNextWord(c, c.cpt, c.useC, c.cmod, n, y);
      Aligned(c, m, n, x, s.previousA, s.previousB, raw, bdat);
    }

    /** One word of an area blit: the fetches of word n, then the write of
        word n-1, then word n into the write register. */
    method CopyWord(s: Sources, d: Destination, carryIn: bool, x: nat, ghost m: ChipRam, ghost y: nat, ghost n: nat)
      returns (t: Sources, e: Destination, carry: bool)
      requires Valid() && x < cmd.width && n == y * cmd.width + x
      requires SourcesAt(cmd, m, n, y, s) && DestinationAt(cmd, m, n, y, d) && carryIn == Carry(cmd, m, n)
      requires chip[..] == Visible(cmd, m, n)
      modifies chip
      ensures SourcesAt(cmd, m, n + 1, y, t) && DestinationAt(cmd, m, n + 1, y, e)
      ensures x + 1 < cmd.width ==> carry == Carry(cmd, m, n + 1)
      ensures chip[..] == Visible(cmd, m, n + 1)
    {
      hide Logic, Fill, FillCarry, Pointer, WordIndex, AlignedA, AlignedB, FetchedC, SourcesAt;
      RowAndColumn(cmd, y, x);
      var c := cmd;
      var a, b, cdat;
      t, a, b, cdat := FetchSources(s, x, m, y, n);
      if d.pending {
        chip[WordIndex(d.pendingPtr)] := d.pendingWord;
      }
      assert chip[..] == Written(c, m, n);
      var word := Logic(c.minterm, a, b, cdat);
      carry := carryIn;
      if !c.fillMode.NoFill? {
        word, carry := FillWord(word, carry, c.fillMode.Inclusive?, c.descending);
      }
      assert word == WordD(c, m, n);
      e := Destination(d.dpt, d.zero && word == ZERO, word, false, d.pendingPtr, d.pendingWord);
      if c.useD {
        e := e.(pending := true, pendingPtr := d.dpt, pendingWord := word,
                dpt := ToU32(d.dpt + if c.descending then -2 else 2));
      }
      PointerNextWord(c, c.dpt, c.useD, c.dmod, n, y);
      if x + 1 < c.width {
        RowAndColumn(c, y, x + 1);
      }
    }

    /** An area blit leaves memory, pointers, latches and zero flag exactly as
        the stream of words prescribes. */
    method ExecuteCopyMode()
      requires Valid()
      modifies this`result, chip
      ensures chip[..] == Written(cmd, old(chip[..]), WordCount(cmd))
      ensures result == CopyResult(cmd, old(chip[..]))
    {
      hide SourcesAt, DestinationAt, Pointer, Carry;
      ghost var m: ChipRam := chip[..];
      var c := cmd;
      var s := Sources(c.apt, c.bpt, c.cpt, ZERO, ZERO, c.bhold, c.adat, c.bdat, c.cdat);
      var d := Destination(c.dpt, true, ZERO, false, 0, ZERO);
      PipelineEmpty(c, m, s, d);
      ghost var n: nat := 0;
      for y := 0 to c.height
        invariant n == y * c.width
        invariant SourcesAt(c, m, n, y, s) && DestinationAt(c, m, n, y, d)
        invariant chip[..] == Visible(c, m, n)
      {
        var carry := c.fillCarryIn;
        if c.width > 0 {
          CarryAtRowStart(c, m, n, y);
        }
        for x := 0 to c.width
          invariant n == y * c.width + x
          invariant SourcesAt(c, m, n, y, s) && DestinationAt(c, m, n, y, d)
          invariant x < c.width ==> carry == Carry(c, m, n)
          invariant chip[..] == Visible(c, m, n)
        {
          s, d, carry := CopyWord(s, d, carry, x, m, y, n);
          n := n + 1;
        }
        s, d := AdvanceLine(s, d, m, y, n);
        assert (y + 1) * c.width == y * c.width + c.width;
      }
      PipelineDrains(c, m, n, s, d);
      if d.pending {
        chip[WordIndex(d.pendingPtr)] := d.pendingWord;
      }
      result := BlitterResult(
        BlitterRegisters(s.apt, s.bpt, s.cpt, d.dpt, s.lastA, s.lastB, s.lastC, d.lastD, s.bhold), d.zero);
    }

    /** The end of a row adds the modulos, or subtracts them when descending. */
    method AdvanceLine(s: Sources, d: Destination, ghost m: ChipRam, ghost y: nat, ghost n: nat)
      returns (t: Sources, e: Destination)
      requires SourcesAt(cmd, m, n, y, s) && DestinationAt(cmd, m, n, y, d)
      ensures SourcesAt(cmd, m, n, y + 1, t) && DestinationAt(cmd, m, n, y + 1, e)
    {
      hide Pointer, WordD, FetchedA, FetchedB, FetchedC, AlignedB, MaskedA;
      var c := cmd;
      if c.descending {
        t := s.(apt := ToU32(s.apt - c.amod), bpt := ToU32(s.bpt - c.bmod), cpt := ToU32(s.cpt - c.cmod));
        e := d.(dpt := ToU32(d.dpt - c.dmod));
      } else {
        t := s.(apt := ToU32(s.apt + c.amod), bpt := ToU32(s.bpt + c.bmod), cpt := ToU32(s.cpt + c.cmod));
        e := d.(dpt := ToU32(d.dpt + c.dmod));
      }
      PointerNextRow(c, c.apt, c.useA, c.amod, n, y);
      PointerNextRow(c, c.bpt, c.useB, c.bmod, n, y);
      PointerNextRow(c, c.cpt, c.useC, c.cmod, n, y);
      PointerNextRow(c, c.dpt, c.useD, c.dmod, n, y);
    }

    /** The position half of the batch engine's loop body: the step taken while
        the error is not negative, ... */
    method BatchMinor(x: Nibble, cpt: U32, dots: U8, ghost s: LineState) returns (x': Nibble, cpt': U32, dots': U8)
      requires s.x == x && s.cpt == cpt && s.dots == dots
      ensures s.(x := x', cpt := cpt', dots := dots') == MinorMove(cmd, s)
    {
      hide ChipAddress;
      var c := cmd;
      x', cpt', dots' := x, cpt, dots;
      if c.octant4 {
        cpt' := ChipAddress(if c.octant2 then cpt - c.cmod else cpt + c.cmod);
        dots' := 0;
      } else if c.octant2 {
        if x == 0 { x', cpt' := 15, ChipAddress(cpt - 2); } else { x' := x - 1; }
      } else {
        if x == 15 { x', cpt' := 0, ChipAddress(cpt + 2); } else { x' := x + 1; }
      }
    }

    /** ... and the step taken every time. */
    method BatchMajor(x: Nibble, cpt: U32, dots: U8, ghost s: LineState) returns (x': Nibble, cpt': U32, dots': U8)
      requires s.x == x && s.cpt == cpt && s.dots == dots
      ensures s.(x := x', cpt := cpt', dots := dots') == MajorMove(cmd, s)
    {
      hide ChipAddress;
      var c := cmd;
      x', cpt', dots' := x, cpt, dots;
      if c.octant4 {
        if c.octant1 {
          if x == 0 { x', cpt' := 15, ChipAddress(cpt - 2); } else { x' := x - 1; }
        } else {
          if x == 15 { x', cpt' := 0, ChipAddress(cpt + 2); } else { x' := x + 1; }
        }
      } else {
        cpt' := ChipAddress(if c.octant1 then cpt - c.cmod else cpt + c.cmod);
        dots' := 0;
      }
    }

    method BatchAdvance(error: I16, x: Nibble, cpt: U32, dots: U8, sign: bool, ghost s: LineState)
      returns (error': I16, x': Nibble, cpt': U32, dots': U8, sign': bool)
      requires s.error == error && s.x == x && s.cpt == cpt && s.dots == dots && s.sign == sign
      ensures s.(error := error', x := x', cpt := cpt', dots := dots', sign := sign') == AdvancePosition(cmd, s)
    {
      hide ToI16, MinorMove, MajorMove;
      error', x', cpt', dots' := error, x, cpt, dots;
      if cmd.useA {
        error' := if sign then ToI16(error + cmd.bmod) else ToI16(error + cmd.amod);
      }
      ghost var t := s.(error := error');
      if !sign {
        x', cpt', dots' := BatchMinor(x', cpt', dots', t);
        t := MinorMove(cmd, t);
      }
      x', cpt', dots' := BatchMajor(x', cpt', dots', t);
      sign' := error' < 0;
    }

    /** The bus half of the batch engine's loop body: read C, combine, write back. */
    method BatchDraw(pattern: Word, x: Nibble, cpt: U32, dots: U8, ghost v: Canvas) returns (cval: Word, dval: Word)
      requires Valid() && v.chip == chip[..]
      requires v.state.pattern == pattern && v.state.x == x && v.state.cpt == cpt && v.state.dots == dots
      modifies chip
      ensures cval == PixelC(cmd, v) && dval == PixelD(cmd, v) && chip[..] == LineStep(cmd, v).chip
    {
      hide Logic, ShiftRight, Bit, And, WordIndex, AdvancePosition, RotateLeftOne;
      var c := cmd;
      cval := if c.useC then chip[WordIndex(cpt)] else c.cdat;
      var ahold := ShiftRight(And(c.adat, c.afwm), x);
      var bhold := if Bit(pattern, 0) then ONES else ZERO;
      dval := Logic(c.minterm, ahold, bhold, cval);
      var writePixel := !c.singleDot || dots == 0;
      if c.useC && writePixel {
        chip[WordIndex(cpt)] := dval;
      }
    }

    /** Line drawing in one go. */
    method ExecuteLineMode()
      requires Valid()
      modifies this`result, chip
      ensures chip[..] == Drawn(cmd, old(chip[..]), cmd.height).chip
      ensures result == if cmd.height > 0 then LineResult(cmd, Drawn(cmd, old(chip[..]), cmd.height).state)
                        else EmptyLineResult(cmd)
    {
      hide PixelC, PixelD, PixelWritten, RotateRight, RotateLeftOne, ChipAddress, ToI16, WordIndex, AdvancePosition;
      ghost var m: ChipRam := chip[..];
      var c := cmd;
      var error: I16 := ToI16(c.apt);
      var x: Nibble, dots: U8 := c.startBit, 0;
      var cpt: U32 := ChipAddress(c.cpt);
      var zero, sign := true, c.initialSign;
      var lastC, lastD := c.cdat, ZERO;
      if c.height == 0 {
        result := BlitterResult(
          BlitterRegisters(c.apt, c.bpt, c.cpt, c.dpt, c.adat, c.bdat, c.cdat, ZERO, c.bhold), true);
        return;
      }
      var pattern := RotateRight(c.bdat, c.bshift);
      for i := 0 to c.height
        invariant Canvas(LineState(error, pattern, cpt, x, dots, lastC, lastD, zero, sign), chip[..]) == Drawn(c, m, i)
      {
        ghost var v := Drawn(c, m, i);
        lastC, lastD := BatchDraw(pattern, x, cpt, dots, v);
        if lastD != ZERO {
          zero := false;
        }
        dots := (dots + 1) % 256;
        ghost var s := LineState(error, pattern, cpt, x, dots, lastC, lastD, zero, sign);
        error, x, cpt, dots, sign := BatchAdvance(error, x, cpt, dots, sign, s);
        pattern := RotateLeftOne(pattern);
      }
      var low := if error < 0 then error + TWO_16 else error;
      result := BlitterResult(
        BlitterRegisters(c.apt - c.apt % TWO_16 + low, c.bpt, cpt, cpt, c.adat, c.bdat, lastC, lastD, c.bhold), zero);
    }

    // --------------------------------------------------- one pixel at a time

    /** The per-slot drawer has drawn the first `n` pixels over memory `m`. */
    ghost predicate Progress(m: ChipRam, n: nat)
      requires Valid()
      reads `cmd, `result, line, chip
    {
      && n <= cmd.height
      && (line.initialized ==> line.stepIndex == n && Canvas(line.State(), chip[..]) == Drawn(cmd, m, n))
      && (!line.initialized ==> n == 0 && chip[..] == m && line.stepIndex == 0)
      && (n > 0 ==> line.initialized && result == LineResult(cmd, line.State()))
    }

    /** The bus half of a pixel: read C, combine, write back. */
    method DrawPixel(ghost v: Canvas) returns (cval: Word, dval: Word)
      requires Valid() && v == Canvas(line.State(), chip[..])
      modifies chip
      ensures cval == PixelC(cmd, v) && dval == PixelD(cmd, v) && chip[..] == LineStep(cmd, v).chip
    {
      hide Logic, ShiftRight, Bit, And, WordIndex, AdvancePosition, RotateLeftOne;
      cval := if cmd.useC then chip[WordIndex(line.cpt)] else cmd.cdat;
      var ahold := ShiftRight(And(cmd.adat, cmd.afwm), line.x);
      var bhold := if Bit(line.pattern, 0) then ONES else ZERO;
      dval := Logic(cmd.minterm, ahold, bhold, cval);
      var writePixel := !cmd.singleDot || line.dots == 0;
      if cmd.useC && writePixel {
        chip[WordIndex(line.cpt)] := dval;
      }
    }

    method LineStepSlot(ghost m: ChipRam, ghost n: nat)
      requires Valid() && Progress(m, n)
      modifies this`result, line, chip
      ensures !cmd.mode.Line? ==> unchanged(this) && unchanged(line) && unchanged(chip)
      ensures cmd.mode.Line? && n < cmd.height ==> Progress(m, n + 1)
      ensures cmd.mode.Line? && n == cmd.height ==> Progress(m, n) && chip[..] == old(chip[..]) && result == old(result)
      ensures cmd.mode.Line? ==>
        line.initialized && line.writeSlotNext == (old(line.initialized) && old(line.writeSlotNext))
    {
      hide PixelC, PixelD, PixelWritten, AfterPixel, Drawn, LineStart, LineResult;
      if !cmd.mode.Line? { return; }
      DrawnStart(cmd, m);
      line.InitFrom(cmd);
      if line.stepIndex >= cmd.height { return; }
      ghost var v := Canvas(line.State(), chip[..]);
      assert v == Drawn(cmd, m, n);
      var cval, dval := DrawPixel(v);
      line.FinishPixel(cmd, cval, dval);
      result := LineResult(cmd, line.State());
      DrawnStep(cmd, m, n);
    }

    // ------------------------------------------------------ slot accounting

    /** `k` slots into a blit over memory `m`: nothing is published yet. */
    ghost predicate Running(m: ChipRam, k: nat)
      reads this, line, chip
    {
      && Valid() && busy && k < SlotsNeeded(cmd, cycleExact)
      && (cmd.mode.Line? ==> Lining(m, k))
      && (cmd.mode.Copy? ==> Copying(m, k))
    }

    ghost predicate Lining(m: ChipRam, k: nat)
      requires Valid()
      reads this, line, chip
    {
      var pixels := PixelsDrawn(cycleExact, k);
      && k < SlotsNeeded(cmd, cycleExact)
      && Progress(m, pixels)
      && (pixels == 0 ==> !line.initialized && result == NOTHING)
      && line.writeSlotNext == (cycleExact && k % 2 == 1)
      && slotsConsumed == k
      && cyclesRemaining == (if k < EstimateCycles(cmd, cycleExact) then EstimateCycles(cmd, cycleExact) - k else 0)
    }

    ghost predicate Copying(m: ChipRam, k: nat)
      requires Valid()
      reads this, chip
    {
      && cyclesRemaining == EstimateCycles(cmd, cycleExact) - k
      && (execState.Pending? ==> k == 0 && chip[..] == m && result == NOTHING)
      && (!execState.Pending? ==>
            commandValid && chip[..] == Written(cmd, m, WordCount(cmd)) && result == CopyResult(cmd, m))
    }

    /** The blit is over: memory, the zero flag and the published registers are final. */
    ghost predicate Finished(m: ChipRam)
      reads this, chip
    {
      && Valid() && !busy && execState.Idle? && cyclesRemaining == 0
      && result == FinalResult(cmd, m) && regs == result.registers
      && chip[..] == FinalMemory(cmd, m)
    }

    /** Whether a started blit will execute. */
    predicate Executable()
      reads `cmd, `commandValid
    {
      cmd.mode.Line? || commandValid
    }

    method StartTiming()
      requires Valid()
      modifies this, line
      ensures cmd == old(cmd) && cycleExact == old(cycleExact) && regs == old(regs)
      ensures commandValid == old(commandValid) && busy
      ensures blitInterrupts == old(blitInterrupts)
      ensures Running(chip[..], 0) && execState.Pending?
    {
      busy, execState, result := true, ExecState.Pending, NOTHING;
      line.Clear();
      slotsConsumed, cyclesRemaining := 0, EstimateCycles(cmd, cycleExact);
    }

    method Finish()
      modifies this`regs, this`busy, this`execState, this`cyclesRemaining, this`blitInterrupts
      ensures regs == result.registers && !busy && execState.Idle? && cyclesRemaining == 0
      ensures blitInterrupts == old(blitInterrupts) + 1
    {
      regs := result.registers;
      busy, execState, cyclesRemaining := false, Idle, 0;
      blitInterrupts := blitInterrupts + 1;
    }

    predicate LineDone()
      reads this, line
    {
      !cmd.mode.Line? || (line.initialized && line.stepIndex >= cmd.height)
    }

    /** The slot that commits pixel `n` and, after the last one, publishes. */
    method CommitSlot(ghost m: ChipRam, ghost n: nat)
      requires Valid() && cmd.mode.Line? && Progress(m, n) && n < Pixels(cmd)
      requires n == 0 ==> !line.initialized && result == NOTHING
      modifies this`regs, this`busy, this`execState, this`cyclesRemaining, this`blitInterrupts, this`result, line, chip
      ensures n + 1 < Pixels(cmd) ==>
        Progress(m, n + 1) && !line.writeSlotNext && busy == old(busy) && regs == old(regs)
        && line.initialized && cyclesRemaining == old(cyclesRemaining) && blitInterrupts == old(blitInterrupts)
      ensures n + 1 == Pixels(cmd) ==>
        Finished(m) && blitInterrupts == old(blitInterrupts) + 1 && LineDone()
    {
      hide Drawn, LineResult, CopyResult, Written;
      line.writeSlotNext := false;
      LineStepSlot(m, n);
      if LineDone() {
        cyclesRemaining := 0;
        Finish();
      }
    }

    method ChargeSlot()
      modifies `slotsConsumed, `cyclesRemaining
      ensures slotsConsumed == ToU32(old(slotsConsumed) + 1)
      ensures cyclesRemaining == if old(cyclesRemaining) > 0 then old(cyclesRemaining) - 1 else 0
    {
      slotsConsumed := ToU32(slotsConsumed + 1);
      if cyclesRemaining > 0 {
        cyclesRemaining := cyclesRemaining - 1;
      }
    }

    method ReadSlot(ghost m: ChipRam, ghost k: nat)
      requires Running(m, k) && cmd.mode.Line? && cycleExact && !line.writeSlotNext
      modifies `slotsConsumed, `cyclesRemaining, line
      ensures Running(m, k + 1)
    {
      hide Drawn, LineResult, Copying, EstimateCycles;
      ChargeSlot();
      line.writeSlotNext := true;
    }

    method WriteSlot(ghost m: ChipRam, ghost k: nat)
      requires Running(m, k) && cmd.mode.Line? && (cycleExact ==> line.writeSlotNext)
      modifies this, line, chip
      ensures cmd == old(cmd) && cycleExact == old(cycleExact) && commandValid == old(commandValid)
      ensures k + 1 < SlotsNeeded(cmd, cycleExact) ==>
        Running(m, k + 1) && regs == old(regs) && blitInterrupts == old(blitInterrupts)
      ensures k + 1 == SlotsNeeded(cmd, cycleExact) ==>
        Finished(m) && blitInterrupts == old(blitInterrupts) + 1 && LineDone() && slotsConsumed == k + 1
    {
      hide Progress, Copying, Finished, EstimateCycles;
      ChargeSlot();
      CommitSlot(m, PixelsDrawn(cycleExact, k));
    }

    /** One granted slot of a line: a read slot, or a slot that commits. */
    method LineSlot(ghost m: ChipRam, ghost k: nat)
      requires Running(m, k) && cmd.mode.Line?
      modifies this, line, chip
      ensures cmd == old(cmd) && cycleExact == old(cycleExact) && commandValid == old(commandValid)
      ensures k + 1 < SlotsNeeded(cmd, cycleExact) ==>
        Running(m, k + 1) && regs == old(regs) && blitInterrupts == old(blitInterrupts)
      ensures k + 1 == SlotsNeeded(cmd, cycleExact) ==>
        Finished(m) && blitInterrupts == old(blitInterrupts) + 1 && LineDone() && slotsConsumed == k + 1
    {
      hide Lining, Copying, Finished;
      if cycleExact && !line.writeSlotNext {
        ReadSlot(m, k);
        assert k + 1 < SlotsNeeded(cmd, cycleExact);
      } else {
        WriteSlot(m, k);
      }
    }

    lemma NotDoneWhileRunning(m: ChipRam, k: nat)
      requires Running(m, k) && cmd.mode.Line?
      ensures !LineDone()
    {
      hide Drawn, LineResult;
    }

    /** `slots` granted bus slots. A blit publishes on exactly the grant that
        reaches `SlotsNeeded`, with one interrupt, and not before. */
    method StepDma(slots: U32, ghost m: ChipRam, ghost k: nat)
      requires Valid() && (busy ==> Running(m, k))
      modifies this, line, chip
      ensures cmd == old(cmd) && cycleExact == old(cycleExact) && commandValid == old(commandValid)
      ensures !old(busy) ==> unchanged(this) && unchanged(line) && unchanged(chip)
      ensures old(busy) && Executable() && k + slots < SlotsNeeded(cmd, cycleExact) ==>
        Running(m, k + slots) && regs == old(regs) && blitInterrupts == old(blitInterrupts)
        && (cmd.mode.Copy? ==> !execState.Pending?)
      ensures old(busy) && Executable() && k + slots >= SlotsNeeded(cmd, cycleExact) ==>
        Finished(m) && blitInterrupts == old(blitInterrupts) + 1
      ensures old(busy) && !Executable() ==>
        !busy && chip[..] == m && regs == old(regs) && blitInterrupts == old(blitInterrupts)
    {
      if !busy { return; }
      if cmd.mode.Line? {
        StepLine(slots, m, k);
      } else {
        StepCopy(slots, m, k);
      }
    }

    method StepLine(slots: U32, ghost m: ChipRam, ghost k: nat)
      requires Running(m, k) && cmd.mode.Line?
      modifies this, line, chip
      ensures cmd == old(cmd) && cycleExact == old(cycleExact) && commandValid == old(commandValid)
      ensures k + slots < SlotsNeeded(cmd, cycleExact) ==>
        Running(m, k + slots) && regs == old(regs) && blitInterrupts == old(blitInterrupts)
      ensures k + slots >= SlotsNeeded(cmd, cycleExact) ==>
        Finished(m) && blitInterrupts == old(blitInterrupts) + 1
    {
      hide Running, Finished, SlotsNeeded;
      ghost var needed := SlotsNeeded(cmd, cycleExact);
      assert k < needed by { RunningBound(m, k); }
      for i := 0 to slots
        invariant cmd == old(cmd) && cycleExact == old(cycleExact) && commandValid == old(commandValid)
          && cmd.mode.Line?
        invariant k + i < needed && Running(m, k + i)
        invariant regs == old(regs) && blitInterrupts == old(blitInterrupts)
      {
        NotDoneWhileRunning(m, k + i);
        if LineDone() { break; }
        LineSlot(m, k + i);
        if k + i + 1 < needed {
          NotDoneWhileRunning(m, k + i + 1);
        }
        if LineDone() { break; }
      }
    }

    lemma RunningBound(m: ChipRam, k: nat)
      requires Running(m, k)
      ensures k < SlotsNeeded(cmd, cycleExact)
    {
    }

    /** The first grant runs the whole copy; the rest count its bus time down. */
    method StepCopy(slots: U32, ghost m: ChipRam, ghost k: nat)
      requires Running(m, k) && cmd.mode.Copy?
      modifies this, chip
      ensures cmd == old(cmd) && cycleExact == old(cycleExact) && commandValid == old(commandValid)
      ensures commandValid && k + slots < SlotsNeeded(cmd, cycleExact) ==>
        Running(m, k + slots) && !execState.Pending? && regs == old(regs) && blitInterrupts == old(blitInterrupts)
      ensures commandValid && k + slots >= SlotsNeeded(cmd, cycleExact) ==>
        Finished(m) && blitInterrupts == old(blitInterrupts) + 1
      ensures !commandValid ==>
        !busy && chip[..] == m && regs == old(regs) && blitInterrupts == old(blitInterrupts)
    {
      hide Written, CopyResult, EstimateCycles, Lining;
      if execState.Pending? {
        var ok := ExecuteReference();
        if !ok {
          busy, execState, cyclesRemaining := false, Idle, 0;
          return;
        }
        execState := ExecState.Running;
      }
      slotsConsumed := ToU32(slotsConsumed + slots);
      if cyclesRemaining > slots {
        cyclesRemaining := cyclesRemaining - slots;
        return;
      }
      cyclesRemaining := 0;
      Finish();
    }

    /** The batch engines behind one door; it refuses until a command is built. */
    method ExecuteReference() returns (ok: bool)
      requires Valid()
      modifies this`result, chip
      ensures ok == commandValid
      ensures !ok ==> unchanged(this) && unchanged(chip)
      ensures ok && cmd.mode.Copy? ==>
        chip[..] == FinalMemory(cmd, old(chip[..])) && result == FinalResult(cmd, old(chip[..]))
      ensures ok && cmd.mode.Line? ==> chip[..] == FinalMemory(cmd, old(chip[..]))
      ensures ok && cmd.mode.Line? ==>
        (result == FinalResult(cmd, old(chip[..])) <==> cmd.height > 0 || EmptyLineResult(cmd) == NOTHING)
    {
      hide Written, CopyResult, Drawn, LineResult;
      ok := commandValid;
      if !ok { return; }
      if cmd.mode.Copy? {
        ExecuteCopyMode();
      } else {
        ExecuteLineMode();
      }
    }

    /** What memory and the zero flag show `k` slots into a blit: a copy runs as a
        whole on its first grant, of however many slots; a line is drawn pixel by pixel. */
    lemma RunningShows(m: ChipRam, k: nat, granted: bool)
      requires Running(m, k) && (cmd.mode.Copy? ==> execState.Pending? == !granted)
      ensures chip[..] == MemoryShown(cmd, cycleExact, m, k, granted)
      ensures result.zero == ZeroShown(cmd, cycleExact, m, k, granted)
    {
      hide Written, CopyResult, Drawn, EstimateCycles;
      DrawnStart(cmd, m);
    }

    /** A whole run: start the command and hand out slots in any portions. Every
        partition of the same number of slots has the same outcome; the registers and
        the interrupt wait for the last of them. */
    method RunWithGrants(grants: seq<U32>)
      requires Valid() && Executable()
      modifies this, line, chip
      ensures Total(grants) < SlotsNeeded(old(cmd), old(cycleExact)) ==>
        && Running(old(chip[..]), Total(grants)) && regs == old(regs) && blitInterrupts == old(blitInterrupts)
        && chip[..] == MemoryShown(cmd, cycleExact, old(chip[..]), Total(grants), grants != [])
        && result.zero == ZeroShown(cmd, cycleExact, old(chip[..]), Total(grants), grants != [])
      ensures Total(grants) >= SlotsNeeded(old(cmd), old(cycleExact)) ==>
        Finished(old(chip[..])) && blitInterrupts == old(blitInterrupts) + 1
      ensures cmd == old(cmd) && cycleExact == old(cycleExact)
    {
      hide Running, Finished, SlotsNeeded, MemoryShown, ZeroShown;
      ghost var m: ChipRam := chip[..];
      StartTiming();
      RunningBound(m, 0);
      ghost var k: nat := 0;
      for i := 0 to |grants|
        invariant cmd == old(cmd) && cycleExact == old(cycleExact) && commandValid == old(commandValid)
          && k == Total(grants[..i])
        invariant k < SlotsNeeded(cmd, cycleExact) ==>
          busy && Running(m, k) && regs == old(regs) && blitInterrupts == old(blitInterrupts)
          && (cmd.mode.Copy? ==> execState.Pending? == (i == 0))
        invariant k >= SlotsNeeded(cmd, cycleExact) ==>
          !busy && Finished(m) && blitInterrupts == old(blitInterrupts) + 1
      {
        assert grants[..i + 1][..i] == grants[..i];
        BusyMeans(m, k);
        StepDma(grants[i], m, k);
        k := k + grants[i];
        BusyMeans(m, k);
      }
      assert grants[..|grants|] == grants;
      if k < SlotsNeeded(cmd, cycleExact) { RunningShows(m, k, grants != []); }
    }

    lemma BusyMeans(m: ChipRam, k: nat)
      ensures Running(m, k) ==> busy
      ensures Finished(m) ==> !busy
    {
    }
  }

  /** The advertised estimate is the true deadline of every blit except the
      two-slot cadence of a line of no pixels. */
  lemma EstimateIsDeadline(c: BlitCommand, cycleExact: bool)
    ensures EstimateCycles(c, cycleExact) == SlotsNeeded(c, cycleExact)
       <==> !(c.mode.Line? && c.height == 0 && cycleExact)
  {
  }

  function Pixels(c: BlitCommand): nat {
    if c.height == 0 then 1 else c.height
  }

  /** Bus slots in terms of the command. A pixel of a line is a read and a write. A word of
      a copy is a slot for A, one for B, and two for D with or without C, or one for C
      alone; a copy of no channels has one slot a word. The count is of thirty-two bits, and
      at least one. */
  lemma SlotsOfBlit(c: BlitCommand, cycleExact: bool)
    ensures c.mode.Line? ==>
      SlotsNeeded(c, cycleExact) == (if cycleExact then 2 else 1) * (if c.height > 0 then c.height else 1)
    ensures c.mode.Copy? ==>
      var word := (if c.useA then 1 else 0) + (if c.useB then 1 else 0) + if c.useD then 2 else if c.useC then 1 else 0;
      var slots := c.width * c.height * if !cycleExact || word == 0 then 1 else word;
      SlotsNeeded(c, cycleExact) == if slots % TWO_32 == 0 then 1 else slots % TWO_32
  {
  }

  /** Pixels committed by the first `k` slots. */
  function PixelsDrawn(cycleExact: bool, k: nat): nat {
    if cycleExact then k / 2 else k
  }

  /** The granted slots after which a blit publishes its registers. */
  function SlotsNeeded(c: BlitCommand, cycleExact: bool): nat {
    match c.mode
    case Copy => EstimateCycles(c, cycleExact)
    case Line => if cycleExact then 2 * Pixels(c) else Pixels(c)
  }

  ghost function FinalResult(c: BlitCommand, m: ChipRam): BlitterResult {
    match c.mode
    case Copy => CopyResult(c, m)
    case Line => if c.height == 0 then NOTHING else LineResult(c, Drawn(c, m, c.height).state)
  }

  function FinalMemory(c: BlitCommand, m: ChipRam): ChipRam {
    match c.mode
    case Copy => Written(c, m, WordCount(c))
    case Line => Drawn(c, m, c.height).chip
  }

  /** Memory after `k` of a blit's slots, `granted` in any portions at all. */
  function MemoryShown(c: BlitCommand, cycleExact: bool, m: ChipRam, k: nat, granted: bool): ChipRam {
    match c.mode
    case Copy => if granted then FinalMemory(c, m) else m
    case Line => Drawn(c, m, PixelsDrawn(cycleExact, k)).chip
  }

  ghost function ZeroShown(c: BlitCommand, cycleExact: bool, m: ChipRam, k: nat, granted: bool): bool {
    match c.mode
    case Copy => !granted || FinalResult(c, m).zero
    case Line => Drawn(c, m, PixelsDrawn(cycleExact, k)).state.zero
  }

  lemma DrawnStart(c: BlitCommand, m: ChipRam)
    ensures Drawn(c, m, 0) == Canvas(LineStart(c), m)
  {
  }

  lemma DrawnStep(c: BlitCommand, m: ChipRam, n: nat)
    ensures Drawn(c, m, n + 1) == LineStep(c, Drawn(c, m, n))
  {
  }

  lemma PipelineEmpty(c: BlitCommand, m: ChipRam, s: Sources, d: Destination)
    requires s == Sources(c.apt, c.bpt, c.cpt, ZERO, ZERO, c.bhold, c.adat, c.bdat, c.cdat)
    requires d == Destination(c.dpt, true, ZERO, false, 0, ZERO)
    ensures SourcesAt(c, m, 0, 0, s) && DestinationAt(c, m, 0, 0, d) && Visible(c, m, 0) == m
  {
  }

  lemma CarryAtRowStart(c: BlitCommand, m: ChipRam, n: nat, y: nat)
    requires n == y * c.width && c.width > 0
    ensures Carry(c, m, n) == c.fillCarryIn
  {
    RowAndColumn(c, y, 0);
  }

  lemma PipelineDrains(c: BlitCommand, m: ChipRam, n: nat, s: Sources, d: Destination)
    requires n == WordCount(c) && SourcesAt(c, m, n, c.height, s) && DestinationAt(c, m, n, c.height, d)
    ensures CopyResult(c, m) == BlitterResult(
      BlitterRegisters(s.apt, s.bpt, s.cpt, d.dpt, s.lastA, s.lastB, s.lastC, d.lastD, s.bhold), d.zero)
    ensures Written(c, m, n) == if d.pending then Visible(c, m, n)[WordIndex(d.pendingPtr) := d.pendingWord]
                                else Visible(c, m, n)
  {
    hide Pointer;
    assert WordCount(c) == c.height * c.width;
  }

  lemma Aligned(c: BlitCommand, m: ChipRam, n: nat, x: nat, previousA: Word, previousB: Word, raw: Word, bdat: Word)
    requires Column(c, n) == x && raw == FetchedA(c, m, n) && bdat == FetchedB(c, m, n)
    requires previousA == (if n == 0 then ZERO else MaskedA(c, m, n - 1))
    requires c.useB ==> previousB == if n == 0 then ZERO else FetchedB(c, m, n - 1)
    ensures MaskedA(c, m, n) == And(raw, Masks(c, x))
    ensures AlignedA(c, m, n) == Shift(c.descending, previousA, And(raw, Masks(c, x)), c.ashift)
    ensures AlignedB(c, m, n) == if c.useB then Shift(c.descending, previousB, bdat, c.bshift) else c.bhold
  {
    hide Shift, Masks, FetchedA, FetchedB;
  }
}
