/** Line drawing: one pixel per step, and where the pixels fall. */
module BlitterLine {
  import opened BlitterStream
  import opened Integers
  import opened Words

  datatype LineState = LineState(
    error: I16, pattern: Word, cpt: U32, x: Nibble, dots: U8,
    lastC: Word, lastD: Word, zero: bool, sign: bool)

  datatype Canvas = Canvas(state: LineState, chip: ChipRam)

  function MovedRight(w: bv16, s: bv5): bv16
    requires s < 16
  {
    w >> s
  }

  function TurnedLeftOne(w: bv16): bv16 {
    (w << 1) | (w >> 15)
  }

  /** `w >> shift | w << (16 - shift)` */
  function RotateRight(w: Word, shift: nat): Word
    requires shift < 16
  {
    Word(ShiftAscending(w.bits, w.bits, shift))
  }

  function RotateLeftOne(w: Word): Word {
    Word(TurnedLeftOne(w.bits))
  }

  function ShiftRight(w: Word, shift: nat): Word
    requires shift < 16
  {
    IndexOrder(shift, 16);
    Word(MovedRight(w.bits, Index(shift)))
  }

  function LineStart(c: BlitCommand): LineState {
    LineState(ToI16(c.apt), RotateRight(c.bdat, c.bshift), ChipAddress(c.cpt), c.startBit, 0,
              c.cdat, ZERO, true, c.initialSign)
  }

  function Right(s: LineState): LineState {
    if s.x == 15 then s.(x := 0, cpt := ChipAddress(s.cpt + 2)) else s.(x := s.x + 1)
  }

  function Left(s: LineState): LineState {
    if s.x == 0 then s.(x := 15, cpt := ChipAddress(s.cpt - 2)) else s.(x := s.x - 1)
  }

  function Vertical(s: LineState, distance: int): LineState {
    s.(cpt := ChipAddress(s.cpt + distance), dots := 0)
  }

  /** The step taken only while the error is not negative. */
  function MinorMove(c: BlitCommand, s: LineState): LineState {
    if c.octant4 then Vertical(s, if c.octant2 then 0 - c.cmod else c.cmod)
    else if c.octant2 then Left(s) else Right(s)
  }

  /** The step taken every time. */
  function MajorMove(c: BlitCommand, s: LineState): LineState {
    if c.octant4 then (if c.octant1 then Left(s) else Right(s))
    else Vertical(s, if c.octant1 then 0 - c.cmod else c.cmod)
  }

  /** The word the pixel's columns combine to, and whether it is written. */
  function PixelC(c: BlitCommand, v: Canvas): Word {
    if c.useC then v.chip[WordIndex(v.state.cpt)] else c.cdat
  }

  function PixelD(c: BlitCommand, v: Canvas): Word {
    Logic(c.minterm, ShiftRight(And(c.adat, c.afwm), v.state.x),
          if Bit(v.state.pattern, 0) then ONES else ZERO, PixelC(c, v))
  }

  predicate PixelWritten(c: BlitCommand, s: LineState) {
    c.useC && (!c.singleDot || s.dots == 0)
  }

  function NextError(c: BlitCommand, error: I16, sign: bool): I16 {
    if c.useA then ToI16(error + if sign then c.bmod else c.amod) else error
  }

  function AdvancePosition(c: BlitCommand, s: LineState): LineState {
    var error := NextError(c, s.error, s.sign);
    var t := s.(error := error);
    MajorMove(c, if s.sign then t else MinorMove(c, t)).(sign := error < 0)
  }

  /** The registers after a pixel that read `cval` and combined to `dval`. */
  function AfterPixel(c: BlitCommand, s: LineState, cval: Word, dval: Word): LineState {
    var t := s.(lastC := cval, lastD := dval, zero := s.zero && dval == ZERO, dots := (s.dots + 1) % 256);
    AdvancePosition(c, t).(pattern := RotateLeftOne(s.pattern))
  }

  function LineStep(c: BlitCommand, v: Canvas): Canvas {
    var d := PixelD(c, v);
    Canvas(AfterPixel(c, v.state, PixelC(c, v), d),
           if PixelWritten(c, v.state) then v.chip[WordIndex(v.state.cpt) := d] else v.chip)
  }

  /** The canvas after `n` pixels. */
  function Drawn(c: BlitCommand, m: ChipRam, n: nat): Canvas {
    if n == 0 then Canvas(LineStart(c), m) else LineStep(c, Drawn(c, m, n - 1))
  }

  /** What a line computes once it has drawn at least one pixel. */
  function LineResult(c: BlitCommand, s: LineState): BlitterResult {
    BlitterResult(
      BlitterRegisters(c.apt / TWO_16 * TWO_16 + s.error % TWO_16, c.bpt, s.cpt, s.cpt,
                       c.adat, c.bdat, s.lastC, s.lastD, c.bhold),
      s.zero)
  }

  /** The registers of the per-slot line drawer. */
  class LineUnit {
    var error: I16
    var pattern: Word
    var cpt: U32
    var stepIndex: U16
    var x: Nibble
    var dots: U8
    var lastC: Word
    var lastD: Word
    var zero: bool
    var sign: bool
    var initialized: bool
    var writeSlotNext: bool

    function State(): LineState
      reads this
    {
      LineState(error, pattern, cpt, x, dots, lastC, lastD, zero, sign)
    }

    constructor ()
      ensures !initialized && stepIndex == 0 && !writeSlotNext
    {
      error, pattern, cpt, stepIndex, x, dots := 0, ZERO, 0, 0, 0, 0;
      lastC, lastD, zero, sign, initialized, writeSlotNext := ZERO, ZERO, false, false, false, false;
    }

    method Clear()
      modifies this
      ensures !initialized && stepIndex == 0 && !writeSlotNext
    {
      error, pattern, cpt, stepIndex, x, dots := 0, ZERO, 0, 0, 0, 0;
      lastC, lastD, zero, sign, initialized, writeSlotNext := ZERO, ZERO, false, false, false, false;
    }

    method InitFrom(c: BlitCommand)
      modifies this
      ensures initialized
      ensures old(initialized) ==> State() == old(State()) && stepIndex == old(stepIndex)
                                   && writeSlotNext == old(writeSlotNext)
      ensures !old(initialized) ==> State() == LineStart(c) && stepIndex == 0 && !writeSlotNext
    {
      hide ChipAddress, ToI16, RotateRight;
      if initialized { return; }
      error := ToI16(c.apt);
      pattern := RotateRight(c.bdat, c.bshift);
      cpt := ChipAddress(c.cpt);
      stepIndex, x, dots := 0, c.startBit, 0;
      lastC, lastD, zero, sign := c.cdat, ZERO, true, c.initialSign;
      writeSlotNext, initialized := false, true;
      assert State() == LineStart(c);
    }

    method IncX()
      modifies `x, `cpt
      ensures State() == Right(old(State()))
    {
      if x == 15 {
        x, cpt := 0, ChipAddress(cpt + 2);
      } else {
        x := x + 1;
      }
    }

    method DecX()
      modifies `x, `cpt
      ensures State() == Left(old(State()))
    {
      if x == 0 {
        x, cpt := 15, ChipAddress(cpt - 2);
      } else {
        x := x - 1;
      }
    }

    method IncY(modulo: I16)
      modifies `cpt, `dots
      ensures State() == Vertical(old(State()), modulo)
    {
      cpt, dots := ChipAddress(cpt + modulo), 0;
    }

    method DecY(modulo: I16)
      modifies `cpt, `dots
      ensures State() == Vertical(old(State()), 0 - modulo)
    {
      cpt, dots := ChipAddress(cpt - modulo), 0;
    }

    method MoveMinor(c: BlitCommand)
      modifies `x, `cpt, `dots
      ensures State() == MinorMove(c, old(State()))
    {
      if c.octant4 {
        if c.octant2 { DecY(c.cmod); } else { IncY(c.cmod); }
      } else {
        if c.octant2 { DecX(); } else { IncX(); }
      }
    }

    method MoveMajor(c: BlitCommand)
      modifies `x, `cpt, `dots
      ensures State() == MajorMove(c, old(State()))
    {
      if c.octant4 {
        if c.octant1 { DecX(); } else { IncX(); }
      } else {
        if c.octant1 { DecY(c.cmod); } else { IncY(c.cmod); }
      }
    }

    /** The error accumulator and the pixel position, one step on; the dot count
        has already been stepped and the pattern has not. */
    method Advance(c: BlitCommand)
      modifies `error, `x, `cpt, `dots, `sign
      ensures State() == AdvancePosition(c, old(State()))
    {
      hide ToI16, MinorMove, MajorMove;
      if c.useA {
        error := if sign then ToI16(error + c.bmod) else ToI16(error + c.amod);
      }
      if !sign {
        MoveMinor(c);
      }
      MoveMajor(c);
      sign := error < 0;
    }

    method FinishPixel(c: BlitCommand, cval: Word, dval: Word)
      requires stepIndex < 0xFFFF
      modifies this
      ensures State() == AfterPixel(c, old(State()), cval, dval)
      ensures stepIndex == old(stepIndex) + 1 && unchanged(`initialized) && unchanged(`writeSlotNext)
    {
      hide RotateLeftOne, AdvancePosition;
      lastC := cval;
      if dval != ZERO { zero := false; }
      lastD := dval;
      stepIndex := stepIndex + 1;
      dots := (dots + 1) % 256;
      Advance(c);
      pattern := RotateLeftOne(pattern);
    }
  }
}
