/** Where a drawn line goes: exact pixel positions in every octant, closeness to
    the ideal line, and the single-dot rule. */
module LineGeometry {
  import opened Arithmetic
  import opened BlitterLine
  import opened BlitterStream
  import opened Integers
  import opened Words

  /** Chip memory as one row of pixels. */
  const PIXELS := 0x100_0000

  function Pixel(s: LineState): nat {
    8 * s.cpt + s.x
  }

  function At(c: BlitCommand, m: ChipRam, n: nat): LineState {
    Drawn(c, m, n).state
  }

  /** Steps among the first `n` that also moved along the minor axis. */
  function MinorMoves(c: BlitCommand, m: ChipRam, n: nat): nat {
    if n == 0 then 0 else MinorMoves(c, m, n - 1) + if At(c, m, n - 1).sign then 0 else 1
  }

  /** The whole words of a modulo: an odd one loses its low bit, downwards. */
  function EvenBytes(distance: int): int {
    distance - distance % 2
  }

  function MajorStride(c: BlitCommand): int {
    if c.octant4 then (if c.octant1 then -1 else 1)
    else 8 * EvenBytes(if c.octant1 then 0 - c.cmod else c.cmod)
  }

  function MinorStride(c: BlitCommand): int {
    if c.octant4 then 8 * EvenBytes(if c.octant2 then 0 - c.cmod else c.cmod)
    else if c.octant2 then -1 else 1
  }

  ghost predicate OnGrid(s: LineState) {
    s.cpt % 2 == 0 && s.cpt < CHIP_BYTES
  }

  /** Twice a number of words is whole memories and an even rest. */
  lemma WordsInMemory(words: int) returns (q: int, r: nat)
    ensures 2 * words == q * CHIP_BYTES + r && r % 2 == 0 && r + 2 <= CHIP_BYTES
  {
    q, r := words / CHIP_WORDS, 2 * (words % CHIP_WORDS);
  }

  lemma PixelsInMemory(q: int, r: nat, x: Nibble)
    requires r + 2 <= CHIP_BYTES
    ensures (8 * (q * CHIP_BYTES + r) + x) % PIXELS == 8 * r + x
  {
    IntDivision(q, PIXELS, 8 * r + x);
  }

  /** Moving by a distance moves eight pixels for every byte of its whole words. */
  lemma AddressMoves(cpt: U32, distance: int, x: Nibble)
    requires cpt % 2 == 0
    ensures 8 * ChipAddress(cpt + distance) + x == (8 * (cpt + EvenBytes(distance)) + x) % PIXELS
  {
    hide ChipAddress;
    var half := cpt / 2 + distance / 2;
    var q, r := WordsInMemory(half);
    assert cpt + EvenBytes(distance) == 2 * half;
    assert cpt + distance == q * CHIP_BYTES + (r + distance % 2);
    ChipAddressIs(q, r + distance % 2);
    PixelsInMemory(q, r, x);
  }

  lemma InMemory(pixel: nat)
    requires pixel < PIXELS
    ensures pixel % PIXELS == pixel
  {
    Division(0, PIXELS, pixel);
  }

  lemma RightMoves(s: LineState)
    requires OnGrid(s)
    ensures OnGrid(Right(s)) && Pixel(Right(s)) == (Pixel(s) + 1) % PIXELS
  {
    hide ChipAddress, EvenBytes;
    if s.x == 15 {
      assert EvenBytes(2) == 2 by { EvenBytesOfTwo(); }
      AddressMoves(s.cpt, 2, 0);
    } else {
      InMemory(Pixel(s) + 1);
    }
  }

  lemma LeftMoves(s: LineState)
    requires OnGrid(s)
    ensures OnGrid(Left(s)) && Pixel(Left(s)) == (Pixel(s) - 1) % PIXELS
  {
    hide ChipAddress, EvenBytes;
    if s.x == 0 {
      assert EvenBytes(-2) == -2 by { EvenBytesOfTwo(); }
      AddressMoves(s.cpt, -2, 15);
    } else {
      InMemory(Pixel(s) - 1);
    }
  }

  lemma EvenBytesOfTwo()
    ensures EvenBytes(2) == 2 && EvenBytes(-2) == -2
  {
  }

  lemma VerticalMoves(s: LineState, distance: int)
    requires OnGrid(s)
    ensures OnGrid(Vertical(s, distance))
    ensures Pixel(Vertical(s, distance)) == (Pixel(s) + 8 * EvenBytes(distance)) % PIXELS
  {
    hide ChipAddress, EvenBytes;
    AddressMoves(s.cpt, distance, s.x);
  }

  lemma MovesAreStrides(c: BlitCommand, s: LineState)
    requires OnGrid(s)
    ensures OnGrid(MajorMove(c, s)) && Pixel(MajorMove(c, s)) == (Pixel(s) + MajorStride(c)) % PIXELS
    ensures OnGrid(MinorMove(c, s)) && Pixel(MinorMove(c, s)) == (Pixel(s) + MinorStride(c)) % PIXELS
  {
    hide Right, Left, Vertical, Pixel, OnGrid, EvenBytes;
    RightMoves(s);
    LeftMoves(s);
    VerticalMoves(s, c.cmod);
    VerticalMoves(s, 0 - c.cmod);
  }

  lemma FirstState(c: BlitCommand, m: ChipRam)
    ensures At(c, m, 0) == LineStart(c)
  {
  }

  lemma StepFields(c: BlitCommand, m: ChipRam, n: nat)
    requires n > 0
    ensures var s, t := At(c, m, n - 1), At(c, m, n);
      && t.error == NextError(c, s.error, s.sign) && t.sign == (t.error < 0)
      && t.dots == (if c.octant4 && s.sign then (s.dots + 1) % 256 else 0)
  {
    hide PixelC, PixelD, PixelWritten, RotateRight, RotateLeftOne, ChipAddress, NextError;
  }

  lemma StepPixel(c: BlitCommand, m: ChipRam, n: nat)
    requires n > 0 && OnGrid(At(c, m, n - 1))
    ensures var s, t := At(c, m, n - 1), At(c, m, n);
      OnGrid(t) && Pixel(t) == ((Pixel(s) + if s.sign then 0 else MinorStride(c)) % PIXELS + MajorStride(c)) % PIXELS
  {
    hide PixelC, PixelD, PixelWritten, RotateLeftOne, ChipAddress, NextError, MinorMove, MajorMove, MajorStride,
      MinorStride;
    var v := Drawn(c, m, n - 1);
    var s := v.state;
    var t := s.(lastC := PixelC(c, v), lastD := PixelD(c, v), zero := s.zero && PixelD(c, v) == ZERO,
                dots := (s.dots + 1) % 256, error := NextError(c, s.error, s.sign));
    MovesAreStrides(c, t);
    MovesAreStrides(c, if s.sign then t else MinorMove(c, t));
  }

  /** Where pixel `n` would lie in a memory without end: `n` major strides, and as
      many minor strides as there were minor moves, from the start. */
  function Position(c: BlitCommand, m: ChipRam, n: nat): int {
    8 * ChipAddress(c.cpt) + c.startBit + n * MajorStride(c) + MinorMoves(c, m, n) * MinorStride(c)
  }

  lemma PositionNext(c: BlitCommand, m: ChipRam, n: nat)
    requires n > 0
    ensures Position(c, m, n)
         == Position(c, m, n - 1) + (if At(c, m, n - 1).sign then 0 else MinorStride(c)) + MajorStride(c)
  {
    hide At, MajorStride, MinorStride, ChipAddress;
    var major, minor, moves := MajorStride(c), MinorStride(c), MinorMoves(c, m, n - 1);
    assert n * major == (n - 1) * major + major;
    assert (moves + 1) * minor == moves * minor + minor;
  }

  /** In every octant, and for every modulo, pixel `n` lies at its position. */
  lemma {:induction false} PixelPosition(c: BlitCommand, m: ChipRam, n: nat)
    ensures OnGrid(At(c, m, n)) && Pixel(At(c, m, n)) == Position(c, m, n) % PIXELS
  {
    hide At, MajorStride, MinorStride, Pixel, OnGrid, ChipAddress, Position;
    if n == 0 {
      FirstPixel(c, m);
    } else {
      PixelPosition(c, m, n - 1);
      StepPixel(c, m, n);
      PositionNext(c, m, n);
      var before := Position(c, m, n - 1);
      var minor := if At(c, m, n - 1).sign then 0 else MinorStride(c);
      RemainderAdds(before, minor, PIXELS);
      RemainderAdds(before + minor, MajorStride(c), PIXELS);
    }
  }

  lemma FirstPixel(c: BlitCommand, m: ChipRam)
    ensures OnGrid(At(c, m, 0)) && Pixel(At(c, m, 0)) == Position(c, m, 0) % PIXELS
  {
    hide ChipAddress, RotateRight, MajorStride, MinorStride;
    assert 0 * MajorStride(c) == 0 && 0 * MinorStride(c) == 0;
    InMemory(8 * ChipAddress(c.cpt) + c.startBit);
  }

  // ------------------------------------------------------------ closeness

  /** The register values the hardware manual prescribes for a line that runs
      `dx` pixels along the major axis and `dy` along the minor one. */
  predicate PreparedFor(c: BlitCommand, dx: nat, dy: nat) {
    && dy <= dx && 0 < dx < 0x2000
    && c.useA && ToI16(c.apt) == 4 * dy - 2 * dx
    && c.bmod == 4 * dy && c.amod == 4 * dy - 4 * dx
    && c.initialSign == (4 * dy - 2 * dx < 0)
  }

  lemma InRange(x: int)
    requires -0x8000 <= x < 0x8000
    ensures ToI16(x) == x
  {
  }

  lemma {:induction false} ErrorTracksLine(c: BlitCommand, m: ChipRam, dx: nat, dy: nat, n: nat)
    requires PreparedFor(c, dx, dy)
    ensures 0 < dx
    ensures At(c, m, n).error == 4 * dy + 4 * (n * dy) - 2 * dx - 4 * (MinorMoves(c, m, n) * dx)
    ensures 4 * dy - 4 * dx <= At(c, m, n).error < 4 * dy
    ensures At(c, m, n).sign == (At(c, m, n).error < 0)
  {
    hide At, RotateRight, ChipAddress, ToI16;
    FirstState(c, m);
    if n == 0 {
    } else {
      ErrorTracksLine(c, m, dx, dy, n - 1);
      StepFields(c, m, n);
      var s := At(c, m, n - 1);
      InRange(s.error + if s.sign then c.bmod else c.amod);
      Products(c, m, dx, dy, n);
    }
  }

  lemma Products(c: BlitCommand, m: ChipRam, dx: nat, dy: nat, n: nat)
    requires n > 0
    ensures n * dy == (n - 1) * dy + dy
    ensures MinorMoves(c, m, n) * dx == MinorMoves(c, m, n - 1) * dx + if At(c, m, n - 1).sign then 0 else dx
  {
    hide At;
  }

  lemma RoundedQuotient(k: nat, d: nat, p: nat)
    requires 2 * p < 2 * (k * d) + d && 2 * (k * d) <= 2 * p + d
    ensures k == (2 * p + d) / (2 * d)
  {
    var r := 2 * p + d - 2 * (k * d);
    assert 2 * p + d == k * (2 * d) + r;
    Division(k, 2 * d, r);
  }

  /** Every pixel is the one nearest the ideal line: after `n` major steps the
      minor offset is `n * dy / dx` rounded to the nearest integer, halves up. */
  lemma LineIsNearest(c: BlitCommand, m: ChipRam, dx: nat, dy: nat, n: nat)
    requires PreparedFor(c, dx, dy)
    ensures MinorMoves(c, m, n) == (2 * (n * dy) + dx) / (2 * dx)
  {
    hide At, MinorMoves, ToI16, PreparedFor;
    ErrorTracksLine(c, m, dx, dy, n);
    NearestByError(MinorMoves(c, m, n), dx, dy, n * dy, At(c, m, n).error);
  }

  lemma NearestByError(k: nat, dx: nat, dy: nat, p: nat, error: int)
    requires 0 < dx && error == 4 * dy + 4 * p - 2 * dx - 4 * (k * dx) && 4 * dy - 4 * dx <= error < 4 * dy
    ensures k == (2 * p + dx) / (2 * dx)
  {
    RoundedQuotient(k, dx, p);
  }

  // ------------------------------------------------------------ single dot

  /** How many horizontal steps ago the line last changed rows. */
  function RunLength(c: BlitCommand, m: ChipRam, n: nat): nat {
    if n == 0 || !c.octant4 || !At(c, m, n - 1).sign then 0 else RunLength(c, m, n - 1) + 1
  }

  lemma {:induction false} DotsCountRun(c: BlitCommand, m: ChipRam, n: nat)
    ensures At(c, m, n).dots == RunLength(c, m, n) % 256
  {
    hide At, RotateRight, ChipAddress;
    FirstState(c, m);
    if n == 0 {
    } else {
      DotsCountRun(c, m, n - 1);
      StepFields(c, m, n);
    }
  }

  /** The pixels single-dot mode plots. */
  lemma DotRule(c: BlitCommand, m: ChipRam, n: nat)
    requires c.useC && c.singleDot
    ensures PixelWritten(c, At(c, m, n)) <==> RunLength(c, m, n) % 256 == 0
  {
    hide At, RunLength;
    DotsCountRun(c, m, n);
  }

  /** A run of `k` steps or more is `k` steps without a minor move. */
  lemma {:induction false} RunIsRow(c: BlitCommand, m: ChipRam, n: nat, k: nat)
    requires c.octant4 && k <= n
    ensures MinorMoves(c, m, n - k) <= MinorMoves(c, m, n)
    ensures RunLength(c, m, n) >= k <==> MinorMoves(c, m, n) == MinorMoves(c, m, n - k)
    decreases k
  {
    hide At;
    if k == 0 {
    } else {
      RunIsRow(c, m, n - 1, k - 1);
    }
  }

  lemma {:induction false} RunFits(c: BlitCommand, m: ChipRam, n: nat)
    ensures RunLength(c, m, n) <= n
  {
    hide At;
    if n == 0 {
    } else {
      RunFits(c, m, n - 1);
    }
  }

  /** The row of pixel `n` of a prepared line, counted from the first pixel's. */
  function PixelRow(dx: nat, dy: nat, n: nat): nat
    requires 0 < dx
  {
    (2 * (n * dy) + dx) / (2 * dx)
  }

  /** Whether pixel `n` is the first of its row. */
  ghost predicate FirstOfRow(dx: nat, dy: nat, n: nat)
    requires 0 < dx
  {
    n == 0 || PixelRow(dx, dy, n - 1) < PixelRow(dx, dy, n)
  }

  lemma DottedWhen(c: BlitCommand, m: ChipRam, dx: nat, dy: nat, n: nat)
    requires PreparedFor(c, dx, dy) && c.octant4
    ensures RunLength(c, m, n) == 0 <==> FirstOfRow(dx, dy, n)
    ensures RunLength(c, m, n) >= 256 <==> n >= 256 && PixelRow(dx, dy, n - 256) == PixelRow(dx, dy, n)
  {
    hide At, MinorMoves, RunLength, ToI16;
    LineIsNearest(c, m, dx, dy, n);
    RunFits(c, m, n);
    if n >= 1 {
      LineIsNearest(c, m, dx, dy, n - 1);
      RunIsRow(c, m, n, 1);
    }
    if n >= 256 {
      LineIsNearest(c, m, dx, dy, n - 256);
      RunIsRow(c, m, n, 256);
    }
  }

  /** Single-dot mode plots exactly the first pixel of every row of a prepared line
      of `height` pixels if and only if no 257 pixels of it share a row: the counter
      is one byte wide, and dots again after 256. */
  lemma SingleDotRule(c: BlitCommand, m: ChipRam, dx: nat, dy: nat, height: nat)
    requires c.useC && c.singleDot && c.octant4 && PreparedFor(c, dx, dy)
    ensures (forall n: nat | n < height :: PixelWritten(c, At(c, m, n)) <==> FirstOfRow(dx, dy, n))
       <==> (forall n: nat | 256 <= n < height :: PixelRow(dx, dy, n - 256) < PixelRow(dx, dy, n))
  {
    hide At, RunLength, PreparedFor, PixelRow, FirstOfRow, PixelWritten;
    assert 0 < dx by { ErrorTracksLine(c, m, dx, dy, 0); }
    forall n: nat
      ensures PixelWritten(c, At(c, m, n)) <==> RunLength(c, m, n) % 256 == 0
      ensures RunLength(c, m, n) == 0 <==> FirstOfRow(dx, dy, n)
    {
      DotRule(c, m, n);
      DottedWhen(c, m, dx, dy, n);
    }
    if forall n: nat | 256 <= n < height :: PixelRow(dx, dy, n - 256) < PixelRow(dx, dy, n) {
      forall n: nat | n < height
        ensures PixelWritten(c, At(c, m, n)) <==> FirstOfRow(dx, dy, n)
      {
        DottedWhen(c, m, dx, dy, n);
      }
    } else {
      var n: nat :| 256 <= n < height && !(PixelRow(dx, dy, n - 256) < PixelRow(dx, dy, n));
      RowsAscend(c, m, dx, dy, n);
      DottedWhen(c, m, dx, dy, n);
      var k := SecondDot(c, m, n);
      assert PixelWritten(c, At(c, m, k)) && !FirstOfRow(dx, dy, k);
    }
  }

  lemma RowsAscend(c: BlitCommand, m: ChipRam, dx: nat, dy: nat, n: nat)
    requires PreparedFor(c, dx, dy) && c.octant4 && n >= 256
    ensures PixelRow(dx, dy, n - 256) <= PixelRow(dx, dy, n)
  {
    hide At, MinorMoves, RunLength, ToI16;
    LineIsNearest(c, m, dx, dy, n);
    LineIsNearest(c, m, dx, dy, n - 256);
    RunIsRow(c, m, n, 256);
  }

  /** A run that passes 256 was 256 long at some pixel. */
  lemma {:induction false} SecondDot(c: BlitCommand, m: ChipRam, n: nat) returns (k: nat)
    requires RunLength(c, m, n) >= 256
    ensures k <= n && RunLength(c, m, k) == 256
  {
    hide At;
    if RunLength(c, m, n) == 256 {
      k := n;
    } else {
      k := SecondDot(c, m, n - 1);
    }
  }

  /** In 256 steps the error of a steep line leaves its range, so a row ends. */
  lemma SteepRun(c: BlitCommand, m: ChipRam, dx: nat, dy: nat, n: nat)
    requires PreparedFor(c, dx, dy) && c.octant4 && dx <= 256 * dy
    ensures RunLength(c, m, n) < 256
  {
    hide At, RunLength, MinorMoves, PreparedFor;
    RunFits(c, m, n);
    if n >= 256 {
      RunIsRow(c, m, n, 256);
      ErrorTracksLine(c, m, dx, dy, n);
      ErrorTracksLine(c, m, dx, dy, n - 256);
      assert n * dy == (n - 256) * dy + 256 * dy;
    }
  }

  /** While all runs are short every 256 steps hold a minor move. */
  lemma {:induction false} ShortRuns(c: BlitCommand, m: ChipRam, n: nat)
    requires c.octant4 && forall k: nat | k <= n :: RunLength(c, m, k) < 256
    ensures n <= 256 * MinorMoves(c, m, n) + RunLength(c, m, n)
  {
    hide At;
    if n == 0 {
    } else {
      ShortRuns(c, m, n - 1);
      assert RunLength(c, m, n - 1) < 256;
    }
  }

  /** A flat line has a long run: it has too few minor moves to divide it. */
  lemma LongRun(c: BlitCommand, m: ChipRam, dx: nat, dy: nat) returns (n: nat)
    requires PreparedFor(c, dx, dy) && c.octant4 && dx > 256 * dy
    ensures RunLength(c, m, n) >= 256
  {
    hide At, RunLength, MinorMoves, PreparedFor;
    var far := 384 * dx;
    if forall k: nat | k <= far :: RunLength(c, m, k) < 256 {
      ShortRuns(c, m, far);
      ErrorTracksLine(c, m, dx, dy, far);
      TooFew(dx, dy, MinorMoves(c, m, far));
      assert false;
    }
    n :| n <= far && RunLength(c, m, n) >= 256;
  }

  lemma TooFew(dx: nat, dy: nat, moves: nat)
    requires 0 < dx && dx > 256 * dy
    requires 4 * dy - 4 * dx <= 4 * dy + 4 * (384 * dx * dy) - 2 * dx - 4 * (moves * dx)
    ensures 384 * dx > 256 * moves + 255
  {
    var more := moves - 384 * dy;
    assert moves * dx == more * dx + 384 * dx * dy;
    MultipleBound(more, dx);
  }

  /** However long the line, single-dot mode plots exactly the first pixel of every
      row if and only if the line moves a row at least once in 256 pixels. */
  lemma OneDotARow(c: BlitCommand, m: ChipRam, dx: nat, dy: nat)
    requires c.useC && c.singleDot && c.octant4 && PreparedFor(c, dx, dy)
    ensures (forall n: nat :: PixelWritten(c, At(c, m, n)) <==> FirstOfRow(dx, dy, n)) <==> dx <= 256 * dy
  {
    hide At, RunLength, PreparedFor, PixelRow, FirstOfRow, PixelWritten;
    assert 0 < dx by { ErrorTracksLine(c, m, dx, dy, 0); }
    if dx <= 256 * dy {
      forall n: nat
        ensures PixelWritten(c, At(c, m, n)) <==> FirstOfRow(dx, dy, n)
      {
        DotRule(c, m, n);
        DottedWhen(c, m, dx, dy, n);
        SteepRun(c, m, dx, dy, n);
      }
    } else {
      var n := LongRun(c, m, dx, dy);
      var k := SecondDot(c, m, n);
      DotRule(c, m, k);
      DottedWhen(c, m, dx, dy, k);
      assert PixelWritten(c, At(c, m, k)) && !FirstOfRow(dx, dy, k);
    }
  }

  /** A line 600 pixels to the right and one down. */
  const FLAT_LINE := BlitCommand(
    64340, 0, 0, 0, -2396, 4, 40, 0, Word(0x8000), ONES, ZERO, ONES, ONES, ONES, 2, 601, 0x4A, 0, 0,
    true, false, true, true, false, false, true, false, false, 0, true, true, Mode.Line, NoFill)

  /** Its pixels 0 and 256 are both plotted, and both lie on its first row. */
  lemma DottedTwice(m: ChipRam)
    ensures var c := FLAT_LINE;
      && PreparedFor(c, 600, 1) && c.useC && c.singleDot && c.octant4 && 256 < c.height
      && PixelRow(600, 1, 0) == PixelRow(600, 1, 256)
      && PixelWritten(c, At(c, m, 0)) && PixelWritten(c, At(c, m, 256))
  {
    hide At, RunLength, PixelWritten;
    var c := FLAT_LINE;
    DottedWhen(c, m, 600, 1, 0);
    DottedWhen(c, m, 600, 1, 256);
    RunFits(c, m, 256);
    DotRule(c, m, 0);
    DotRule(c, m, 256);
  }
}
