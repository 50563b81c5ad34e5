/** What a drawn line does to memory, bit by bit. */
module LinePixels {
  import opened Arithmetic
  import opened BlitterLine
  import opened BlitterStream
  import opened Integers
  import opened LineGeometry
  import opened Words

  // ------------------------------------------------------- shifts of a word

  lemma MovedRightAt(w: bv16, s: bv5, i: bv5, j: bv5)
    requires s < 16 && i < 16 && j == i + s
    ensures BitAt(MovedRight(w, s), i) == (j < 16 && BitAt(w, j))
  {
  }

  lemma TurnedLeftOneAt(w: bv16, i: bv5)
    requires i < 16
    ensures BitAt(TurnedLeftOne(w), i) == if i == 0 then BitAt(w, 15) else BitAt(w, i - 1)
  {
  }

  lemma ShiftRightBit(w: Word, shift: nat, i: nat)
    requires shift < 16 && i < 16
    ensures Bit(ShiftRight(w, shift), i) == (i + shift < 16 && Bit(w, i + shift))
  {
    hide BitAt, Index, MovedRight;
    IndexOrder(shift, 16);
    IndexOrder(i, 16);
    IndexAdd(i, shift);
    MovedRightAt(w.bits, Index(shift), Index(i), Index(i + shift));
    if i + shift < 16 {
      IndexOrder(i + shift, 16);
    } else {
      IndexSixteenMore(i + shift - 16);
    }
  }

  lemma RotateRightBit(w: Word, shift: nat, i: nat)
    requires shift < 16 && i < 16
    ensures Bit(RotateRight(w, shift), i) == Bit(w, (i + shift) % 16)
  {
    hide Bit, ShiftAscending;
    ShiftAscendingBit(w.bits, w.bits, shift, i);
  }

  lemma RotateLeftOneBit(w: Word, i: nat)
    requires i < 16
    ensures Bit(RotateLeftOne(w), i) == Bit(w, (i + 15) % 16)
  {
    hide BitAt, TurnedLeftOne;
    IndexTable();
    hide Index;
    IndexOrder(i, 16);
    TurnedLeftOneAt(w.bits, Index(i));
    if i > 0 {
      IndexOrder(0, i);
      IndexAdd(i - 1, 1);
      IndexOrder(i - 1, 16);
    }
  }

  // --------------------------------------------------------- one pixel's word

  lemma StepPattern(c: BlitCommand, m: ChipRam, n: nat)
    requires n > 0
    ensures At(c, m, n).pattern == RotateLeftOne(At(c, m, n - 1).pattern)
  {
    hide PixelC, PixelD, PixelWritten, RotateRight, RotateLeftOne, ChipAddress, NextError;
  }

  /** The line texture turns by one bit a pixel. */
  lemma {:induction false} PatternBit(c: BlitCommand, m: ChipRam, n: nat, i: nat)
    requires i < 16
    ensures Bit(At(c, m, n).pattern, i) == Bit(c.bdat, (i + c.bshift - n) % 16)
  {
    hide Bit, At, RotateRight, RotateLeftOne, ChipAddress, ToI16;
    if n == 0 {
      FirstState(c, m);
      RotateRightBit(c.bdat, c.bshift, i);
    } else {
      StepPattern(c, m, n);
      RotateLeftOneBit(At(c, m, n - 1).pattern, i);
      PatternBit(c, m, n - 1, (i + 15) % 16);
      RemainderAdds(i + 15, c.bshift - (n - 1), 16);
      RemainderAdds(16, i + c.bshift - n, 16);
    }
  }

  lemma WholeOrNone(on: bool, i: nat)
    requires i < 16
    ensures Bit(if on then ONES else ZERO, i) == on
  {
    BitOfOnes(i);
    BitOfZero(i);
  }

  /** Bit `i` of the word that pixel `n` combines: the minterm's table entry for the A
      data under its mask, shifted to the pixel's column, the texture bit of the pixel
      and the word there. */
  lemma PixelBit(c: BlitCommand, m: ChipRam, n: nat, i: nat)
    requires i < 16
    ensures var v := Drawn(c, m, n);
      var x := v.state.x;
      Bit(PixelD(c, v), i)
        == TableBit(c.minterm, i + x < 16 && Bit(c.adat, i + x) && Bit(c.afwm, i + x),
                    Bit(c.bdat, (c.bshift - n) % 16), Bit(PixelC(c, v), i))
  {
    hide Bit, Logic, TableBit, ShiftRight, And, Drawn, PixelC;
    var v := Drawn(c, m, n);
    var x, texture := v.state.x, Bit(v.state.pattern, 0);
    PatternBit(c, m, n, 0);
    WholeOrNone(texture, i);
    ShiftRightBit(And(c.adat, c.afwm), x, i);
    if i + x < 16 { AndBit(c.adat, c.afwm, i + x); }
    LogicBit(c.minterm, ShiftRight(And(c.adat, c.afwm), x), if texture then ONES else ZERO, PixelC(c, v), i);
  }

  // ------------------------------------------------------------- a whole line

  /** A line of single pixels: the leftmost bit of the A data alone, drawn in the
      texture over what is there. */
  predicate Dotted(c: BlitCommand) {
    c.useC && c.minterm == 0xCA && c.adat == Word(0x8000) && Bit(c.afwm, 15)
  }

  /** Pixel `p` of memory, the leftmost bit of word 0 first. */
  predicate PixelSet(chip: ChipRam, p: nat)
    requires p < PIXELS
  {
    Bit(chip[p / 16], 15 - p % 16)
  }

  /** Whether pixel `k` of the line is plotted at pixel `p` of memory. */
  predicate PlottedAt(c: BlitCommand, m: ChipRam, k: nat, p: nat) {
    (c.singleDot ==> RunLength(c, m, k) % 256 == 0) && p == Position(c, m, k) % PIXELS
  }

  lemma TopBit(i: nat)
    requires i < 16
    ensures Bit(Word(0x8000), i) <==> i == 15
  {
    IndexOrder(i, 16);
    IndexTable();
    TopBitAt(Index(i));
    if i < 15 { IndexOrder(i, 15); }
  }

  lemma TopBitAt(i: bv5)
    requires i < 16
    ensures BitAt(0x8000, i) <==> i == 15
  {
  }

  /** Minterm 0xCA puts B where A is set and leaves C elsewhere. */
  lemma CookieCut(a: bool, b: bool, c: bool)
    ensures TableBit(0xCA, a, b, c) == if a then b else c
  {
  }

  lemma WordOfPixel(s: LineState, p: nat)
    requires OnGrid(s) && p < PIXELS
    ensures WordIndex(s.cpt) == Pixel(s) / 16 && s.x == Pixel(s) % 16
    ensures p == Pixel(s) <==> p / 16 == WordIndex(s.cpt) && p % 16 == s.x
  {
    var half := s.cpt / 2;
    assert Pixel(s) == half * 16 + s.x;
    IntDivision(half, 16, s.x);
    Division(0, CHIP_BYTES, s.cpt);
    assert p == p / 16 * 16 + p % 16;
  }

  lemma DrawnNext(c: BlitCommand, m: ChipRam, n: nat)
    ensures var v := Drawn(c, m, n);
      Drawn(c, m, n + 1).chip
        == if PixelWritten(c, v.state) then v.chip[WordIndex(v.state.cpt) := PixelD(c, v)] else v.chip
  {
    hide PixelC, PixelD, PixelWritten, AfterPixel, LineStart;
  }

  /** Pixel `n` of the line takes its texture bit; every other pixel of memory stays. */
  lemma PlotsOne(c: BlitCommand, m: ChipRam, n: nat, p: nat)
    requires Dotted(c) && p < PIXELS
    ensures PixelSet(Drawn(c, m, n + 1).chip, p)
         == if PlottedAt(c, m, n, p) then Bit(c.bdat, (c.bshift - n) % 16) else PixelSet(Drawn(c, m, n).chip, p)
  {
    hide Bit, Drawn, PixelD, TableBit, Position, RunLength, WordIndex, Pixel, OnGrid;
    var v := Drawn(c, m, n);
    PixelPosition(c, m, n);
    DotsCountRun(c, m, n);
    WordOfPixel(v.state, p);
    DrawnNext(c, m, n);
    if PixelWritten(c, v.state) && p / 16 == WordIndex(v.state.cpt) {
      var i := 15 - p % 16;
      PixelBit(c, m, n, i);
      if i + v.state.x < 16 { TopBit(i + v.state.x); }
      CookieCut(p % 16 == v.state.x, Bit(c.bdat, (c.bshift - n) % 16), Bit(PixelC(c, v), i));
    }
  }

  /** A pixel of memory at which none of the pixels from `from` on is plotted stays. */
  lemma {:induction false} LineKeeps(c: BlitCommand, m: ChipRam, from: nat, n: nat, p: nat)
    requires Dotted(c) && p < PIXELS && from <= n
    requires forall k: nat | from <= k < n :: !PlottedAt(c, m, k, p)
    ensures PixelSet(Drawn(c, m, n).chip, p) == PixelSet(Drawn(c, m, from).chip, p)
  {
    hide Bit, PlottedAt, PixelSet, Dotted, Drawn;
    if n == from {
    } else {
      LineKeeps(c, m, from, n - 1, p);
      PlotsOne(c, m, n - 1, p);
    }
  }

  /** The last pixel of the line to be plotted somewhere leaves its texture bit there. */
  lemma LinePlots(c: BlitCommand, m: ChipRam, k: nat, n: nat, p: nat)
    requires Dotted(c) && p < PIXELS && k < n && PlottedAt(c, m, k, p)
    requires forall l: nat | k < l < n :: !PlottedAt(c, m, l, p)
    ensures PixelSet(Drawn(c, m, n).chip, p) == Bit(c.bdat, (c.bshift - k) % 16)
  {
    hide Bit, PlottedAt, PixelSet, Dotted, Drawn;
    LineKeeps(c, m, k + 1, n, p);
    PlotsOne(c, m, k, p);
  }

  /** A solid line sets exactly the pixels at its positions, all of them when single-dot
      is off. */
  lemma {:induction false} SolidLine(c: BlitCommand, m: ChipRam, n: nat, p: nat)
    requires Dotted(c) && c.bdat == ONES && p < PIXELS
    ensures PixelSet(Drawn(c, m, n).chip, p) <==> PixelSet(m, p) || exists k: nat :: k < n && PlottedAt(c, m, k, p)
  {
    hide Bit, PlottedAt, PixelSet, Dotted;
    if n == 0 {
      assert Drawn(c, m, 0).chip == m;
    } else {
      hide Drawn;
      var last := n - 1;
      SolidLine(c, m, last, p);
      PlotsOne(c, m, last, p);
      BitOfOnes((c.bshift - last) % 16);
    }
  }
}
