/** The line compositor: the playfield paths write the line pixel by pixel, then
    the sprites are painted over it, last sprite first. */
module Compositing {
  import opened Denise
  import opened Integers
  import opened Words

  /** All that is kept of one pixel while a line is composed. */
  datatype Pixel = Pixel(rgb: Rgb, packed: U16, color: nat, prio: nat, active1: bool, active2: bool, sprites: set<nat>)

  // -------------------------------------------------- what a line should show

  function Background(l: Line, palette: Palette): Pixel
    requires palette.Valid()
  {
    Pixel(palette.rgb[0], palette.packed[0], 0, l.prio1, false, false, {})
  }

  /** A single-playfield pixel. */
  function SinglePixel(l: Line, palette: Palette, x: int): Pixel
    requires l.Valid() && palette.Valid()
  {
    var color := Playfield(l, x);
    var rgb := if l.Ehb() then palette.HalfBright(color) else palette.rgb[color];
    Pixel(rgb, Packed(rgb), color, l.prio1, color != 0, false, {})
  }

  /** A hold-and-modify pixel of which only columns below `s` are drawn. Every
      column in the window counts as opaque, whatever colour it has. */
  function HamUpTo(l: Line, palette: Palette, x: int, s: int): Pixel
    requires l.Valid() && palette.Valid() && l.depth <= 6
  {
    var k := x - l.Left() - l.Scroll(0);
    if l.InWindow(x) && 0 <= k < s then
      var rgb := HamColor(l, palette, k + 1);
      Pixel(rgb, Packed(rgb), 0xFF, l.prio1, true, false, {})
    else Background(l, palette)
  }

  /** A pixel that shows the dual-playfield pair `d`. */
  function DualPixelOf(l: Line, palette: Palette, d: DualPixel): Pixel
    requires palette.Valid() && d.pf1 < 8 && d.pf2 < 16
  {
    var color := DualResolve(d, l.bit6);
    Pixel(palette.rgb[color], palette.packed[color], color, if color > 0 && color == d.pf2 then l.prio2 else l.prio1,
          d.pf1 > 0, d.pf2 > 0, {})
  }

  /** The pair at `x` of which only columns below `s1` and `s2` are drawn. */
  function DualSeen(l: Line, x: int, s1: int, s2: int): (d: DualPixel)
    requires l.Valid() && l.depth <= 6
    ensures d.pf1 < 8 && (d.pf2 == 0 || 8 < d.pf2 < 16)
  {
    var d := DualDecode(IndexAt(l, x));
    DualPixel(if l.InWindow(x) && 0 <= x - l.Left() - l.Scroll(0) < s1 then d.pf1 else 0,
              if l.InWindow(x) && 0 <= x - l.Left() - l.Scroll(1) < s2 then d.pf2 else 0)
  }

  /** A dual-playfield pixel: the front one of the two scrolled playfields. */
  function FullDualPixel(l: Line, palette: Palette, x: int): Pixel
    requires l.Valid() && palette.Valid() && l.depth <= 6
  {
    if l.InWindow(x) then DualPixelOf(l, palette, DualDecode(IndexAt(l, x))) else Background(l, palette)
  }

  /** Drawing one more column of playfield 1 changes the one pixel it lands on. */
  lemma FirstColumn(l: Line, x: int, k: nat, s2: int)
    requires l.Valid() && l.depth <= 6
    ensures var was, now := DualSeen(l, x, k, s2), DualSeen(l, x, k + 1, s2);
      if l.InWindow(x) && x == l.Left() + k + l.Scroll(0)
        then was.pf1 == 0 && now == was.(pf1 := DualDecode(IndexOf(l, k, k, l.depth)).pf1)
        else now == was
  {
    hide IndexOf, DualDecode;
    FirstIsSeparate(l, k, x - l.Left() - l.Scroll(1), k, l.depth);
  }

  lemma SecondColumn(l: Line, x: int, s1: int, k: nat)
    requires l.Valid() && l.depth <= 6
    ensures var was, now := DualSeen(l, x, s1, k), DualSeen(l, x, s1, k + 1);
      if l.InWindow(x) && x == l.Left() + k + l.Scroll(1)
        then was.pf2 == 0 && now == was.(pf2 := DualDecode(IndexOf(l, k, k, l.depth)).pf2)
        else now == was
  {
    hide IndexOf, DualDecode;
    SecondIsSeparate(l, x - l.Left() - l.Scroll(0), k, k, l.depth);
  }

  /** With every column drawn the whole pair is there. */
  lemma AllColumns(l: Line, palette: Palette, x: int)
    requires l.Valid() && palette.Valid() && l.depth <= 6
    ensures DualPixelOf(l, palette, DualSeen(l, x, 16 * l.words, 16 * l.words)) == FullDualPixel(l, palette, x)
  {
    hide IndexOf, DualDecode;
    var k1, k2 := x - l.Left() - l.Scroll(0), x - l.Left() - l.Scroll(1);
    assert DualDecode(0) == DualPixel(0, 0) by { DecodesToNothing(); }
    if !(0 <= k1 < 16 * l.words) {
      FirstIsSeparate(l, k1, k2, k1, l.depth);
      OffColumns(l, k1, k1, l.depth);
    }
    if !(0 <= k2 < 16 * l.words) {
      SecondIsSeparate(l, k1, k2, k2, l.depth);
      OffColumns(l, k2, k2, l.depth);
    }
  }

  lemma DecodesToNothing()
    ensures DualDecode(0) == DualPixel(0, 0)
  {
  }

  function SpriteScale(l: Line): nat {
    if l.wide then 2 else 1
  }

  /** The position, in sprite pixels, of pixel `x`. */
  function Column(l: Line, x: nat): nat {
    if l.wide then x / 2 else x
  }

  lemma ColumnScales(l: Line, c: nat, r: nat)
    requires r < SpriteScale(l)
    ensures Column(l, c * SpriteScale(l) + r) == c
  {
  }

  /** The colours the eight sprites show at `x`. */
  function SpriteColors(l: Line, s: SpriteSet, x: nat): (colors: seq<nat>)
    requires s.Valid()
    ensures |colors| == SPRITES && forall i: nat | i < SPRITES :: colors[i] == SpriteColor(s, i, Column(l, x), l.y)
  {
    seq(SPRITES, i requires 0 <= i < SPRITES => SpriteColor(s, i, Column(l, x), l.y))
  }

  function Showing(colors: seq<nat>, k: nat): set<nat>
    requires |colors| == SPRITES && k <= SPRITES
  {
    set i: nat | k <= i < SPRITES && colors[i] != 0
  }

  /** A pixel with sprites `k` and up over it: the winner of the priority scan shows. */
  function Overlaid(p: Pixel, palette: Palette, colors: seq<nat>, k: nat): Pixel
    requires palette.Valid() && |colors| == SPRITES && k <= SPRITES && forall i: nat | i < SPRITES :: colors[i] < COLORS
  {
    var there := p.(sprites := p.sprites + Showing(colors, k));
    match Resolve(p.color, p.prio, colors, k)
    case OfSprite(_, color) =>
      if color < COLORS then there.(rgb := palette.rgb[color], packed := Packed(palette.rgb[color])) else there
    case OfPlayfield(_) => there
  }

  /** Painting sprite `k` over what the later sprites left is what the scan
      starting at `k` picks. */
  lemma PaintIsScan(p: Pixel, palette: Palette, colors: seq<nat>, k: nat)
    requires palette.Valid() && |colors| == SPRITES && k < SPRITES && forall i: nat | i < SPRITES :: colors[i] < COLORS
    ensures var below := Overlaid(p, palette, colors, k + 1);
      && below.color == p.color && below.prio == p.prio
      && Overlaid(p, palette, colors, k) ==
        (if colors[k] == 0 then below
         else if p.color == 0 || k + 2 * p.prio < 8
           then below.(sprites := below.sprites + {k}, rgb := palette.rgb[colors[k]],
             packed := Packed(palette.rgb[colors[k]]))
         else below.(sprites := below.sprites + {k}))
  {
    var here, later := Showing(colors, k), Showing(colors, k + 1);
    assert here == if colors[k] == 0 then later else later + {k};
    assert p.sprites + later + {k} == p.sprites + (later + {k});
  }

  /** Only sprite `i` has a colour. */
  ghost predicate OnlySprite(colors: seq<nat>, i: nat) {
    |colors| == SPRITES && i < SPRITES && colors[i] != 0 && forall j: nat | j < SPRITES && j != i :: colors[j] == 0
  }

  lemma {:induction false} ScanFinds(pfColor: nat, pfPrio: nat, colors: seq<nat>, i: nat, k: nat)
    requires OnlySprite(colors, i) && k <= SPRITES
    ensures Resolve(pfColor, pfPrio, colors, k)
         == if k <= i && (pfColor == 0 || i + 2 * pfPrio < 8) then OfSprite(i, colors[i]) else OfPlayfield(pfColor)
    decreases SPRITES - k
  {
    if k == SPRITES {
    } else {
      ScanFinds(pfColor, pfPrio, colors, i, k + 1);
    }
  }

  /** A lone sprite `i` shows over colour 0 always, and over an opaque playfield of
      priority `p` exactly when `i + 2 p` is less than eight. */
  predicate ShowsSprite(shown: Pixel, below: Pixel, palette: Palette, i: nat, color: nat)
    requires palette.Valid()
  {
    color < COLORS && shown.rgb == if below.color == 0 || i + 2 * below.prio < 8 then palette.rgb[color] else below.rgb
  }

  lemma SpriteOverPlayfield(p: Pixel, palette: Palette, colors: seq<nat>, i: nat)
    requires palette.Valid() && OnlySprite(colors, i) && |colors| == SPRITES
    requires forall j: nat | j < SPRITES :: colors[j] < COLORS
    ensures i < SPRITES && ShowsSprite(Overlaid(p, palette, colors, 0), p, palette, i, colors[i])
  {
    hide Resolve, OnlySprite;
    OnlyIsSprite(colors, i);
    ScanFinds(p.color, p.prio, colors, i, 0);
  }

  lemma OnlyIsSprite(colors: seq<nat>, i: nat)
    requires OnlySprite(colors, i)
    ensures i < SPRITES == |colors|
  {
  }

  lemma NoSprites(p: Pixel, palette: Palette, colors: seq<nat>)
    requires palette.Valid() && |colors| == SPRITES && forall i: nat | i < SPRITES :: colors[i] < COLORS
    ensures Overlaid(p, palette, colors, SPRITES) == p
  {
    assert Showing(colors, SPRITES) == {};
  }

  /** A pixel before the sprites. */
  function LinePixel(l: Line, palette: Palette, x: int): Pixel
    requires l.Valid() && palette.Valid()
  {
    if !l.Shown() then Background(l, palette)
    else if l.ham then HamUpTo(l, palette, x, 16 * l.words)
    else if l.dual then FullDualPixel(l, palette, x)
    else SinglePixel(l, palette, x)
  }

  // ----------------------------------------------------- planar to chunky

  /** The pixel index at bit `px` of a block of six plane words. */
  function ChunkyPixel(words: seq<Word>, planes: nat, px: nat): (i: nat)
    requires |words| == 6 && planes <= 6 && px < 16
  {
    if planes == 0 then 0
    else ChunkyPixel(words, planes - 1, px) + if Bit(words[planes - 1], 15 - px) then Place(planes - 1) else 0
  }

  method PlanarToChunky(words: seq<Word>, planes: nat) returns (chunky: array<nat>)
    requires |words| == 6
    ensures fresh(chunky) && chunky.Length == 16
    ensures forall px: nat | px < 16 :: chunky[px] == ChunkyPixel(words, if planes > 6 then 6 else planes, px)
  {
    hide Bit;
    var n := if planes > 6 then 6 else planes;
    chunky := new nat[16];
    for px := 0 to 16
      invariant forall q: nat | q < px :: chunky[q] == ChunkyPixel(words, n, q)
    {
      var index := 0;
      for p := 0 to n
        invariant index == ChunkyPixel(words, p, px)
      {
        index := index + if Bit(words[p], 15 - px) then Place(p) else 0;
      }
      chunky[px] := index;
    }
  }

  function BlockWords(l: Line, w: nat): (words: seq<Word>)
    requires l.Valid() && w < MAX_WORDS
    ensures |words| == 6 && forall p: nat | p < 6 :: words[p] == if p < l.depth then l.planes[p][w] else ZERO
  {
    seq(6, p requires 0 <= p < 6 => if p < l.depth then l.planes[p][w] else ZERO)
  }

  /** A pixel of block `w` is the column of the fetched stream it stands for. */
  lemma ChunkyIsColumn(l: Line, w: nat, px: nat, n: nat)
    requires l.Valid() && w < l.words && px < 16 && n <= l.depth && n <= 6
    ensures ChunkyPixel(BlockWords(l, w), n, px) == IndexOf(l, w * 16 + px, w * 16 + px, n)
  {
    hide Bit;
    if n == 0 {
    } else {
      ChunkyIsColumn(l, w, px, n - 1);
      assert (w * 16 + px) / 16 == w && (w * 16 + px) % 16 == px;
    }
  }

  // ---------------------------------------------------------- the compositor

  class Compositor {
    const pixels: array<Pixel>
    var palette: Palette

    ghost predicate Valid()
      reads this
    {
      pixels.Length == PIXELS && palette.Valid()
    }

    /** Every pixel is the background. */
    ghost predicate Clear(l: Line)
      requires Valid()
      reads this, pixels
    {
      forall x: nat | x < PIXELS :: pixels[x] == Background(l, palette)
    }

    method ClearLine(l: Line)
      requires Valid()
      modifies pixels
      ensures Clear(l)
    {
      for i := 0 to PIXELS
        invariant forall x: nat | x < i :: pixels[x] == Background(l, palette)
      {
        pixels[i] := Pixel(palette.rgb[0], palette.packed[0], 0, l.prio1, false, false, {});
      }
    }

    /** `ehb_resolve_color` */
    method HalfBrightColor(bits: nat) returns (rgb: Rgb)
      requires Valid() && bits < 64
      ensures rgb == palette.HalfBright(bits)
    {
      rgb := palette.rgb[bits % 32];
      if bits / 32 % 2 == 1 { rgb := Rgb(rgb.r / 2, rgb.g / 2, rgb.b / 2); }
    }

    /** Writes a single-playfield pixel, `index` before masking. */
    method PutSingle(l: Line, x: nat, index: nat)
      requires Valid() && l.Valid() && x < PIXELS && index < 64
      modifies pixels
      ensures forall k: nat | k < PIXELS && k != x :: pixels[k] == old(pixels[k])
      ensures l.InWindow(x) && l.depth <= 6 && index == IndexAt(l, x) && old(pixels[x]) == Background(l, palette) ==>
        pixels[x] == SinglePixel(l, palette, x)
    {
      hide IndexAt;
      hide Palette.HalfBright, Packed;
      var color := index % 32;
      var rgb, packed := palette.rgb[color], palette.packed[color];
      if !l.ham && !l.dual && l.depth == 6 && !l.bit6 {
        color := index % 64;
        rgb := HalfBrightColor(color);
        packed := Packed(rgb);
      }
      pixels[x] := pixels[x].(rgb := rgb, packed := packed, color := color, active1 := color != 0, active2 := false);
    }

    /** Outside the fetched columns a single playfield shows the background. */
    lemma NothingFetched(l: Line, x: int)
      requires Valid() && l.Valid()
      requires !(0 <= x - l.Left() - l.Scroll(0) < 16 * l.words) && !(0 <= x - l.Left() - l.Scroll(1) < 16 * l.words)
      ensures SinglePixel(l, palette, x) == Background(l, palette)
    {
      hide IndexOf;
      assert Playfield(l, x) == 0 by {
        if l.depth <= 6 { OffColumns(l, x - l.Left() - l.Scroll(0), x - l.Left() - l.Scroll(1), l.depth); }
      }
      hide *;
      BlankIsBackground(l, x);
    }

    /** The block path: sixteen pixels at a time, when both scrolls agree. */
    method BlockPath(l: Line)
      requires Valid() && l.Valid() && l.Shown() && !l.ham && !l.dual && l.scroll1 == l.scroll2 && Clear(l)
      modifies pixels
      ensures forall x: nat | x < PIXELS :: pixels[x] == SinglePixel(l, palette, x)
    {
      hide SinglePixel, Background, IndexOf, ChunkyPixel;
      forall x: nat | x < PIXELS && x < l.Left() + l.Scroll(0)
        ensures SinglePixel(l, palette, x) == Background(l, palette)
      {
        NothingFetched(l, x);
      }
      for w := 0 to l.words
        invariant forall x: nat | x < PIXELS ::
          pixels[x] == if x < l.Left() + l.Scroll(0) + w * 16
            then SinglePixel(l, palette, x) else Background(l, palette)
      {
        Block(l, w);
      }
      forall x: nat | x < PIXELS && x >= l.Left() + l.Scroll(0) + l.words * 16
        ensures SinglePixel(l, palette, x) == Background(l, palette)
      {
        NothingFetched(l, x);
      }
    }

    method Block(l: Line, w: nat)
      requires Valid() && l.Valid() && l.Shown() && l.scroll1 == l.scroll2 && w < l.words
      requires forall x: nat | x < PIXELS ::
        pixels[x] == if x < l.Left() + l.Scroll(0) + w * 16 then SinglePixel(l, palette, x) else Background(l, palette)
      modifies pixels
      ensures forall x: nat | x < PIXELS ::
        pixels[x] == if x < l.Left() + l.Scroll(0) + w * 16 + 16
          then SinglePixel(l, palette, x) else Background(l, palette)
    {
      hide SinglePixel, Background, IndexOf, ChunkyPixel;
      var chunky := PlanarToChunky(BlockWords(l, w), l.depth);
      for px := 0 to 16
        invariant forall x: nat | x < PIXELS ::
          pixels[x] == if x < l.Left() + l.Scroll(0) + w * 16 + px
            then SinglePixel(l, palette, x) else Background(l, palette)
        invariant forall q: nat | q < 16 :: chunky[q] == ChunkyPixel(BlockWords(l, w), l.depth, q)
      {
        var x := l.Left() + w * 16 + px + l.Scroll(0);
        if x < l.xStart || x >= l.xStop || x >= PIXELS {
          OffWindow(l, x);
        } else {
          ChunkyIsColumn(l, w, px, l.depth);
          PutSingle(l, x, chunky[px]);
        }
      }
    }

    lemma BlankIsBackground(l: Line, x: int)
      requires Valid() && l.Valid() && Playfield(l, x) == 0
      ensures SinglePixel(l, palette, x) == Background(l, palette)
    {
      hide Playfield;
    }

    lemma OffWindow(l: Line, x: int)
      requires Valid() && l.Valid() && !l.InWindow(x)
      ensures SinglePixel(l, palette, x) == Background(l, palette)
    {
    }

    /** The pixel path: every plane looked up at its own scroll. */
    method PixelPath(l: Line)
      requires Valid() && l.Valid() && l.Shown() && !l.ham && !l.dual && Clear(l)
      modifies pixels
      ensures forall x: nat | x < PIXELS :: pixels[x] == SinglePixel(l, palette, x)
    {
      hide SinglePixel, Background, PlaneBit;
      var span := l.words * 16;
      var low := if l.Left() < l.xStart then l.xStart else l.Left();
      var high := l.Left() + span + 15 * l.Scale();
      if high > l.xStop { high := l.xStop; }
      if high > PIXELS { high := PIXELS; }
      forall x: nat | x < PIXELS && (x < low || x >= high)
        ensures SinglePixel(l, palette, x) == Background(l, palette)
      {
        if l.InWindow(x) { NothingFetched(l, x); } else { OffWindow(l, x); }
      }
      var x := low;
      while x < high
        invariant low <= x
        invariant forall k: nat | k < PIXELS ::
          pixels[k] == if k < x then SinglePixel(l, palette, k) else Background(l, palette)
      {
        var index := 0;
        for p := 0 to l.depth
          invariant index == IndexOf(l, x - l.Left() - l.Scroll(0), x - l.Left() - l.Scroll(1), p) < 64
        {
          var column := x - l.Scroll(p) - l.Left();
          assert l.Scroll(p) == if p % 2 == 0 then l.Scroll(0) else l.Scroll(1);
          if PlaneBit(l, p, column) { index := index + Place(p); }
        }
        PutSingle(l, x, index);
        x := x + 1;
      }
    }

    /** The dual-playfield loop: the two playfields of a block land on different
        pixels, and whichever comes second yields or covers by `bit6`. */
    method DualPath(l: Line)
      requires Valid() && l.Valid() && l.Shown() && !l.ham && l.dual && Clear(l)
      modifies pixels
      ensures forall x: nat | x < PIXELS :: pixels[x] == FullDualPixel(l, palette, x)
    {
      hide IndexOf, DualDecode, ChunkyPixel, FullDualPixel;
      for w := 0 to l.words
        invariant forall x: nat | x < PIXELS :: pixels[x] == DualPixelOf(l, palette, DualSeen(l, x, w * 16, w * 16))
      {
        DualBlock(l, w);
      }
      forall x: nat | x < PIXELS { AllColumns(l, palette, x); }
    }

    method DualBlock(l: Line, w: nat)
      requires Valid() && l.Valid() && l.Shown() && w < l.words
      requires forall x: nat | x < PIXELS :: pixels[x] == DualPixelOf(l, palette, DualSeen(l, x, w * 16, w * 16))
      modifies pixels
      ensures forall x: nat | x < PIXELS ::
        pixels[x] == DualPixelOf(l, palette, DualSeen(l, x, w * 16 + 16, w * 16 + 16))
    {
      hide DualPixelOf, DualSeen, DualDecode, IndexOf, ChunkyPixel;
      var chunky := PlanarToChunky(BlockWords(l, w), l.depth);
      for px := 0 to 16
        invariant forall x: nat | x < PIXELS ::
          pixels[x] == DualPixelOf(l, palette, DualSeen(l, x, w * 16 + px, w * 16 + px))
        invariant forall q: nat | q < 16 :: chunky[q] == ChunkyPixel(BlockWords(l, w), l.depth, q)
      {
        ChunkyIsColumn(l, w, px, l.depth);
        var d := DualDecode(chunky[px]);
        DrawFirst(l, w * 16 + px, d.pf1);
        DrawSecond(l, w * 16 + px, d.pf2);
      }
    }

    method DrawFirst(l: Line, k: nat, pf1: nat)
      requires Valid() && l.Valid() && l.depth <= 6 && pf1 == DualDecode(IndexOf(l, k, k, l.depth)).pf1
      requires forall x: nat | x < PIXELS :: pixels[x] == DualPixelOf(l, palette, DualSeen(l, x, k, k))
      modifies pixels
      ensures forall x: nat | x < PIXELS :: pixels[x] == DualPixelOf(l, palette, DualSeen(l, x, k + 1, k))
    {
      hide DualSeen, DualDecode, IndexOf;
      forall x: nat | x < PIXELS { FirstColumn(l, x, k, k); }
      if pf1 > 0 {
        var x := l.Left() + k + l.Scroll(0);
        if l.xStart <= x < l.xStop && x < PIXELS {
          var p := pixels[x];
          if !(p.active1 || p.active2) || (p.active2 && !l.bit6) {
            p := p.(color := pf1, prio := l.prio1, rgb := palette.rgb[pf1], packed := palette.packed[pf1]);
          }
          pixels[x] := p.(active1 := true);
        }
      }
    }

    method DrawSecond(l: Line, k: nat, pf2: nat)
      requires Valid() && l.Valid() && l.depth <= 6 && pf2 == DualDecode(IndexOf(l, k, k, l.depth)).pf2
      requires forall x: nat | x < PIXELS :: pixels[x] == DualPixelOf(l, palette, DualSeen(l, x, k + 1, k))
      modifies pixels
      ensures forall x: nat | x < PIXELS :: pixels[x] == DualPixelOf(l, palette, DualSeen(l, x, k + 1, k + 1))
    {
      hide DualSeen, DualDecode, IndexOf;
      ghost var next := k + 1;
      forall x: nat | x < PIXELS
        ensures var was, now := DualSeen(l, x, next, k), DualSeen(l, x, next, next);
          if l.InWindow(x) && x == l.Left() + k + l.Scroll(1) then was.pf2 == 0 && now == was.(pf2 := pf2)
          else now == was
      {
        SecondColumn(l, x, next, k);
      }
      if pf2 > 0 {
        var x := l.Left() + k + l.Scroll(1);
        if l.xStart <= x < l.xStop && x < PIXELS {
          var p := pixels[x];
          if !(p.active1 || p.active2) || (p.active1 && l.bit6) {
            p := p.(color := pf2, prio := l.prio2, rgb := palette.rgb[pf2], packed := palette.packed[pf2]);
          }
          pixels[x] := p.(active2 := true);
        }
      }
    }

    /** The hold-and-modify loop: the held colour runs through every column, also
        those outside the window. */
    method HamPath(l: Line)
      requires Valid() && l.Valid() && l.Shown() && l.ham && Clear(l)
      modifies pixels
      ensures forall x: nat | x < PIXELS :: pixels[x] == HamUpTo(l, palette, x, 16 * l.words)
    {
      hide IndexOf, HamDecode;
      var held := palette.rgb[0];
      for w := 0 to l.words
        invariant held == HamColor(l, palette, w * 16)
        invariant forall x: nat | x < PIXELS :: pixels[x] == HamUpTo(l, palette, x, w * 16)
      {
        held := HamBlock(l, w, held);
      }
    }

    /** `ham6_decode_pixel` */
    method HamPixel(bits: nat, before: Rgb) returns (rgb: Rgb)
      requires Valid() && bits < 64
      ensures rgb == HamDecode(bits, before, palette)
    {
      rgb := before;
      var control, value := bits / 16, bits % 16 * 16;
      match control
      case 0 => rgb := palette.rgb[bits % 32];
      case 1 => rgb := rgb.(b := value);
      case 2 => rgb := rgb.(r := value);
      case _ => rgb := rgb.(g := value);
    }

    method HamBlock(l: Line, w: nat, before: Rgb) returns (held: Rgb)
      requires Valid() && l.Valid() && l.Shown() && w < l.words && before == HamColor(l, palette, w * 16)
      requires forall x: nat | x < PIXELS :: pixels[x] == HamUpTo(l, palette, x, w * 16)
      modifies pixels
      ensures held == HamColor(l, palette, w * 16 + 16)
      ensures forall x: nat | x < PIXELS :: pixels[x] == HamUpTo(l, palette, x, w * 16 + 16)
    {
      hide IndexOf, HamDecode, ChunkyPixel, BlockWords;
      var chunky := PlanarToChunky(BlockWords(l, w), l.depth);
      held := before;
      for px := 0 to 16
        invariant held == HamColor(l, palette, w * 16 + px)
        invariant forall x: nat | x < PIXELS :: pixels[x] == HamUpTo(l, palette, x, w * 16 + px)
        invariant forall q: nat | q < 16 :: chunky[q] == ChunkyPixel(BlockWords(l, w), l.depth, q)
      {
        ChunkyIsColumn(l, w, px, l.depth);
        var x := l.Left() + w * 16 + px + l.Scroll(0);
        held := HamPixel(chunky[px], held);
        assert held == HamColor(l, palette, w * 16 + px + 1);
        if !(x < l.xStart || x >= l.xStop || x >= PIXELS) {
          pixels[x] := pixels[x].(rgb := held, packed := Packed(held), color := 0xFF, active1 := true,
            active2 := false);
        }
      }
    }

    /** Sprites behind `k` are painted everywhere, and `k` left of `edge`. */
    ghost predicate Painted(l: Line, s: SpriteSet, was: seq<Pixel>, k: nat, edge: int)
      requires Valid() && s.Valid() && k < SPRITES && |was| == PIXELS
      reads this, pixels
    {
      forall x: nat | x < PIXELS :: PaintedAt(l, s, was, k, edge, x)
    }

    ghost predicate PaintedAt(l: Line, s: SpriteSet, was: seq<Pixel>, k: nat, edge: int, x: nat)
      requires Valid() && s.Valid() && k < SPRITES && |was| == PIXELS && x < PIXELS
      reads this, pixels
    {
      pixels[x] == Overlaid(was[x], palette, SpriteColors(l, s, x), if x < edge then k else k + 1)
    }

    /** Over columns where sprite `k` shows nothing the edge moves freely. */
    lemma EdgeMoves(l: Line, s: SpriteSet, was: seq<Pixel>, k: nat, from: nat, to: nat)
      requires Valid() && s.Valid() && k < SPRITES && |was| == PIXELS && from <= to
      requires Painted(l, s, was, k, from * SpriteScale(l))
      requires forall c: nat | from <= c < to :: SpriteColor(s, k, c, l.y) == 0
      ensures Painted(l, s, was, k, to * SpriteScale(l))
    {
      hide Overlaid, SpriteColors, SpriteColor;
      forall x: nat | x < PIXELS
        ensures PaintedAt(l, s, was, k, to * SpriteScale(l), x)
      {
        assert PaintedAt(l, s, was, k, from * SpriteScale(l), x);
        PaintIsScan(was[x], palette, SpriteColors(l, s, x), k);
        assert from <= Column(l, x) < to || (x < from * SpriteScale(l) <==> x < to * SpriteScale(l));
      }
    }

    lemma OffRight(l: Line, s: SpriteSet, was: seq<Pixel>, k: nat, edge: int, next: int)
      requires Valid() && s.Valid() && k < SPRITES && |was| == PIXELS
      requires Painted(l, s, was, k, edge) && edge >= PIXELS && next >= PIXELS
      ensures Painted(l, s, was, k, next)
    {
      hide Overlaid, SpriteColors;
      forall x: nat | x < PIXELS
        ensures PaintedAt(l, s, was, k, next, x)
      {
        assert PaintedAt(l, s, was, k, edge, x);
      }
    }

    /** Whether sprite `k` is painted on the line at all. */
    method Drawable(l: Line, s: SpriteSet, k: nat) returns (drawn: bool)
      requires s.Valid() && k < SPRITES
      ensures drawn == (!Attached(s, k) && OnLine(s, k, l.y))
    {
      if k % 2 == 1 && k in s.attached { return false; }
      var sp := s.sp[k];
      if !sp.armed { return false; }
      var stop := sp.vstop;
      if stop <= sp.vstart { stop := stop + 256; }
      return !(l.y < sp.vstart || l.y >= stop);
    }

    /** The colour of column `x` of a sprite, or of the attached pair it stands for. */
    method ColumnColor(s: SpriteSet, k: nat, x: U16, y: U16) returns (color: nat)
      requires s.Valid() && k < SPRITES && !Attached(s, k) && OnLine(s, k, y)
      requires s.sp[k].hstart <= x < s.sp[k].hstart + 16
      ensures color == SpriteColor(s, k, x, y)
    {
      var pixel := ShiftedOut(s.sp[k], x);
      if k % 2 == 0 && k + 1 in s.attached {
        var high := ShiftedOut(s.sp[k + 1], x);
        return if pixel == 0 && high == 0 then 0 else 16 + 4 * high + pixel;
      }
      return if pixel == 0 then 0 else 16 + k / 2 * 4 + pixel;
    }

    /** The two bits a sprite shifts out at `x`: `denise_sprite_pixel`. */
    method ShiftedOut(sp: Sprite, x: U16) returns (pixel: nat)
      ensures pixel == PixelOf(sp, x)
    {
      if !sp.armed || x < sp.hstart || x >= sp.hstart + 16 { return 0; }
      var shift := 15 - (x - sp.hstart);
      var dataBit, datbBit := Bit(sp.data, shift), Bit(sp.datb, shift);
      pixel := if dataBit then 1 else 0;
      if datbBit { pixel := pixel + 2; }
    }

    /** Sprite `k` painted over the sprites behind it. */
    method DrawSprite(l: Line, s: SpriteSet, k: nat, ghost was: seq<Pixel>)
      requires Valid() && s.Valid() && k < SPRITES && |was| == PIXELS
      requires Painted(l, s, was, k, 0)
      modifies pixels
      ensures Painted(l, s, was, k, PIXELS * SpriteScale(l))
    {
      hide Painted, Attached, OnLine, SpriteScale, AttachedPixel, SpritePixel;
      var left := s.sp[k].hstart;
      assert 0 * SpriteScale(l) == 0;
      var drawn := Drawable(l, s, k);
      if !drawn {
        EdgeMoves(l, s, was, k, 0, PIXELS);
        return;
      }
      EdgeMoves(l, s, was, k, 0, left);
      for px := 0 to 16
        invariant Painted(l, s, was, k, (left + px) * SpriteScale(l))
      {
        var color := ColumnColor(s, k, left + px, l.y);
        if color != 0 {
          PaintColumn(l, s, k, px, color, was);
        } else {
          EdgeMoves(l, s, was, k, left + px, left + px + 1);
        }
      }
      EdgeMoves(l, s, was, k, left + 16, PIXELS);
    }

    /** One column of a sprite, as wide as the sprite scale. */
    method PaintColumn(l: Line, s: SpriteSet, k: nat, px: nat, color: nat, ghost was: seq<Pixel>)
      requires Valid() && s.Valid() && k < SPRITES && |was| == PIXELS && px < 16
      requires color == SpriteColor(s, k, s.sp[k].hstart + px, l.y) && color != 0
      requires Painted(l, s, was, k, (s.sp[k].hstart + px) * SpriteScale(l))
      modifies pixels
      ensures Painted(l, s, was, k, (s.sp[k].hstart + px + 1) * SpriteScale(l))
    {
      hide Overlaid, Resolve, SpriteColors, SpriteColor, Column;
      var scale := if l.wide then 2 else 1;
      var first := (s.sp[k].hstart + px) * scale;
      for r := 0 to scale
        invariant Painted(l, s, was, k, first + r)
      {
        var x := first + r;
        if x >= PIXELS {
          OffRight(l, s, was, k, x, first + scale);
          break;
        }
        ColumnScales(l, s.sp[k].hstart + px, r);
        PaintIsScan(was[x], palette, SpriteColors(l, s, x), k);
        assert PaintedAt(l, s, was, k, x, x);
        var p := pixels[x].(sprites := pixels[x].sprites + {k});
        if p.color == 0 || k / 2 + p.prio < 4 {
          p := p.(rgb := palette.rgb[color], packed := Packed(palette.rgb[color]));
        }
        label Before:
        pixels[x] := p;
        ghost var next := x + 1;
        forall q: nat | q < PIXELS
          ensures PaintedAt(l, s, was, k, next, q)
        {
          assert old@Before(PaintedAt(l, s, was, k, x, q));
        }
      }
    }

    /** Sprites painted last to first show what the priority scan, first to
        last, picks at each pixel. */
    method OverlaySprites(l: Line, s: SpriteSet)
      requires Valid() && s.Valid()
      modifies pixels
      ensures forall x: nat | x < PIXELS :: pixels[x] == Overlaid(old(pixels[x]), palette, SpriteColors(l, s, x), 0)
    {
      hide SpriteColors, Overlaid;
      ghost var was := pixels[..];
      assert forall x: nat | x < PIXELS :: Overlaid(was[x], palette, SpriteColors(l, s, x), SPRITES) == was[x] by {
        forall x: nat | x < PIXELS { NoSprites(was[x], palette, SpriteColors(l, s, x)); }
      }
      var k: nat := SPRITES;
      while k > 0
        invariant k <= SPRITES
        invariant forall x: nat | x < PIXELS :: pixels[x] == Overlaid(was[x], palette, SpriteColors(l, s, x), k)
      {
        k := k - 1;
        forall x: nat | x < PIXELS ensures PaintedAt(l, s, was, k, 0, x) { }
        DrawSprite(l, s, k, was);
        forall x: nat | x < PIXELS
          ensures pixels[x] == Overlaid(was[x], palette, SpriteColors(l, s, x), k)
        {
          assert PaintedAt(l, s, was, k, PIXELS * SpriteScale(l), x);
        }
      }
    }

    /** The line before its sprites. */
    method ComposePlayfields(l: Line)
      requires Valid() && l.Valid()
      modifies pixels
      ensures forall x: nat | x < PIXELS :: pixels[x] == LinePixel(l, palette, x)
    {
      hide SinglePixel, FullDualPixel, HamUpTo;
      ClearLine(l);
      if l.visible && l.depth > 0 && l.depth <= 6 && l.words > 0 {
        if l.ham {
          HamPath(l);
        } else if l.dual {
          DualPath(l);
        } else if l.scroll1 == l.scroll2 {
          BlockPath(l);
        } else {
          PixelPath(l);
        }
      }
    }

    /** A whole line. */
    method ComposeLine(l: Line, s: SpriteSet)
      requires Valid() && l.Valid() && s.Valid()
      modifies pixels
      ensures forall x: nat | x < PIXELS ::
        pixels[x] == Overlaid(LinePixel(l, palette, x), palette, SpriteColors(l, s, x), 0)
      ensures forall x: nat, i: nat | x < PIXELS && OnlySprite(SpriteColors(l, s, x), i) ::
        i < SPRITES && ShowsSprite(pixels[x], LinePixel(l, palette, x), palette, i, SpriteColors(l, s, x)[i])
    {
      hide Overlaid, SpriteColors, LinePixel, OnlySprite;
      ComposePlayfields(l);
      OverlaySprites(l, s);
      forall x: nat, i: nat | x < PIXELS && OnlySprite(SpriteColors(l, s, x), i)
        ensures i < SPRITES && ShowsSprite(pixels[x], LinePixel(l, palette, x), palette, i, SpriteColors(l, s, x)[i])
      {
        SpriteOverPlayfield(LinePixel(l, palette, x), palette, SpriteColors(l, s, x), i);
      }
    }
  }
}
