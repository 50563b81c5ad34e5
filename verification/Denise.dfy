/** What one scan line shows: colours, playfield pixels and sprite pixels, each
    as a function of its position on the line. */
module Denise {
  import opened Arithmetic
  import opened Integers
  import opened Words

  const PIXELS := 1024
  const COLORS := 32
  const SPRITES := 8
  const MAX_WORDS := 64

  // ---------------------------------------------------------------- colours

  datatype Rgb = Rgb(r: U8, g: U8, b: U8)

  function FiveBits(v: U8): (b: nat)
    ensures b < 32
  {
    v / 8
  }

  function SixBits(v: U8): (b: nat)
    ensures b < 64
  {
    v / 4
  }

  /** Five, six and five bits of a colour, packed. */
  function Packed(c: Rgb): (p: U16) {
    FiveBits(c.r) * 2048 + SixBits(c.g) * 32 + FiveBits(c.b)
  }

  /** A colour register's three nibbles, each spread over a byte. */
  function Expanded(r: Nibble, g: Nibble, b: Nibble): Rgb {
    Rgb(r * 17, g * 17, b * 17)
  }

  datatype Palette = Palette(rgb: seq<Rgb>, packed: seq<U16>) {
    ghost predicate Valid() {
      |rgb| == |packed| == COLORS && forall i: nat | i < COLORS :: packed[i] == Packed(rgb[i])
    }

    function Write(i: nat, r: Nibble, g: Nibble, b: Nibble): (p: Palette)
      requires Valid() && i < COLORS
      ensures p.Valid()
    {
      Palette(rgb[i := Expanded(r, g, b)], packed[i := r * 17 / 8 * 2048 + g * 17 / 4 * 32 + b * 17 / 8])
    }

    /** The colour of a playfield pixel with an extra half-bright bit. */
    function HalfBright(color: nat): Rgb
      requires Valid() && color < 64
    {
      var base := rgb[color % 32];
      if color >= 32 then Rgb(base.r / 2, base.g / 2, base.b / 2) else base
    }
  }

  // -------------------------------------------------------------- playfield

  /** The registers and plane words a line is composed from. `bit6` is bit 6 of
      BPLCON2, which stops half-bright and puts playfield 2 in front. */
  datatype Line = Line(planes: seq<seq<Word>>, words: nat, depth: nat, hires: bool, ham: bool, dual: bool, bit6: bool,
                       scroll1: Nibble, scroll2: Nibble, prio1: nat, prio2: nat,
                       ddfstrt: U16, xStart: U16, xStop: U16, wide: bool, y: U16, visible: bool)
  {
    ghost predicate Valid() {
      |planes| == 6 && words <= MAX_WORDS && depth < 8 && prio1 < 8 && prio2 < 8
      && forall p: nat | p < 6 :: |planes[p]| == MAX_WORDS
    }

    function Scale(): nat {
      if hires then 2 else 1
    }

    /** Where the first fetched pixel appears when nothing is scrolled. */
    function Left(): nat {
      (ddfstrt + if hires then 9 else 17) * Scale()
    }

    function Scroll(p: nat): nat {
      (if p % 2 == 0 then scroll1 else scroll2) * Scale()
    }

    predicate Ehb() {
      !ham && !dual && depth == 6 && !bit6
    }

    predicate InWindow(x: int) {
      xStart <= x < xStop && 0 <= x < PIXELS
    }

    /** Whether the bitplane block is composed at all. */
    predicate Shown() {
      visible && 0 < depth <= 6 && words > 0
    }
  }

  /** The value of bit `p` of a pixel index. */
  function Place(p: nat): nat
    requires p < 6
  {
    match p case 0 => 1 case 1 => 2 case 2 => 4 case 3 => 8 case 4 => 16 case _ => 32
  }

  /** Bit `x` of a plane's fetched stream, most significant bit of word 0 first. */
  predicate PlaneBit(l: Line, p: nat, x: int)
    requires l.Valid() && p < 6
  {
    0 <= x < 16 * l.words && Bit(l.planes[p][x / 16], 15 - x % 16)
  }

  /** The pixel index whose odd-numbered planes are at column `k1` and whose
      even-numbered planes are at column `k2`, over the first `n` planes. */
  function IndexOf(l: Line, k1: int, k2: int, n: nat): (i: nat)
    requires l.Valid() && n <= 6
    ensures i < (if n == 6 then 64 else Place(n))
  {
    if n == 0 then 0
    else IndexOf(l, k1, k2, n - 1) + if PlaneBit(l, n - 1, if n % 2 == 1 then k1 else k2) then Place(n - 1) else 0
  }

  /** The pixel index at `x`: each plane delayed by its own playfield's scroll. */
  function IndexAt(l: Line, x: int): (i: nat)
    requires l.Valid() && l.depth <= 6
    ensures i < 64
  {
    IndexOf(l, x - l.Left() - l.Scroll(0), x - l.Left() - l.Scroll(1), l.depth)
  }

  /** The single-playfield colour at `x`: zero outside the window. */
  function Playfield(l: Line, x: int): (color: nat)
    requires l.Valid()
    ensures color < 64 && (!l.Ehb() ==> color < 32)
  {
    if l.InWindow(x) && l.depth <= 6 then IndexAt(l, x) % (if l.Ehb() then 64 else 32) else 0
  }

  /** A column outside the fetched words shows nothing. */
  lemma OffColumns(l: Line, k1: int, k2: int, n: nat)
    requires l.Valid() && n <= 6
    requires !(0 <= k1 < 16 * l.words) && !(0 <= k2 < 16 * l.words)
    ensures IndexOf(l, k1, k2, n) == 0
  {
  }

  // -------------------------------------------------------- hold and modify

  /** One hold-and-modify pixel: load a colour, or change one channel of `previous`. */
  function HamDecode(bits: nat, previous: Rgb, palette: Palette): Rgb
    requires palette.Valid() && bits < 64
  {
    var value := bits % 16 * 16;
    if bits / 16 == 0 then palette.rgb[bits % 32]
    else if bits / 16 == 1 then previous.(b := value)
    else if bits / 16 == 2 then previous.(r := value)
    else previous.(g := value)
  }

  /** The colour that the first `k` columns of a line leave. */
  function HamColor(l: Line, palette: Palette, k: nat): Rgb
    requires l.Valid() && palette.Valid() && l.depth <= 6
  {
    if k == 0 then palette.rgb[0]
    else
      var bits := IndexOf(l, k - 1, k - 1, l.depth);
      HamDecode(bits, HamColor(l, palette, k - 1), palette)
  }

  // ---------------------------------------------------------- dual playfield

  datatype DualPixel = DualPixel(pf1: nat, pf2: nat)

  /** The binary digit of `bits` whose place value is `place`. */
  function DigitOf(bits: nat, place: nat): (d: nat)
    requires place > 0
    ensures d < 2
  {
    bits / place % 2
  }

  /** Planes 1, 3 and 5 make playfield 1, planes 2, 4 and 6 playfield 2. */
  function DualDecode(bits: nat): (d: DualPixel)
    ensures d.pf1 < 8 && (d.pf2 == 0 || 8 < d.pf2 < 16)
  {
    var pf1 := DigitOf(bits, 1) + DigitOf(bits, 4) * 2 + DigitOf(bits, 16) * 4;
    var pf2 := DigitOf(bits, 2) + DigitOf(bits, 8) * 2 + DigitOf(bits, 32) * 4;
    DualPixel(pf1, if pf2 > 0 then pf2 + 8 else 0)
  }

  predicate PlaneOn(l: Line, k1: int, k2: int, n: nat, p: nat)
    requires l.Valid() && p < 6
  {
    p < n && PlaneBit(l, p, if p % 2 == 0 then k1 else k2)
  }

  function Value(on: bool, place: nat): nat {
    if on then place else 0
  }

  lemma IndexIsBits(l: Line, k1: int, k2: int, n: nat)
    requires l.Valid() && n <= 6
    ensures IndexOf(l, k1, k2, n)
         == Value(PlaneOn(l, k1, k2, n, 0), 1) + Value(PlaneOn(l, k1, k2, n, 1), 2) + Value(PlaneOn(l, k1, k2, n, 2), 4)
          + Value(PlaneOn(l, k1, k2, n, 3), 8) + Value(PlaneOn(l, k1, k2, n, 4), 16)
          + Value(PlaneOn(l, k1, k2, n, 5), 32)
  {
    hide PlaneBit;
    if n == 0 {
    } else {
      IndexIsBits(l, k1, k2, n - 1);
    }
  }

  /** The column of plane `p`'s fetched stream that pixel `x` shows: BPLCON1's scroll and
      the pipeline behind DDFSTRT, in the pixels of the line's resolution. */
  function ColumnOf(l: Line, p: nat, x: int): int {
    var scroll := if p % 2 == 0 then l.scroll1 else l.scroll2;
    if l.hires then x - 2 * l.ddfstrt - 18 - 2 * scroll else x - l.ddfstrt - 17 - scroll
  }

  lemma IndexDigits(b0: bool, b1: bool, b2: bool, b3: bool, b4: bool, b5: bool)
    ensures var v := Value(b0, 1) + Value(b1, 2) + Value(b2, 4) + Value(b3, 8) + Value(b4, 16) + Value(b5, 32);
      && (DigitOf(v, 1) == 1 <==> b0) && (DigitOf(v, 2) == 1 <==> b1) && (DigitOf(v, 4) == 1 <==> b2)
      && (DigitOf(v, 8) == 1 <==> b3) && (DigitOf(v, 16) == 1 <==> b4) && (DigitOf(v, 32) == 1 <==> b5)
  {
    hide Value, DigitOf;
    ValueScales(b0);
    ValueScales(b1);
    ValueScales(b2);
    ValueScales(b3);
    ValueScales(b4);
    ValueScales(b5);
    Digits(Value(b0, 1), Value(b1, 1), Value(b2, 1), Value(b3, 1), Value(b4, 1), Value(b5, 1));
  }

  lemma PlaneDigit(l: Line, k1: int, k2: int, n: nat, p: nat)
    requires l.Valid() && p < 6 && n <= 6
    ensures DigitOf(IndexOf(l, k1, k2, n), Place(p)) == 1 <==> PlaneOn(l, k1, k2, n, p)
  {
    hide PlaneBit, DigitOf, PlaneOn, Value, IndexOf;
    IndexIsBits(l, k1, k2, n);
    IndexDigits(PlaneOn(l, k1, k2, n, 0), PlaneOn(l, k1, k2, n, 1), PlaneOn(l, k1, k2, n, 2),
                PlaneOn(l, k1, k2, n, 3), PlaneOn(l, k1, k2, n, 4), PlaneOn(l, k1, k2, n, 5));
  }

  /** Bit `p` of the pixel index at `x` is the bit of plane `p` in that column. */
  lemma PlaneOfPixel(l: Line, p: nat, x: int)
    requires l.Valid() && p < l.depth <= 6
    ensures var k := ColumnOf(l, p, x);
      (DigitOf(IndexAt(l, x), Place(p)) == 1)
        <==> 0 <= k < 16 * l.words && Bit(l.planes[p][k / 16], 15 - k % 16)
  {
    hide Bit, DigitOf, IndexOf, Place;
    PlaneDigit(l, x - l.Left() - l.Scroll(0), x - l.Left() - l.Scroll(1), l.depth, p);
    assert ColumnOf(l, p, x) == x - l.Left() - l.Scroll(p % 2);
  }

  lemma DecodeBits(b0: bool, b1: bool, b2: bool, b3: bool, b4: bool, b5: bool)
    ensures
      var d := DualDecode(Value(b0, 1) + Value(b1, 2) + Value(b2, 4) + Value(b3, 8) + Value(b4, 16) + Value(b5, 32));
      && d.pf1 == Value(b0, 1) + Value(b2, 2) + Value(b4, 4)
      && d.pf2 == (if b1 || b3 || b5 then 8 + Value(b1, 1) + Value(b3, 2) + Value(b5, 4) else 0)
  {
    hide Value, DigitOf;
    ValueScales(b0);
    ValueScales(b1);
    ValueScales(b2);
    ValueScales(b3);
    ValueScales(b4);
    ValueScales(b5);
    Digits(Value(b0, 1), Value(b1, 1), Value(b2, 1), Value(b3, 1), Value(b4, 1), Value(b5, 1));
  }

  lemma ValueScales(b: bool)
    ensures 0 <= Value(b, 1) <= 1 && (Value(b, 1) == 1 <==> b)
    ensures Value(b, 2) == 2 * Value(b, 1) && Value(b, 4) == 4 * Value(b, 1)
    ensures Value(b, 8) == 8 * Value(b, 1) && Value(b, 16) == 16 * Value(b, 1) && Value(b, 32) == 32 * Value(b, 1)
  {
  }

  /** The digit at `place`, between the digits below it and those above. */
  lemma Digit(v: nat, place: nat, low: nat, digit: nat, high: nat)
    requires low < place && digit < 2 && v == (digit + 2 * high) * place + low
    ensures DigitOf(v, place) == digit
  {
    Division(digit + 2 * high, place, low);
  }

  lemma Digits(x0: nat, x1: nat, x2: nat, x3: nat, x4: nat, x5: nat)
    requires x0 < 2 && x1 < 2 && x2 < 2 && x3 < 2 && x4 < 2 && x5 < 2
    ensures var v := x0 + 2 * x1 + 4 * x2 + 8 * x3 + 16 * x4 + 32 * x5;
      && DigitOf(v, 1) == x0 && DigitOf(v, 2) == x1 && DigitOf(v, 4) == x2
      && DigitOf(v, 8) == x3 && DigitOf(v, 16) == x4 && DigitOf(v, 32) == x5
  {
    hide DigitOf;
    var v := x0 + 2 * x1 + 4 * x2 + 8 * x3 + 16 * x4 + 32 * x5;
    Digit(v, 1, 0, x0, x1 + 2 * x2 + 4 * x3 + 8 * x4 + 16 * x5);
    Digit(v, 2, x0, x1, x2 + 2 * x3 + 4 * x4 + 8 * x5);
    Digit(v, 4, x0 + 2 * x1, x2, x3 + 2 * x4 + 4 * x5);
    Digit(v, 8, x0 + 2 * x1 + 4 * x2, x3, x4 + 2 * x5);
    Digit(v, 16, x0 + 2 * x1 + 4 * x2 + 8 * x3, x4, x5);
    Digit(v, 32, x0 + 2 * x1 + 4 * x2 + 8 * x3 + 16 * x4, x5, 0);
  }

  /** Each playfield depends on its own column only. */
  lemma FirstIsSeparate(l: Line, k1: int, k2: int, m2: int, n: nat)
    requires l.Valid() && n <= 6
    ensures DualDecode(IndexOf(l, k1, k2, n)).pf1 == DualDecode(IndexOf(l, k1, m2, n)).pf1
  {
    hide PlaneBit, DualDecode, Value;
    IndexIsBits(l, k1, k2, n);
    IndexIsBits(l, k1, m2, n);
    DecodeBits(PlaneOn(l, k1, k2, n, 0), PlaneOn(l, k1, k2, n, 1), PlaneOn(l, k1, k2, n, 2),
               PlaneOn(l, k1, k2, n, 3), PlaneOn(l, k1, k2, n, 4), PlaneOn(l, k1, k2, n, 5));
    DecodeBits(PlaneOn(l, k1, m2, n, 0), PlaneOn(l, k1, m2, n, 1), PlaneOn(l, k1, m2, n, 2),
               PlaneOn(l, k1, m2, n, 3), PlaneOn(l, k1, m2, n, 4), PlaneOn(l, k1, m2, n, 5));
  }

  lemma SecondIsSeparate(l: Line, k1: int, k2: int, m1: int, n: nat)
    requires l.Valid() && n <= 6
    ensures DualDecode(IndexOf(l, k1, k2, n)).pf2 == DualDecode(IndexOf(l, m1, k2, n)).pf2
  {
    hide PlaneBit, DualDecode, Value;
    IndexIsBits(l, k1, k2, n);
    IndexIsBits(l, m1, k2, n);
    DecodeBits(PlaneOn(l, k1, k2, n, 0), PlaneOn(l, k1, k2, n, 1), PlaneOn(l, k1, k2, n, 2),
               PlaneOn(l, k1, k2, n, 3), PlaneOn(l, k1, k2, n, 4), PlaneOn(l, k1, k2, n, 5));
    DecodeBits(PlaneOn(l, m1, k2, n, 0), PlaneOn(l, m1, k2, n, 1), PlaneOn(l, m1, k2, n, 2),
               PlaneOn(l, m1, k2, n, 3), PlaneOn(l, m1, k2, n, 4), PlaneOn(l, m1, k2, n, 5));
  }

  /** Which of the two playfields shows. */
  function DualResolve(d: DualPixel, bit6: bool): nat {
    if d.pf2 > 0 && d.pf1 > 0 then (if bit6 then d.pf2 else d.pf1)
    else if d.pf2 > 0 then d.pf2
    else d.pf1
  }

  // ---------------------------------------------------------------- sprites

  datatype Sprite = Sprite(data: Word, datb: Word, hstart: U16, vstart: U16, vstop: U16, armed: bool)

  /** `attached` holds the odd sprites whose attach bit is set. */
  datatype SpriteSet = SpriteSet(sp: seq<Sprite>, attached: set<nat>) {
    ghost predicate Valid() {
      |sp| == SPRITES && forall i: nat | i < SPRITES :: sp[i].hstart < 512 && sp[i].vstart < 512 && sp[i].vstop < 512
    }
  }

  predicate Attached(s: SpriteSet, i: nat) {
    i % 2 == 1 && i in s.attached
  }

  /** The two-bit value a sprite shifts out at `x`: its data words from the most
      significant bit on, sixteen columns from its start. */
  function PixelOf(sp: Sprite, x: int): (pixel: nat)
    ensures pixel < 4
  {
    var column := x - sp.hstart;
    if sp.armed && 0 <= column < 16
    then Value(Bit(sp.datb, 15 - column), 2) + Value(Bit(sp.data, 15 - column), 1) else 0
  }

  function SpritePixel(s: SpriteSet, i: nat, x: int): (pixel: nat)
    requires s.Valid() && i < SPRITES
    ensures pixel < 4
  {
    PixelOf(s.sp[i], x)
  }

  /** The colour of an attached pair, or zero. */
  function AttachedPixel(s: SpriteSet, even: nat, x: int): (color: nat)
    requires s.Valid() && even + 1 < SPRITES
    ensures color == 0 || 16 < color < 32
  {
    var low, high := SpritePixel(s, even, x), SpritePixel(s, even + 1, x);
    if low == 0 && high == 0 then 0 else 16 + high * 4 + low
  }

  /** Whether sprite `i` is on line `y` at all. */
  predicate OnLine(s: SpriteSet, i: nat, y: U16)
    requires s.Valid() && i < SPRITES
  {
    var sp := s.sp[i];
    sp.armed && sp.vstart <= y < (if sp.vstop <= sp.vstart then sp.vstop + 256 else sp.vstop)
  }

  /** The palette colour that sprite `i` shows at `x` on line `y`, or zero. An
      attached odd sprite shows through its even partner. */
  function SpriteColor(s: SpriteSet, i: nat, x: int, y: U16): (color: nat)
    requires s.Valid() && i < SPRITES
    ensures color == 0 || 16 < color < 32
  {
    if Attached(s, i) || !OnLine(s, i, y) || !(s.sp[i].hstart <= x < s.sp[i].hstart + 16) then 0
    else if i % 2 == 0 && Attached(s, i + 1) then AttachedPixel(s, i, x)
    else
      var pixel := SpritePixel(s, i, x);
      if pixel == 0 then 0 else 16 + i / 2 * 4 + pixel
  }

  // --------------------------------------------------------------- priority

  /** The winner at a pixel: `number` is the winning sprite. */
  datatype Winner = OfSprite(number: nat, color: nat) | OfPlayfield(color: nat)

  /** The first sprite from `i` up that has a colour and goes over the playfield: one
      that is transparent, or whose priority lets sprites up to `7 - 2 * pfPrio` in
      front. */
  function Resolve(pfColor: nat, pfPrio: nat, colors: seq<nat>, i: nat): Winner
    requires |colors| == SPRITES && i <= SPRITES
    decreases SPRITES - i
  {
    if i == SPRITES then OfPlayfield(pfColor)
    else if colors[i] != 0 && (pfColor == 0 || i + 2 * pfPrio < 8) then OfSprite(i, colors[i])
    else Resolve(pfColor, pfPrio, colors, i + 1)
  }

  /** The scan of `priority.c`, first sprite to last with an early return. */
  method PriorityResolve(pfColor: nat, pfPrio: nat, colors: seq<nat>) returns (w: Winner)
    requires |colors| == SPRITES
    ensures w == Resolve(pfColor, pfPrio, colors, 0)
    ensures w.OfSprite? ==>
      && w.number < SPRITES && w.color == colors[w.number] != 0 && (pfColor == 0 || w.number + 2 * pfPrio < 8)
      && forall i: nat | i < w.number :: colors[i] == 0
    ensures w.OfPlayfield? ==>
      w.color == pfColor && forall i: nat | i < SPRITES :: colors[i] == 0 || (pfColor != 0 && i + 2 * pfPrio >= 8)
  {
    for i := 0 to SPRITES
      invariant Resolve(pfColor, pfPrio, colors, 0) == Resolve(pfColor, pfPrio, colors, i)
      invariant forall k: nat | k < i :: colors[k] == 0 || (pfColor != 0 && k + 2 * pfPrio >= 8)
    {
      var pair := i / 2;
      if colors[i] != 0 {
        if pfColor == 0 || pair + pfPrio < 4 { return OfSprite(i, colors[i]); }
      }
    }
    return OfPlayfield(pfColor);
  }
}
