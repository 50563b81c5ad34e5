/** Sixteen-bit words as the custom chips handle them: bit access, the barrel
    shifters, the minterm unit and the area-fill unit of the blitter, together
    with the fixed-width integer conversions that C performs implicitly. */
module Words {
  import opened Integers

  /** A word on the chip bus. */
  datatype Word = Word(bits: bv16)

  const ZERO := Word(0)
  const ONES := Word(0xFFFF)

  /** Conversion of an integer to `uint32_t`. */
  function ToU32(x: int): U32 {
    x % TWO_32
  }

  lemma ToU32Absorbs(x: int, d: int)
    ensures ToU32(ToU32(x) + d) == ToU32(x + d)
  {
  }

  /** Conversion of an integer to `int16_t` (two's complement truncation). */
  function ToI16(x: int): I16 {
    var low := x % TWO_16;
    if low < 0x8000 then low else low - TWO_16
  }

  /** The conversion gives the one value of its type that differs from `x` by a multiple of
      the type's size. */
  lemma ToU32Is(x: int, value: U32)
    ensures ToU32(x) == value <==> (x - value) % 0x1_0000_0000 == 0
  {
  }

  lemma ToI16Is(x: int, value: I16)
    ensures ToI16(x) == value <==> (x - value) % 0x1_0000 == 0
  {
  }

  // ---------------------------------------------------------------- bits

  /** The five-bit shift amount that stands for `i`. */
  function Index(i: nat): (r: bv5)
    requires i < 32
  {
    if i == 0 then 0 else Index(i - 1) + 1
  }

  lemma {:induction false} IndexAdd(i: nat, j: nat)
    requires i + j < 32
    ensures Index(i + j) == Index(i) + Index(j)
  {
    if j == 0 {
    } else {
      IndexAdd(i, j - 1);
    }
  }

  lemma IndexTable()
    ensures Index(0) == 0 && Index(1) == 1 && Index(2) == 2 && Index(3) == 3
    ensures Index(4) == 4 && Index(5) == 5 && Index(6) == 6 && Index(7) == 7
    ensures Index(8) == 8 && Index(9) == 9 && Index(10) == 10 && Index(11) == 11
    ensures Index(12) == 12 && Index(13) == 13 && Index(14) == 14
    ensures Index(15) == 15 && Index(16) == 16
  {
  }

  lemma IndexOrder(i: nat, j: nat)
    requires i < j <= 16
    ensures Index(i) < Index(j) <= 16
  {
    IndexTable();
  }

  predicate BitAt(w: bv16, i: bv5)
    requires i < 16
  {
    (w >> i) & 1 == 1
  }

  /** Bit `i` of `w`, bit 0 being the least significant. */
  predicate Bit(w: Word, i: nat)
    requires i < 16
  {
    IndexOrder(i, 16);
    BitAt(w.bits, Index(i))
  }

  lemma BitsAtDetermineWord(a: bv16, b: bv16)
    requires BitAt(a, 0) == BitAt(b, 0) && BitAt(a, 1) == BitAt(b, 1) && BitAt(a, 2) == BitAt(b, 2)
    requires BitAt(a, 3) == BitAt(b, 3) && BitAt(a, 4) == BitAt(b, 4) && BitAt(a, 5) == BitAt(b, 5)
    requires BitAt(a, 6) == BitAt(b, 6) && BitAt(a, 7) == BitAt(b, 7) && BitAt(a, 8) == BitAt(b, 8)
    requires BitAt(a, 9) == BitAt(b, 9) && BitAt(a, 10) == BitAt(b, 10) && BitAt(a, 11) == BitAt(b, 11)
    requires BitAt(a, 12) == BitAt(b, 12) && BitAt(a, 13) == BitAt(b, 13) && BitAt(a, 14) == BitAt(b, 14)
    requires BitAt(a, 15) == BitAt(b, 15)
    ensures a == b
  {
  }

  lemma BitIsBitAt(w: Word, i: nat)
    requires i < 16
    ensures Index(i) < 16 && Bit(w, i) == BitAt(w.bits, Index(i))
  {
    IndexOrder(i, 16);
  }

  /** Two words with the same bits are the same word. */
  lemma BitsDetermineWord(a: Word, b: Word)
    requires forall i: nat | i < 16 :: Bit(a, i) == Bit(b, i)
    ensures a == b
  {
    IndexTable();
    forall i: nat | i < 16
      ensures Index(i) < 16 && BitAt(a.bits, Index(i)) == BitAt(b.bits, Index(i))
    {
      BitIsBitAt(a, i);
      BitIsBitAt(b, i);
      assert Bit(a, i) == Bit(b, i);
    }
    BitsAtDetermineWord(a.bits, b.bits);
  }

  // ------------------------------------------------------- barrel shifter

  function JoinAscending(previous: bv16, current: bv16, s: bv5): bv16
    requires s < 16
  {
    (previous << (16 - s)) | (current >> s)
  }

  function JoinDescending(previous: bv16, current: bv16, s: bv5): bv16
    requires s < 16
  {
    (previous >> (16 - s)) | (current << s)
  }

  function ShiftAscending(previous: bv16, current: bv16, shift: nat): bv16
    requires shift < 16
  {
    if shift == 0 then current
    else
      IndexOrder(shift, 16);
      JoinAscending(previous, current, Index(shift))
  }

  function ShiftDescending(previous: bv16, current: bv16, shift: nat): bv16
    requires shift < 16
  {
    if shift == 0 then current
    else
      IndexOrder(shift, 16);
      JoinDescending(previous, current, Index(shift))
  }

  function Shift(descending: bool, previous: Word, current: Word, shift: nat): Word
    requires shift < 16
  {
    if descending then Word(ShiftDescending(previous.bits, current.bits, shift))
    else Word(ShiftAscending(previous.bits, current.bits, shift))
  }

  lemma ShiftAscendingBitAt(p: bv16, c: bv16, s: bv5, i: bv5, j: bv5)
    requires 0 < s < 16 && i < 16 && j == i + s
    ensures j < 16 ==> BitAt(JoinAscending(p, c, s), i) == BitAt(c, j)
    ensures j >= 16 ==> BitAt(JoinAscending(p, c, s), i) == BitAt(p, j - 16)
  {
  }

  lemma ShiftDescendingBitAt(p: bv16, c: bv16, s: bv5, i: bv5, j: bv5)
    requires 0 < s < 16 && i < 16 && j + s == i + 16
    ensures j >= 16 ==> BitAt(JoinDescending(p, c, s), i) == BitAt(c, j - 16)
    ensures j < 16 ==> BitAt(JoinDescending(p, c, s), i) == BitAt(p, j)
  {
  }

  /** Position `k` of a word in the order in which the blitter streams it: from
      the most significant bit when ascending, from the least when descending. */
  predicate StreamBit(descending: bool, w: Word, k: nat)
    requires k < 16
  {
    Bit(w, if descending then k else 15 - k)
  }

  lemma IndexSixteenMore(i: nat)
    requires i < 16
    ensures Index(i + 16) == Index(i) + 16 && Index(i + 16) - 16 == Index(i) && Index(i) < 16 <= Index(i + 16)
  {
    IndexAdd(i, 16);
    IndexTable();
    IndexOrder(i, 16);
  }

  lemma ShiftAscendingBit(p: bv16, c: bv16, shift: nat, i: nat)
    requires shift < 16 && i < 16
    ensures Bit(Word(ShiftAscending(p, c, shift)), i)
         == if i + shift < 16 then Bit(Word(c), i + shift) else Bit(Word(p), i + shift - 16)
  {
    hide BitAt, Index, JoinAscending;
    if shift > 0 {
      IndexOrder(0, shift);
      IndexOrder(shift, 16);
      IndexOrder(i, 16);
      IndexAdd(i, shift);
      ShiftAscendingBitAt(p, c, Index(shift), Index(i), Index(i + shift));
      if i + shift < 16 {
        IndexOrder(i + shift, 16);
      } else {
        IndexSixteenMore(i + shift - 16);
      }
    }
  }

  lemma ShiftDescendingBit(p: bv16, c: bv16, shift: nat, i: nat)
    requires shift < 16 && i < 16
    ensures Bit(Word(ShiftDescending(p, c, shift)), i)
         == if i >= shift then Bit(Word(c), i - shift) else Bit(Word(p), 16 + i - shift)
  {
    hide BitAt, Index, JoinDescending;
    if shift > 0 {
      DescendingIndices(shift, i);
      ShiftDescendingBitAt(p, c, Index(shift), Index(i), Index(16 + i - shift));
    }
  }

  lemma DescendingIndices(shift: nat, i: nat)
    requires 0 < shift < 16 && i < 16
    ensures 0 < Index(shift) < 16 && Index(i) < 16 && Index(16 + i - shift) + Index(shift) == Index(i) + 16
    ensures i >= shift ==> Index(16 + i - shift) >= 16 && Index(16 + i - shift) - 16 == Index(i - shift)
    ensures i < shift ==> Index(16 + i - shift) < 16
  {
    hide Index;
    IndexOrder(0, shift);
    IndexOrder(shift, 16);
    IndexSixteenMore(i);
    IndexAdd(16 + i - shift, shift);
    if i >= shift {
      IndexSixteenMore(i - shift);
    } else {
      IndexOrder(16 + i - shift, 16);
    }
  }

  /** In stream order the shifter delays by `shift` positions, in both directions. */
  lemma ShiftDelays(descending: bool, p: Word, c: Word, shift: nat, k: nat)
    requires shift < 16 && k < 16
    ensures StreamBit(descending, Shift(descending, p, c, shift), k)
         == if k >= shift then StreamBit(descending, c, k - shift) else StreamBit(descending, p, 16 + k - shift)
  {
    if descending {
      ShiftDescendingBit(p.bits, c.bits, shift, k);
    } else {
      ShiftAscendingBit(p.bits, c.bits, shift, 15 - k);
    }
  }

  function And(a: Word, b: Word): Word {
    Word(a.bits & b.bits)
  }

  lemma AndTwice(w: Word, a: Word, b: Word)
    ensures And(And(w, a), b) == And(w, And(a, b))
  {
    AndAssociates(w.bits, a.bits, b.bits);
  }

  lemma AndAssociates(a: bv16, b: bv16, c: bv16)
    ensures (a & b) & c == a & (b & c)
  {
  }

  lemma AndOnes(w: Word)
    ensures And(w, ONES) == And(ONES, w) == w
  {
  }

  lemma AndBitAt(a: bv16, b: bv16, i: bv5)
    requires i < 16
    ensures BitAt(a & b, i) == (BitAt(a, i) && BitAt(b, i))
  {
  }

  lemma AndBit(a: Word, b: Word, i: nat)
    requires i < 16
    ensures Bit(And(a, b), i) == (Bit(a, i) && Bit(b, i))
  {
    hide BitAt, Index;
    IndexOrder(i, 16);
    AndBitAt(a.bits, b.bits, Index(i));
  }

  lemma OnesAt(i: bv5)
    requires i < 16
    ensures BitAt(0xFFFF, i)
  {
  }

  lemma BitOfOnes(i: nat)
    requires i < 16
    ensures Bit(ONES, i)
  {
    IndexOrder(i, 16);
    OnesAt(Index(i));
  }

  // --------------------------------------------------------- minterm unit

  /** One line of the sum of products: the product joins the sum when its minterm bit is set. */
  function AddTerm(sum: bv16, on: bool, x: bv16, y: bv16, z: bv16): bv16 {
    if on then sum | (x & y & z) else sum
  }

  function SumOfProducts(minterm: bv8, a: bv16, b: bv16, c: bv16, na: bv16, nb: bv16, nc: bv16): bv16 {
    var d1 := AddTerm(0, minterm & 0x80 != 0, a, b, c);
    var d2 := AddTerm(d1, minterm & 0x40 != 0, a, b, nc);
    var d3 := AddTerm(d2, minterm & 0x20 != 0, a, nb, c);
    var d4 := AddTerm(d3, minterm & 0x10 != 0, a, nb, nc);
    var d5 := AddTerm(d4, minterm & 0x08 != 0, na, b, c);
    var d6 := AddTerm(d5, minterm & 0x04 != 0, na, b, nc);
    var d7 := AddTerm(d6, minterm & 0x02 != 0, na, nb, c);
    var d8 := AddTerm(d7, minterm & 0x01 != 0, na, nb, nc);
    d8
  }

  function Complement(a: bv16): bv16 {
    !a
  }

  /** The word-wide minterm unit. */
  function Logic(minterm: bv8, a: Word, b: Word, c: Word): Word {
    Word(SumOfProducts(minterm, a.bits, b.bits, c.bits, Complement(a.bits), Complement(b.bits), Complement(c.bits)))
  }

  function TableIndex(a: bool, b: bool, c: bool): (r: bv4)
    ensures r < 8
  {
    (if a then 4 else 0) | (if b then 2 else 0) | (if c then 1 else 0)
  }

  /** The minterm byte read as a truth table: bit 4a + 2b + c of the byte. */
  predicate TableBit(minterm: bv8, a: bool, b: bool, c: bool) {
    (minterm >> TableIndex(a, b, c)) & 1 == 1
  }

  lemma TableBitIsMask(m: bv8)
    ensures TableBit(m, true, true, true) == (m & 0x80 != 0) && TableBit(m, true, true, false) == (m & 0x40 != 0)
    ensures TableBit(m, true, false, true) == (m & 0x20 != 0) && TableBit(m, true, false, false) == (m & 0x10 != 0)
    ensures TableBit(m, false, true, true) == (m & 0x08 != 0) && TableBit(m, false, true, false) == (m & 0x04 != 0)
    ensures TableBit(m, false, false, true) == (m & 0x02 != 0) && TableBit(m, false, false, false) == (m & 0x01 != 0)
  {
  }

  lemma AddTermAt(sum: bv16, on: bool, x: bv16, y: bv16, z: bv16, i: bv5)
    requires i < 16
    ensures BitAt(AddTerm(sum, on, x, y, z), i)
         == (BitAt(sum, i) || (on && BitAt(x, i) && BitAt(y, i) && BitAt(z, i)))
  {
  }

  lemma SumOfProductsAt(m: bv8, a: bv16, b: bv16, c: bv16, na: bv16, nb: bv16, nc: bv16, i: bv5)
    requires i < 16
    requires BitAt(na, i) == !BitAt(a, i) && BitAt(nb, i) == !BitAt(b, i) && BitAt(nc, i) == !BitAt(c, i)
    ensures BitAt(SumOfProducts(m, a, b, c, na, nb, nc), i) == TableBit(m, BitAt(a, i), BitAt(b, i), BitAt(c, i))
  {
    hide BitAt, TableBit, AddTerm;
    ZeroAt(i);
    TableBitIsMask(m);
    var d1 := AddTerm(0, m & 0x80 != 0, a, b, c);
    AddTermAt(0, m & 0x80 != 0, a, b, c, i);
    var d2 := AddTerm(d1, m & 0x40 != 0, a, b, nc);
    AddTermAt(d1, m & 0x40 != 0, a, b, nc, i);
    var d3 := AddTerm(d2, m & 0x20 != 0, a, nb, c);
    AddTermAt(d2, m & 0x20 != 0, a, nb, c, i);
    var d4 := AddTerm(d3, m & 0x10 != 0, a, nb, nc);
    AddTermAt(d3, m & 0x10 != 0, a, nb, nc, i);
    var d5 := AddTerm(d4, m & 0x08 != 0, na, b, c);
    AddTermAt(d4, m & 0x08 != 0, na, b, c, i);
    var d6 := AddTerm(d5, m & 0x04 != 0, na, b, nc);
    AddTermAt(d5, m & 0x04 != 0, na, b, nc, i);
    var d7 := AddTerm(d6, m & 0x02 != 0, na, nb, c);
    AddTermAt(d6, m & 0x02 != 0, na, nb, c, i);
    var d8 := AddTerm(d7, m & 0x01 != 0, na, nb, nc);
    AddTermAt(d7, m & 0x01 != 0, na, nb, nc, i);
  }

  lemma ZeroAt(i: bv5)
    requires i < 16
    ensures !BitAt(0, i)
  {
  }

  lemma ComplementAt(a: bv16, i: bv5)
    requires i < 16
    ensures BitAt(Complement(a), i) == !BitAt(a, i)
  {
  }

  /** The word-wide unit looks up every bit column in the minterm table. */
  lemma LogicBit(m: bv8, a: Word, b: Word, c: Word, i: nat)
    requires i < 16
    ensures Bit(Logic(m, a, b, c), i) == TableBit(m, Bit(a, i), Bit(b, i), Bit(c, i))
  {
    hide BitAt, Index, TableBit, SumOfProducts, Complement;
    IndexOrder(i, 16);
    ComplementAt(a.bits, Index(i));
    ComplementAt(b.bits, Index(i));
    ComplementAt(c.bits, Index(i));
    SumOfProductsAt(m, a.bits, b.bits, c.bits, Complement(a.bits), Complement(b.bits), Complement(c.bits), Index(i));
  }

  function SetBitAt(w: bv16, i: bv5): bv16
    requires i < 16
  {
    w | (1 << i)
  }

  /** `w |= 1 << i` */
  function SetBit(w: Word, i: nat): Word
    requires i < 16
  {
    IndexOrder(i, 16);
    Word(SetBitAt(w.bits, Index(i)))
  }

  lemma SetBitAtAt(w: bv16, i: bv5, k: bv5)
    requires i < 16 && k < 16
    ensures BitAt(SetBitAt(w, i), k) == (k == i || BitAt(w, k))
  {
  }

  lemma BitOfSetBit(w: Word, i: nat, k: nat)
    requires i < 16 && k < 16
    ensures Bit(SetBit(w, i), k) == (k == i || Bit(w, k))
  {
    hide BitAt, Index, SetBitAt;
    IndexOrder(i, 16);
    IndexOrder(k, 16);
    SetBitAtAt(w.bits, Index(i), Index(k));
    if i < k {
      IndexOrder(i, k);
    } else if k < i {
      IndexOrder(k, i);
    }
  }

  lemma BitOfZero(k: nat)
    requires k < 16
    ensures !Bit(ZERO, k)
  {
    IndexOrder(k, 16);
    ZeroAt(Index(k));
  }

  /** The per-bit minterm loop computes what the word-wide unit computes. */
  method LogicByColumn(minterm: bv8, a: Word, b: Word, c: Word) returns (result: Word)
    ensures result == Logic(minterm, a, b, c)
  {
    hide Bit, TableBit, Logic, SetBit;
    result := ZERO;
    forall k: nat | k < 16 ensures !Bit(result, k) {
      BitOfZero(k);
    }
    for bit := 0 to 16
      invariant forall k: nat | k < bit :: Bit(result, k) == TableBit(minterm, Bit(a, k), Bit(b, k), Bit(c, k))
      invariant forall k: nat | bit <= k < 16 :: !Bit(result, k)
    {
      forall k: nat | k < 16 ensures Bit(SetBit(result, bit), k) == (k == bit || Bit(result, k)) {
        BitOfSetBit(result, bit, k);
      }
      if TableBit(minterm, Bit(a, bit), Bit(b, bit), Bit(c, bit)) {
        result := SetBit(result, bit);
      }
    }
    forall k: nat | k < 16 ensures Bit(result, k) == Bit(Logic(minterm, a, b, c), k) {
      LogicBit(minterm, a, b, c, k);
    }
    BitsDetermineWord(result, Logic(minterm, a, b, c));
  }

  // ------------------------------------------------------------- area fill

  /** Parity of the first `k` bits of `d` in stream order. */
  predicate Parity(descending: bool, d: Word, k: nat)
    requires k <= 16
  {
    k > 0 && (StreamBit(descending, d, k - 1) != Parity(descending, d, k - 1))
  }

  /** The first `k` stream positions filled: a position is inside a span when the
      carry into the word and the parity up to and including it differ. */
  function FillPrefix(descending: bool, d: Word, carry: bool, k: nat): Word
    requires k <= 16
  {
    if k == 0 then ZERO
    else
      var w := FillPrefix(descending, d, carry, k - 1);
      if carry != Parity(descending, d, k) then SetBit(w, if descending then k - 1 else 16 - k) else w
  }

  function Fill(descending: bool, d: Word, carry: bool): Word {
    FillPrefix(descending, d, carry, 16)
  }

  /** Whether a span is still open behind the word. */
  predicate FillCarry(descending: bool, d: Word, carry: bool) {
    carry != Parity(descending, d, 16)
  }

  lemma {:induction false} FillPrefixBit(descending: bool, d: Word, carry: bool, k: nat, i: nat)
    requires k <= 16 && i < 16
    ensures StreamBit(descending, FillPrefix(descending, d, carry, k), i)
         == (i < k && (carry != Parity(descending, d, i + 1)))
  {
    hide Bit, SetBit;
    var j := if descending then i else 15 - i;
    if k == 0 {
      BitOfZero(j);
    } else {
      FillPrefixBit(descending, d, carry, k - 1, i);
      BitOfSetBit(FillPrefix(descending, d, carry, k - 1), if descending then k - 1 else 16 - k, j);
    }
  }

  /** The bit loops of the fill unit. Both modes and both directions keep the
      same running parity, so all four loops compute `Fill`. */
  method FillWord(d: Word, carryIn: bool, inclusive: bool, descending: bool)
    returns (result: Word, carry: bool)
    ensures result == Fill(descending, d, carryIn)
    ensures carry == FillCarry(descending, d, carryIn)
  {
    hide Bit, SetBit;
    result, carry := ZERO, carryIn;
    if !descending {
      var i := 15;
      while i >= 0
        invariant -1 <= i <= 15
        invariant carry == (carryIn != Parity(descending, d, 15 - i))
        invariant result == FillPrefix(descending, d, carryIn, 15 - i)
      {
        var bit := Bit(d, i);
        if inclusive {
          if bit { carry := !carry; }
          if carry { result := SetBit(result, i); }
        } else {
          if carry != bit { result := SetBit(result, i); }
          if bit { carry := !carry; }
        }
        i := i - 1;
      }
    } else {
      var i := 0;
      while i <= 15
        invariant 0 <= i <= 16
        invariant carry == (carryIn != Parity(descending, d, i))
        invariant result == FillPrefix(descending, d, carryIn, i)
      {
        var bit := Bit(d, i);
        if inclusive {
          if bit { carry := !carry; }
          if carry { result := SetBit(result, i); }
        } else {
          if carry != bit { result := SetBit(result, i); }
          if bit { carry := !carry; }
        }
        i := i + 1;
      }
    }
  }
}
