/** What area blits mean: bit-stream shifts, parity fills and block moves. */
module BlitterTheorems {
  import opened Arithmetic
  import opened BlitterStream
  import opened Integers
  import opened Words

  // ----------------------------------------------------------------- masks

  /** Whether the masks let bit `i` of word `n` through: AFWM masks the first word of
      each row and ALWM the last. */
  predicate Kept(c: BlitCommand, n: nat, i: nat)
    requires c.width > 0 && i < 16
  {
    && (n % c.width == 0 ==> Bit(c.afwm, i))
    && (n % c.width == c.width - 1 ==> Bit(c.alwm, i))
  }

  /** A masked bit is a bit of the word fetched that the masks let through. */
  lemma MaskedBit(c: BlitCommand, m: ChipRam, n: nat, i: nat)
    requires c.width > 0 && i < 16
    ensures Bit(MaskedA(c, m, n), i) == (Bit(FetchedA(c, m, n), i) && Kept(c, n, i))
  {
    hide Bit, FetchedA, And;
    var first := if n % c.width == 0 then c.afwm else ONES;
    var last := if n % c.width + 1 == c.width then c.alwm else ONES;
    BitOfOnes(i);
    AndBit(first, last, i);
    AndBit(FetchedA(c, m, n), And(first, last), i);
  }

  // ------------------------------------------------------- barrel shifters

  /** Bit `k` of the masked A source, all words of all rows taken as one stream. */
  predicate SourceBitA(c: BlitCommand, m: ChipRam, k: nat) {
    StreamBit(c.descending, MaskedA(c, m, k / 16), k % 16)
  }

  predicate OutputBitA(c: BlitCommand, m: ChipRam, k: nat) {
    StreamBit(c.descending, AlignedA(c, m, k / 16), k % 16)
  }

  predicate SourceBitB(c: BlitCommand, m: ChipRam, k: nat) {
    StreamBit(c.descending, FetchedB(c, m, k / 16), k % 16)
  }

  predicate OutputBitB(c: BlitCommand, m: ChipRam, k: nat) {
    StreamBit(c.descending, AlignedB(c, m, k / 16), k % 16)
  }

  /** The A shifter delays the whole blit by `ashift` bits, across words and rows. */
  lemma ShifterADelaysStream(c: BlitCommand, m: ChipRam, k: nat)
    ensures OutputBitA(c, m, k) == (k >= c.ashift && SourceBitA(c, m, k - c.ashift))
  {
    hide Shift, StreamBit, MaskedA;
    var n, i, s := k / 16, k % 16, c.ashift;
    var previous := if n == 0 then ZERO else MaskedA(c, m, n - 1);
    ShiftDelays(c.descending, previous, MaskedA(c, m, n), s, i);
    StreamIndex(k, s);
    if n == 0 && i < s {
      ZeroStreamBit(c.descending, 16 + i - s);
    }
  }

  /** So does the B shifter by `bshift` bits, when the B channel is on; when it
      is off every word is the hold register. */
  lemma ShifterBDelaysStream(c: BlitCommand, m: ChipRam, k: nat)
    ensures c.useB ==> OutputBitB(c, m, k) == (k >= c.bshift && SourceBitB(c, m, k - c.bshift))
    ensures !c.useB ==> AlignedB(c, m, k) == c.bhold
  {
    hide Shift, StreamBit, FetchedB;
    if c.useB {
      var n, i, s := k / 16, k % 16, c.bshift;
      var previous := if n == 0 then ZERO else FetchedB(c, m, n - 1);
      ShiftDelays(c.descending, previous, FetchedB(c, m, n), s, i);
      StreamIndex(k, s);
      if n == 0 && i < s {
        ZeroStreamBit(c.descending, 16 + i - s);
      }
    }
  }

  lemma StreamIndex(k: nat, s: nat)
    requires s < 16
    ensures k % 16 >= s ==> k >= s && (k - s) / 16 == k / 16 && (k - s) % 16 == k % 16 - s
    ensures k % 16 < s && k >= 16 ==> (k - s) / 16 == k / 16 - 1 && (k - s) % 16 == 16 + k % 16 - s
    ensures k % 16 < s && k < 16 ==> k < s
  {
  }

  lemma ZeroStreamBit(descending: bool, k: nat)
    requires k < 16
    ensures !StreamBit(descending, ZERO, k)
  {
    BitOfZero(if descending then k else 15 - k);
  }

  // ---------------------------------------------------------- minterm table

  /** Bit `k` of the C source; the C channel has no shifter. */
  predicate SourceBitC(c: BlitCommand, m: ChipRam, k: nat) {
    StreamBit(c.descending, FetchedC(c, m, k / 16), k % 16)
  }

  /** Before the fill each bit of a blit is the minterm's table entry for the masked
      A source `ashift` bits before, the B source `bshift` bits before or the hold
      register, and the C source. */
  lemma CombinedBit(c: BlitCommand, m: ChipRam, k: nat)
    ensures StreamBit(c.descending, Combined(c, m, k / 16), k % 16)
         == TableBit(c.minterm,
                     k >= c.ashift && SourceBitA(c, m, k - c.ashift),
                     if c.useB then k >= c.bshift && SourceBitB(c, m, k - c.bshift)
                     else StreamBit(c.descending, c.bhold, k % 16),
                     SourceBitC(c, m, k))
  {
    hide Logic, Bit, TableBit, AlignedA, AlignedB, FetchedC, SourceBitA, SourceBitB;
    var n, i := k / 16, if c.descending then k % 16 else 15 - k % 16;
    ShifterADelaysStream(c, m, k);
    ShifterBDelaysStream(c, m, if c.useB then k else n);
    LogicBit(c.minterm, AlignedA(c, m, n), AlignedB(c, m, n), FetchedC(c, m, n), i);
  }

  // ------------------------------------------------------------- area fill

  predicate RowInput(c: BlitCommand, m: ChipRam, y: nat, p: nat) {
    StreamBit(c.descending, Combined(c, m, y * c.width + p / 16), p % 16)
  }

  predicate RowOutput(c: BlitCommand, m: ChipRam, y: nat, p: nat) {
    StreamBit(c.descending, WordD(c, m, y * c.width + p / 16), p % 16)
  }

  /** Parity of the first `p` bits of row `y`. */
  predicate RowParity(c: BlitCommand, m: ChipRam, y: nat, p: nat) {
    p > 0 && (RowInput(c, m, y, p - 1) != RowParity(c, m, y, p - 1))
  }

  lemma {:induction false} RowParityByWords(c: BlitCommand, m: ChipRam, y: nat, x: nat, i: nat)
    requires i <= 16
    ensures RowParity(c, m, y, 16 * x + i)
         == (RowParity(c, m, y, 16 * x) != Parity(c.descending, Combined(c, m, y * c.width + x), i))
  {
    hide Combined, StreamBit;
    if i == 0 {
    } else {
      RowParityByWords(c, m, y, x, i - 1);
      assert (16 * x + i - 1) / 16 == x && (16 * x + i - 1) % 16 == i - 1;
    }
  }

  lemma {:induction false} CarryIsRowParity(c: BlitCommand, m: ChipRam, y: nat, x: nat)
    requires x < c.width && !c.fillMode.NoFill?
    ensures Carry(c, m, y * c.width + x) == (c.fillCarryIn != RowParity(c, m, y, 16 * x))
  {
    hide Combined, StreamBit, Parity, RowInput;
    RowAndColumn(c, y, x);
    if x == 0 {
    } else {
      CarryIsRowParity(c, m, y, x - 1);
      RowParityByWords(c, m, y, x - 1, 16);
      assert y * c.width + x - 1 == y * c.width + (x - 1);
    }
  }

  /** A filled row is its prefix parity, each row starting from the carry-in
      alone; differencing neighbouring output bits recovers the row. */
  lemma FilledRowIsPrefixParity(c: BlitCommand, m: ChipRam, y: nat, p: nat)
    requires p < 16 * c.width && !c.fillMode.NoFill?
    ensures RowOutput(c, m, y, p) == (c.fillCarryIn != RowParity(c, m, y, p + 1))
    ensures RowInput(c, m, y, p) ==
      (RowOutput(c, m, y, p) != if p == 0 then c.fillCarryIn else RowOutput(c, m, y, p - 1))
  {
    hide RowInput, RowOutput;
    FilledRowBit(c, m, y, p);
    if p > 0 {
      FilledRowBit(c, m, y, p - 1);
    }
  }

  lemma FilledRowBit(c: BlitCommand, m: ChipRam, y: nat, p: nat)
    requires p < 16 * c.width && !c.fillMode.NoFill?
    ensures RowOutput(c, m, y, p) == (c.fillCarryIn != RowParity(c, m, y, p + 1))
  {
    hide Combined, StreamBit, Parity, RowParity, Carry;
    var x, i := p / 16, p % 16;
    CarryIsRowParity(c, m, y, x);
    RowParityByWords(c, m, y, x, i + 1);
    var n := y * c.width + x;
    FillPrefixBit(c.descending, Combined(c, m, n), Carry(c, m, n), 16, i);
    assert 16 * x + (i + 1) == p + 1;
  }

  // ------------------------------------------------------------ block moves

  /** Where destination word `k` goes. */
  function Target(c: BlitCommand, k: nat): (i: nat)
    ensures i < CHIP_WORDS
  {
    WordIndex(PointerD(c, k))
  }

  function Origin(c: BlitCommand, k: nat): (i: nat)
    ensures i < CHIP_WORDS
  {
    WordIndex(PointerA(c, k))
  }

  /** A location that no destination word in [from, k) lands on keeps its word. */
  lemma {:induction false} WrittenKeeps(c: BlitCommand, m: ChipRam, from: nat, k: nat, i: nat)
    requires from <= k && i < CHIP_WORDS
    requires forall l: nat | from <= l < k :: Target(c, l) != i
    ensures Written(c, m, k)[i] == Written(c, m, from)[i]
  {
    hide WordD, PointerD, WordIndex;
    if from == k {
    } else {
      WrittenKeeps(c, m, from, k - 1, i);
      assert Target(c, k - 1) != i;
    }
  }

  /** The last destination word to land on a location is the one found there. */
  lemma WrittenHolds(c: BlitCommand, m: ChipRam, j: nat, k: nat)
    requires c.useD && j < k
    requires forall l: nat | j < l < k :: Target(c, l) != Target(c, j)
    ensures Written(c, m, k)[Target(c, j)] == WordD(c, m, j)
  {
    hide WordD, PointerD, WordIndex;
    WrittenKeeps(c, m, j + 1, k, Target(c, j));
  }

  /** A straight copy: A through the minterm unit unchanged, no shift, no fill, no
      modulo. B and C may run; the minterm ignores them. */
  ghost predicate StraightCopy(c: BlitCommand) {
    && c.useA && c.useD && c.minterm == 0xF0 && c.ashift == 0 && c.amod == 0 && c.dmod == 0
    && c.fillMode.NoFill?
    && 0 < WordCount(c) <= CHIP_WORDS
  }

  /** The words from one place to another in the direction of travel. */
  function Forward(c: BlitCommand, from: int, to: int): int {
    if c.descending then from - to else to - from
  }

  /** How far the destination starts ahead of the source in the direction of
      travel, around the 2 MB address space. */
  function Lead(c: BlitCommand): nat {
    Forward(c, c.apt / 2, c.dpt / 2) % CHIP_WORDS
  }

  /** Every target holds what the masks keep of its origin's old word; everything else
      is untouched. */
  ghost predicate Moved(c: BlitCommand, m: ChipRam, after: ChipRam)
    requires c.width > 0
  {
    && (forall n: nat, i: nat | n < WordCount(c) && i < 16 ::
          Bit(after[Target(c, n)], i) == (Bit(m[Origin(c, n)], i) && Kept(c, n, i)))
    && (forall i: nat | i < CHIP_WORDS && (forall n: nat | n < WordCount(c) :: Target(c, n) != i) :: after[i] == m[i])
  }

  function Along(start: nat, descending: bool, n: nat): nat {
    (if descending then start - n else start + n) % CHIP_WORDS
  }

  lemma WordIndexIsHalf(x: int)
    ensures WordIndex(ToU32(x)) == WordIndex(x) == x / 2 % CHIP_WORDS
  {
    var q, r := x / CHIP_BYTES, x % CHIP_BYTES;
    var k, l := q / 0x800, q % 0x800;
    IntDivision(q, CHIP_BYTES, r);
    IntDivision(k, TWO_32, l * CHIP_BYTES + r);
    IntDivision(l, CHIP_BYTES, r);
    IntDivision(q, CHIP_WORDS, r / 2);
    assert x / 2 == q * CHIP_WORDS + r / 2;
  }

  lemma WordIndexAlong(p: U32, descending: bool, n: nat)
    ensures WordIndex(ToU32(if descending then p - 2 * n else p + 2 * n)) == Along(p / 2, descending, n)
  {
    hide WordIndex, ToU32;
    var x := if descending then p - 2 * n else p + 2 * n;
    WordIndexIsHalf(x);
    assert x / 2 == if descending then p / 2 - n else p / 2 + n;
  }

  /** Word `n` of a straight copy goes from the `n`-th word of memory after the A
      pointer to the `n`-th after the D pointer, or before them when descending. */
  lemma PlacesAlong(c: BlitCommand, n: nat)
    requires StraightCopy(c)
    ensures Target(c, n) == Along(c.dpt / 2, c.descending, n)
    ensures Origin(c, n) == Along(c.apt / 2, c.descending, n)
  {
    WordIndexAlong(c.dpt, c.descending, n);
    WordIndexAlong(c.apt, c.descending, n);
    assert Row(c, n) * c.amod == 0;
    assert Row(c, n) * c.dmod == 0;
  }

  lemma NearMod(a: int, b: int)
    requires 0 <= b < CHIP_WORDS
    ensures a % CHIP_WORDS == b <==> (a - b) % CHIP_WORDS == 0
  {
  }

  lemma SameMod(a: int, b: int)
    ensures a % CHIP_WORDS == b % CHIP_WORDS <==> (a - b) % CHIP_WORDS == 0
  {
  }

  lemma OppositeMod(a: int)
    ensures a % CHIP_WORDS == 0 <==> (0 - a) % CHIP_WORDS == 0
  {
  }

  lemma AlongMeet(s: nat, d: nat, descending: bool, n: nat, k: nat)
    requires k <= n < CHIP_WORDS
    ensures Along(s, descending, n) == Along(d, descending, k)
       <==> n - k == (if descending then s - d else d - s) % CHIP_WORDS
  {
    if descending {
      SameMod(s - n, d - k);
      NearMod(s - d, n - k);
      assert s - n - (d - k) == s - d - (n - k);
    } else {
      SameMod(s + n, d + k);
      NearMod(d - s, n - k);
      OppositeMod(d - s - (n - k));
      assert s + n - (d + k) == 0 - (d - s - (n - k));
    }
  }

  lemma PlacesMeet(c: BlitCommand, n: nat, k: nat)
    requires StraightCopy(c) && n < WordCount(c) && k < WordCount(c)
    ensures Target(c, n) == Target(c, k) <==> n == k
    ensures Origin(c, n) == Origin(c, k) <==> n == k
    ensures k <= n ==> (Origin(c, n) == Target(c, k) <==> n - k == Lead(c))
  {
    hide WordIndex;
    PlacesAlong(c, n);
    PlacesAlong(c, k);
    var a, d := c.apt / 2, c.dpt / 2;
    if k <= n {
      AlongMeet(a, d, c.descending, n, k);
      AlongMeet(a, a, c.descending, n, k);
      AlongMeet(d, d, c.descending, n, k);
    } else {
      AlongMeet(a, a, c.descending, k, n);
      AlongMeet(d, d, c.descending, k, n);
    }
  }

  /** Bit `i` of the word copied is that of its origin as the writes have left it. */
  lemma CopiedBit(c: BlitCommand, m: ChipRam, n: nat, i: nat)
    requires StraightCopy(c) && c.width > 0 && i < 16
    ensures Bit(WordD(c, m, n), i) == (Bit(Visible(c, m, n)[Origin(c, n)], i) && Kept(c, n, i))
  {
    hide Bit, Kept;
    assert WordD(c, m, n) == Combined(c, m, n);
    PassesA(AlignedA(c, m, n), AlignedB(c, m, n), FetchedC(c, m, n));
    assert AlignedA(c, m, n) == MaskedA(c, m, n);
    MaskedBit(c, m, n, i);
  }

  lemma PassesA(a: Word, b: Word, c: Word)
    ensures Logic(0xF0, a, b, c) == a
  {
  }

  lemma SomeWords(c: BlitCommand)
    requires WordCount(c) > 0
    ensures c.width > 0
  {
  }

  lemma NothingWritten(c: BlitCommand, m: ChipRam)
    ensures Written(c, m, 0) == m
  {
  }

  lemma TargetHolds(c: BlitCommand, m: ChipRam, n: nat)
    requires StraightCopy(c) && n < WordCount(c)
    ensures Written(c, m, WordCount(c))[Target(c, n)] == WordD(c, m, n)
  {
    hide Target, Origin, Lead, WordD, Written;
    forall l: nat | n < l < WordCount(c)
      ensures Target(c, l) != Target(c, n)
    {
      PlacesMeet(c, l, n);
    }
    WrittenHolds(c, m, n, WordCount(c));
  }

  lemma OthersStay(c: BlitCommand, m: ChipRam, i: nat)
    requires i < CHIP_WORDS && forall n: nat | n < WordCount(c) :: Target(c, n) != i
    ensures Written(c, m, WordCount(c))[i] == m[i]
  {
    WrittenKeeps(c, m, 0, WordCount(c), i);
    NothingWritten(c, m);
  }

  /** Whether the masks let any bit of word `n` through. */
  ghost predicate KeptSome(c: BlitCommand, n: nat)
    requires c.width > 0
  {
    exists i: nat :: i < 16 && Kept(c, n, i)
  }

  /** The lead that spoils a copy: the target is two words or more ahead of its
      source and inside the block, and some word that far into the blit passes the
      masks at all. */
  ghost predicate Spoils(c: BlitCommand)
    requires c.width > 0
  {
    Lead(c) >= 2 && exists n: nat :: Lead(c) <= n < WordCount(c) && KeptSome(c, n)
  }

  /** A fetch that no earlier write has reached finds the word that was there before. */
  lemma UnspoiledBefore(c: BlitCommand, m: ChipRam, n: nat)
    requires StraightCopy(c) && n < WordCount(c) && (Lead(c) <= 1 || n < Lead(c))
    ensures Visible(c, m, n)[Origin(c, n)] == m[Origin(c, n)]
  {
    hide Target, Origin, Lead, WordD, Written;
    if n > 0 {
      forall k: nat | k < n - 1
        ensures Target(c, k) != Origin(c, n)
      {
        PlacesMeet(c, n, k);
      }
      WrittenKeeps(c, m, 0, n - 1, Origin(c, n));
      NothingWritten(c, m);
    }
  }

  /** A word that an earlier write spoiled, but whose masks pass nothing of it. */
  lemma MaskedAway(c: BlitCommand, m: ChipRam, n: nat, i: nat)
    requires StraightCopy(c) && n < WordCount(c) && c.width > 0 && !Spoils(c) && i < 16
    ensures Bit(WordD(c, m, n), i) == (Bit(m[Origin(c, n)], i) && Kept(c, n, i))
  {
    hide Target, Origin, Lead, WordD, Written, Visible, Bit, Kept;
    CopiedBit(c, m, n, i);
    if Kept(c, n, i) {
      assert KeptSome(c, n);
      assert Lead(c) <= 1 || n < Lead(c);
      UnspoiledBefore(c, m, n);
    }
  }

  /** A memory blank but for the origin of word `n`. */
  function OneWord(c: BlitCommand, n: nat): ChipRam {
    seq(CHIP_WORDS, i => if i == Origin(c, n) then ONES else ZERO)
  }

  lemma ZeroBits(w: Word)
    ensures (forall i: nat | i < 16 :: !Bit(w, i)) <==> w == ZERO
  {
    hide Bit;
    forall i: nat | i < 16 ensures !Bit(ZERO, i) {
      BitOfZero(i);
    }
    if forall i: nat | i < 16 :: !Bit(w, i) { BitsDetermineWord(w, ZERO); }
  }

  /** Until a blit comes to the one word that is not blank it copies blanks. */
  lemma {:induction false} BlankBefore(c: BlitCommand, n: nat, k: nat)
    requires StraightCopy(c) && k < n < WordCount(c)
    ensures WordD(c, OneWord(c, n), k) == ZERO
    decreases k
  {
    hide Target, Origin, Lead, WordD, Written, Visible, Bit, Kept;
    SomeWords(c);
    var m := OneWord(c, n);
    PlacesMeet(c, n, k);
    BlankFetch(c, n, k);
    forall i: nat | i < 16 ensures !Bit(WordD(c, m, k), i) {
      CopiedBit(c, m, k, i);
      ZeroBits(ZERO);
    }
    ZeroBits(WordD(c, m, k));
  }

  lemma {:induction false} BlankFetch(c: BlitCommand, n: nat, k: nat)
    requires StraightCopy(c) && k < n < WordCount(c) && Origin(c, k) != Origin(c, n)
    ensures Visible(c, OneWord(c, n), k)[Origin(c, k)] == ZERO
    decreases k, 0
  {
    hide Target, Lead, WordD, Bit, Kept;
    if k > 0 { BlankMemory(c, n, k - 1, Origin(c, k)); }
  }

  /** Where no blank has been written there still is what there was. */
  lemma {:induction false} BlankMemory(c: BlitCommand, n: nat, k: nat, i: nat)
    requires StraightCopy(c) && k < n < WordCount(c) && i < CHIP_WORDS && i != Origin(c, n)
    ensures Written(c, OneWord(c, n), k)[i] == ZERO
    decreases k, 1
  {
    hide Target, Lead, WordD, Bit, Kept, Origin;
    if k == 0 {
    } else {
      BlankMemory(c, n, k - 1, i);
      BlankBefore(c, n, k - 1);
    }
  }

  /** An unsafe lead spoils a concrete memory. */
  lemma UnsafeLeadSpoils(c: BlitCommand, n: nat)
    requires StraightCopy(c) && 2 <= Lead(c) <= n < WordCount(c) && c.width > 0 && KeptSome(c, n)
    ensures !Moved(c, OneWord(c, n), Written(c, OneWord(c, n), WordCount(c)))
  {
    hide Target, Origin, Lead, WordD, Written, Bit, Kept;
    var m, k := OneWord(c, n), n - Lead(c);
    var i: nat :| i < 16 && Kept(c, n, i);
    PlacesMeet(c, n, k);
    BlankBefore(c, n, k);
    forall l: nat | k < l < n - 1
      ensures Target(c, l) != Target(c, k)
    {
      PlacesMeet(c, l, k);
    }
    WrittenHolds(c, m, k, n - 1);
    CopiedBit(c, m, n, i);
    ZeroBits(ZERO);
    TargetHolds(c, m, n);
    BitOfOnes(i);
    assert m[Origin(c, n)] == ONES;
  }

  /** A straight copy under any masks is a block move for every memory exactly when
      its target is at most one word ahead of its source, or clear of it, or all that
      an overlapping write spoils is masked away: the write of a word comes after the
      fetch of the next one, and no later. */
  lemma StraightCopyIsBlockMove(c: BlitCommand)
    requires StraightCopy(c)
    ensures c.width > 0
    ensures (forall m: ChipRam :: Moved(c, m, Written(c, m, WordCount(c)))) <==> !Spoils(c)
  {
    hide Lead, Written, WordCount, KeptSome, Bit, Target, Origin, Kept;
    SomeWords(c);
    if !Spoils(c) {
      forall m: ChipRam ensures Moved(c, m, Written(c, m, WordCount(c))) {
        UnspoiledMoves(c, m);
      }
    } else {
      var n: nat :| Lead(c) <= n < WordCount(c) && KeptSome(c, n);
      UnsafeLeadSpoils(c, n);
      assert !Moved(c, OneWord(c, n), Written(c, OneWord(c, n), WordCount(c)));
    }
  }

  lemma UnspoiledMoves(c: BlitCommand, m: ChipRam)
    requires StraightCopy(c) && c.width > 0 && !Spoils(c)
    ensures Moved(c, m, Written(c, m, WordCount(c)))
  {
    hide Target, Origin, Lead, WordD, Written, Bit, Kept, Spoils;
    var after := Written(c, m, WordCount(c));
    forall n: nat, i: nat | n < WordCount(c) && i < 16
      ensures Bit(after[Target(c, n)], i) == (Bit(m[Origin(c, n)], i) && Kept(c, n, i))
    {
      TargetHolds(c, m, n);
      MaskedAway(c, m, n, i);
    }
    forall i: nat | i < CHIP_WORDS && (forall n: nat | n < WordCount(c) :: Target(c, n) != i)
      ensures after[i] == m[i]
    {
      OthersStay(c, m, i);
    }
  }

  /** With full masks the condition is on the lead alone, and a move is of whole words. */
  lemma FullMasks(c: BlitCommand)
    requires StraightCopy(c) && c.width > 0 && c.afwm == ONES && c.alwm == ONES
    ensures Spoils(c) <==> 2 <= Lead(c) < WordCount(c)
    ensures forall m: ChipRam, after: ChipRam :: Moved(c, m, after) ==>
      forall n: nat | n < WordCount(c) :: after[Target(c, n)] == m[Origin(c, n)]
  {
    hide Target, Origin, Lead, Bit;
    forall i: nat | i < 16 ensures Bit(ONES, i) {
      BitOfOnes(i);
    }
    if 2 <= Lead(c) < WordCount(c) {
      assert Kept(c, Lead(c), 0);
      assert KeptSome(c, Lead(c));
    }
    forall m: ChipRam, after: ChipRam, n: nat | Moved(c, m, after) && n < WordCount(c)
      ensures after[Target(c, n)] == m[Origin(c, n)]
    {
      BitsDetermineWord(after[Target(c, n)], m[Origin(c, n)]);
    }
  }

  predicate StaysInside(c: BlitCommand, start: nat) {
    if c.descending then WordCount(c) <= start + 1 else start + WordCount(c) <= CHIP_WORDS
  }

  /** The word of chip memory that a pointer starts at. */
  function PlaceOf(pointer: U32): (i: nat)
    ensures i < CHIP_WORDS
  {
    pointer / 2 % CHIP_WORDS
  }

  lemma LeadOfPlaces(c: BlitCommand)
    ensures var ahead := Forward(c, PlaceOf(c.apt), PlaceOf(c.dpt));
      Lead(c) == if ahead < 0 then ahead + CHIP_WORDS else ahead
  {
    var a, d := c.apt / 2, c.dpt / 2;
    var k, l := a / CHIP_WORDS, d / CHIP_WORDS;
    var p, q := PlaceOf(c.apt), PlaceOf(c.dpt);
    assert a == k * CHIP_WORDS + p && d == l * CHIP_WORDS + q;
    var ahead, rounds := Forward(c, p, q), Forward(c, k, l);
    if ahead < 0 {
      IntDivision(rounds - 1, CHIP_WORDS, ahead + CHIP_WORDS);
    } else {
      IntDivision(rounds, CHIP_WORDS, ahead);
    }
  }

  /** Ranges that stay inside chip memory: the move is right when they are
      disjoint, and when they overlap with the target at most one word ahead. */
  lemma BlockMoveWithoutWrap(c: BlitCommand, m: ChipRam)
    requires StraightCopy(c)
    requires StaysInside(c, PlaceOf(c.apt)) && StaysInside(c, PlaceOf(c.dpt))
    requires var a, d := PlaceOf(c.apt), PlaceOf(c.dpt);
             || a + WordCount(c) <= d || d + WordCount(c) <= a
             || (if c.descending then d >= a - 1 else d <= a + 1)
    ensures c.width > 0 && Moved(c, m, Written(c, m, WordCount(c)))
  {
    hide Moved, Written, KeptSome, PlaceOf, Lead, WordCount;
    SomeWords(c);
    LeadOfPlaces(c);
    UnspoiledMoves(c, m);
  }
}
