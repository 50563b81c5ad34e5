/** What an area blit computes, as a stream of words.

    Word `n` of a blit `w` words wide is column `n % w` of row `n / w`. Every
    quantity of the pipeline is a function of the command, the memory before the
    blit and `n`. Writing is one word behind: when word `n` is fetched, exactly
    the destination words 0 .. n-2 are in memory. */
module BlitterStream {
  import opened Arithmetic
  import opened Integers
  import opened Words

  const CHIP_WORDS := 0x10_0000
  const CHIP_BYTES := 0x20_0000

  type ChipRam = m: seq<Word> | |m| == CHIP_WORDS witness seq(CHIP_WORDS, i => ZERO)

  datatype Mode = Copy | Line
  datatype FillMode = NoFill | Inclusive | Exclusive

  datatype BlitCommand = BlitCommand(
    apt: U32, bpt: U32, cpt: U32, dpt: U32,
    amod: I16, bmod: I16, cmod: I16, dmod: I16,
    adat: Word, bdat: Word, cdat: Word, bhold: Word,
    afwm: Word, alwm: Word,
    width: U16, height: U16,
    minterm: bv8, ashift: Nibble, bshift: Nibble,
    useA: bool, useB: bool, useC: bool, useD: bool,
    descending: bool, fillCarryIn: bool,
    octant4: bool, octant2: bool, octant1: bool,
    startBit: Nibble, singleDot: bool, initialSign: bool,
    mode: Mode, fillMode: FillMode)

  datatype BlitterRegisters = BlitterRegisters(
    apt: U32, bpt: U32, cpt: U32, dpt: U32,
    adat: Word, bdat: Word, cdat: Word, ddat: Word, bhold: Word)

  /** What a blit computes: the registers it will publish, and the zero flag, which
      the status register shows as it stands. */
  datatype BlitterResult = BlitterResult(registers: BlitterRegisters, zero: bool)

  /** The word that a byte address selects: `addr & 0x001FFFFE`. */
  function WordIndex(addr: int): (i: nat)
    ensures i < CHIP_WORDS
  {
    addr % CHIP_BYTES / 2
  }

  /** The byte address of that word. */
  function ChipAddress(addr: int): (a: U32)
    ensures a < CHIP_BYTES && a % 2 == 0
  {
    WordIndex(addr) * 2
  }

  /** An address is its chip address, its low bit and a multiple of the memory size. */
  lemma ChipAddressIs(q: int, r: nat)
    requires r < CHIP_BYTES
    ensures ChipAddress(q * CHIP_BYTES + r) == r - r % 2
  {
    IntDivision(q, CHIP_BYTES, r);
  }

  function WordCount(c: BlitCommand): nat {
    c.width * c.height
  }

  function Row(c: BlitCommand, n: nat): nat {
    if c.width == 0 then 0 else n / c.width
  }

  function Column(c: BlitCommand, n: nat): nat {
    if c.width == 0 then 0 else n % c.width
  }

  /** A channel pointer after `words` words and `rows` row ends. */
  function Pointer(c: BlitCommand, start: U32, used: bool, modulo: I16, words: nat, rows: nat): U32 {
    var distance := (if used then 2 * words else 0) + rows * modulo;
    ToU32(if c.descending then start - distance else start + distance)
  }

  function PointerA(c: BlitCommand, n: nat): U32 { Pointer(c, c.apt, c.useA, c.amod, n, Row(c, n)) }
  function PointerB(c: BlitCommand, n: nat): U32 { Pointer(c, c.bpt, c.useB, c.bmod, n, Row(c, n)) }
  function PointerC(c: BlitCommand, n: nat): U32 { Pointer(c, c.cpt, c.useC, c.cmod, n, Row(c, n)) }
  function PointerD(c: BlitCommand, n: nat): U32 { Pointer(c, c.dpt, c.useD, c.dmod, n, Row(c, n)) }

  /** Memory once the destination words 0 .. k-1 have been written. */
  function Written(c: BlitCommand, m: ChipRam, k: nat): ChipRam
    decreases k, 0
  {
    if k == 0 || !c.useD then m
    else Written(c, m, k - 1)[WordIndex(PointerD(c, k - 1)) := WordD(c, m, k - 1)]
  }

  /** Memory as the fetches of word `n` find it. */
  function Visible(c: BlitCommand, m: ChipRam, n: nat): ChipRam
    decreases n, 0, 1
  {
    if n == 0 then m else Written(c, m, n - 1)
  }

  function FetchedA(c: BlitCommand, m: ChipRam, n: nat): Word
    decreases n, 1
  {
    if c.useA then Visible(c, m, n)[WordIndex(PointerA(c, n))] else c.adat
  }

  function FetchedB(c: BlitCommand, m: ChipRam, n: nat): Word
    decreases n, 1
  {
    if c.useB then Visible(c, m, n)[WordIndex(PointerB(c, n))] else c.bdat
  }

  function FetchedC(c: BlitCommand, m: ChipRam, n: nat): Word
    decreases n, 1
  {
    if c.useC then Visible(c, m, n)[WordIndex(PointerC(c, n))] else c.cdat
  }

  /** The first-word and last-word masks, both of which apply to a one-word row. */
  function Masks(c: BlitCommand, column: nat): Word {
    And(if column == 0 then c.afwm else ONES, if column + 1 == c.width then c.alwm else ONES)
  }

  function MaskedA(c: BlitCommand, m: ChipRam, n: nat): Word
    decreases n, 2
  {
    And(FetchedA(c, m, n), Masks(c, Column(c, n)))
  }

  /** The A and B words that reach the minterm unit. The shifter history starts
      empty and is kept across row ends; B skips it when its channel is off. */
  function AlignedA(c: BlitCommand, m: ChipRam, n: nat): Word
    decreases n, 3
  {
    Shift(c.descending, if n == 0 then ZERO else MaskedA(c, m, n - 1), MaskedA(c, m, n), c.ashift)
  }

  function AlignedB(c: BlitCommand, m: ChipRam, n: nat): Word
    decreases n, 3
  {
    if c.useB then Shift(c.descending, if n == 0 then ZERO else FetchedB(c, m, n - 1), FetchedB(c, m, n), c.bshift)
    else c.bhold
  }

  function Combined(c: BlitCommand, m: ChipRam, n: nat): Word
    decreases n, 4
  {
    Logic(c.minterm, AlignedA(c, m, n), AlignedB(c, m, n), FetchedC(c, m, n))
  }

  /** The fill carry into word `n`; every row starts from the command's carry. */
  predicate Carry(c: BlitCommand, m: ChipRam, n: nat)
    decreases n, 5
  {
    if n == 0 || Column(c, n) == 0 || c.fillMode.NoFill? then c.fillCarryIn
    else FillCarry(c.descending, Combined(c, m, n - 1), Carry(c, m, n - 1))
  }

  function WordD(c: BlitCommand, m: ChipRam, n: nat): Word
    decreases n, 6
  {
    if c.fillMode.NoFill? then Combined(c, m, n)
    else Fill(c.descending, Combined(c, m, n), Carry(c, m, n))
  }

  ghost predicate AllZero(c: BlitCommand, m: ChipRam, k: nat) {
    forall n: nat | n < k :: WordD(c, m, n) == ZERO
  }

  /** What an area blit computes. */
  ghost function CopyResult(c: BlitCommand, m: ChipRam): BlitterResult {
    var k := WordCount(c);
    BlitterResult(BlitterRegisters(
      Pointer(c, c.apt, c.useA, c.amod, k, c.height),
      Pointer(c, c.bpt, c.useB, c.bmod, k, c.height),
      Pointer(c, c.cpt, c.useC, c.cmod, k, c.height),
      Pointer(c, c.dpt, c.useD, c.dmod, k, c.height),
      if k > 0 then LastA(c, m, k) else c.adat,
      if k > 0 then FetchedB(c, m, k - 1) else c.bdat,
      if k > 0 then FetchedC(c, m, k - 1) else c.cdat,
      if k > 0 then WordD(c, m, k - 1) else ZERO,
      if k > 0 then AlignedB(c, m, k - 1) else c.bhold), AllZero(c, m, k))
  }

  ghost function LastA(c: BlitCommand, m: ChipRam, k: nat): Word
    requires k > 0
  {
    FetchedA(c, m, k - 1)
  }

  // -------------------------------------------------------- rows and columns

  lemma RowAndColumn(c: BlitCommand, y: nat, x: nat)
    requires x < c.width
    ensures Row(c, y * c.width + x) == y && Column(c, y * c.width + x) == x
  {
    Division(y, c.width, x);
  }
}
