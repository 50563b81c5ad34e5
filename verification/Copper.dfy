/** The Copper's WAIT: the comparison with the beam, its release, and the deadline
    computed ahead of time. */
module Copper {
  import opened Arithmetic
  import opened Beam
  import opened Integers

  const NO_DEADLINE := 0xFFFF_FFFF

  datatype Wait = Wait(vpos: U16, hpos: U16, vpmask: U16, hpmask: U16)

  /** Bitwise and. */
  function Masked(x: nat, mask: nat): nat {
    if x == 0 || mask == 0 then 0 else 2 * Masked(x / 2, mask / 2) + x % 2 * (mask % 2)
  }

  /** The masked counters as one 16-bit number. */
  function Rank(vpos: U16, hpos: U16, vpmask: U16, hpmask: U16): nat {
    Masked(vpos, vpmask) * 256 % 0x1_0000 + Masked(Masked(hpos, hpmask), 0xFE)
  }

  /** Whether the beam is at or past the waited position. */
  predicate Passed(w: Wait, b: BeamState) {
    Rank(b.vpos, b.hpos, w.vpmask, w.hpmask) >= Rank(w.vpos, w.hpos, w.vpmask, w.hpmask)
  }

  /** A WAIT for one position of a line, with every mask bit set. */
  predicate FullMask(w: Wait) {
    w.vpmask == 0xFF && w.hpmask == 0xFE && w.vpos <= 0xFF && w.hpos <= 0xFE && w.hpos % 2 == 0
  }

  /** Clocks from one place of a frame to another, or to the other's in the next. */
  function Distance(current: int, target: int, frame: int): U32 {
    (if target > current then target - current else frame - current + target) % TWO_32
  }

  function CyclesToWait(waiting: bool, w: Wait, b: BeamState): U32 {
    if !waiting then NO_DEADLINE
    else if Passed(w, b) then 0
    else if w.vpmask == 0xFF && w.hpmask == 0xFE then
      Distance(b.vpos * b.lineClocks + b.hpos, w.vpos * b.lineClocks + w.hpos, b.frameLines * b.lineClocks)
    else (b.lineClocks - b.hpos) % TWO_32
  }

  // -------------------------------------------------- the comparison, unmasked

  function Power(n: nat): (p: nat)
    ensures p > 0
  {
    if n == 0 then 1 else 2 * Power(n - 1)
  }

  lemma HalfRemainder(x: nat, d: nat)
    requires d > 0
    ensures 2 * (x / 2 % d) + x % 2 == x % (2 * d)
  {
    var q, r := x / 2 / d, x / 2 % d;
    assert x / 2 == q * d + r;
    assert x == q * (2 * d) + (2 * r + x % 2);
    IntDivision(q, 2 * d, 2 * r + x % 2);
  }

  /** A mask of `n` ones keeps the low `n` bits. */
  lemma {:induction false} MaskOnes(x: nat, n: nat)
    ensures Masked(x, Power(n) - 1) == x % Power(n)
  {
    if n == 0 {
    } else {
      MaskOnes(x / 2, n - 1);
      HalfRemainder(x, Power(n - 1));
      assert (Power(n) - 1) / 2 == Power(n - 1) - 1;
    }
  }

  lemma MaskedByte(x: nat)
    ensures Masked(x, 0xFF) == x % 256 && Masked(x, 0xFE) == x % 256 - x % 2
  {
    assert Power(8) == 256 && Power(7) == 128;
    MaskOnes(x, 8);
    MaskOnes(x / 2, 7);
    MaskEven(x, 127);
    HalfRemainder(x, 128);
  }

  lemma MaskEven(x: nat, half: nat)
    ensures Masked(x, 2 * half) == 2 * Masked(x / 2, half)
  {
    Division(half, 2, 0);
    var mask := 2 * half;
    assert mask / 2 == half && mask % 2 == 0;
    assert Masked(x, mask) == if x == 0 || mask == 0 then 0 else 2 * Masked(x / 2, half) + 0;
  }

  /** Unmasked, the comparison is line before clock, each on its low eight bits. */
  lemma PassedIsOrder(w: Wait, b: BeamState)
    requires FullMask(w)
    ensures Passed(w, b) <==> b.vpos % 256 > w.vpos || (b.vpos % 256 == w.vpos && b.hpos % 256 >= w.hpos)
  {
    hide Masked, Rank;
    RankIs(b.vpos, b.hpos);
    RankIs(w.vpos, w.hpos);
    Small(w.vpos);
    Small(w.hpos);
    RanksOrder(b.vpos % 256, b.hpos % 256, w.vpos, w.hpos);
  }

  lemma RanksOrder(v: nat, h: nat, w: nat, k: nat)
    requires h < 256 && k < 256 && k % 2 == 0
    ensures v * 256 + (h - h % 2) >= w * 256 + k <==> v > w || (v == w && h >= k)
  {
  }

  lemma RankIs(vpos: U16, hpos: U16)
    ensures Rank(vpos, hpos, 0xFF, 0xFE) == vpos % 256 * 256 + (hpos % 256 - hpos % 256 % 2)
  {
    hide Masked;
    MaskedByte(vpos);
    MaskedByte(hpos);
    EvenPart(hpos);
    MaskedByte(hpos % 256 - hpos % 256 % 2);
    Small(hpos % 256 - hpos % 256 % 2);
  }

  lemma EvenPart(x: nat)
    ensures x % 256 - x % 2 == x % 256 - x % 256 % 2
    ensures (x % 256 - x % 256 % 2) % 2 == 0
  {
    var q, half, odd := x / 256, x % 256 / 2, x % 256 % 2;
    assert x % 256 == 2 * half + odd;
    assert x == 2 * (128 * q + half) + odd;
    Division(128 * q + half, 2, odd);
    Division(half, 2, 0);
  }

  // -------------------------------------------------------- order in a frame

  /** Position (v, h) comes before (w, k) in a frame. */
  predicate Before(v: nat, h: nat, w: nat, k: nat) {
    v < w || (v == w && h < k)
  }

  lemma PlacesOrder(v: nat, h: nat, w: nat, k: nat, clocks: nat)
    requires h < clocks && k < clocks
    ensures v * clocks + h < w * clocks + k <==> Before(v, h, w, k)
  {
    if v < w { LaterLine(v, w, clocks); }
    else if w < v { LaterLine(w, v, clocks); }
  }

  /** The place of the waited position. */
  function Target(w: Wait, b: BeamState): nat {
    w.vpos * b.lineClocks + w.hpos
  }

  /** The program's waits are for positions that every frame has. */
  predicate InEveryFrame(w: Wait, b: BeamState) {
    FullMask(w) && w.hpos < b.lineClocks && w.vpos < b.frameLines
  }

  lemma TargetInFrame(w: Wait, b: BeamState)
    requires ShortLines(b) && InEveryFrame(w, b)
    ensures Target(w, b) < FrameClocks(b) <= FrameEnd(b) < TWO_32 && Place(b) < FrameEnd(b)
    ensures b.lof || b.vpos >= b.frameLines ==> FrameClocks(b) < FrameEnd(b)
    ensures !b.lof && b.vpos < b.frameLines ==> FrameClocks(b) == FrameEnd(b)
  {
    PlaceInFrame(b);
    LaterLine(w.vpos, b.frameLines, b.lineClocks);
    ProductFits(Lines(b), b.lineClocks);
    assert b.frameLines * b.lineClocks == b.lineClocks * b.frameLines;
    if b.lof || b.vpos >= b.frameLines { LaterLine(b.frameLines, Lines(b), b.lineClocks); }
  }

  // ---------------------------------------------------------------- deadline

  /** What the WAIT waits for. */
  function Event(w: Wait): BeamState -> bool {
    b => Passed(w, b)
  }

  /** Before the waited place no position of the frame passes, ... */
  lemma NotBeforeTarget(w: Wait, s: BeamState)
    requires FullMask(w) && ShortLines(s) && w.hpos < s.lineClocks && Place(s) < Target(w, s)
    ensures !Passed(w, s)
  {
    hide Passed;
    PlacesOrder(s.vpos, s.hpos, w.vpos, w.hpos, s.lineClocks);
    PassedIsOrder(w, s);
    Small(s.vpos);
    Small(s.hpos);
  }

  /** ... and the waited place does. */
  lemma AtTarget(w: Wait, s: BeamState)
    requires FullMask(w) && ShortLines(s) && w.hpos < s.lineClocks && Place(s) == Target(w, s)
    ensures Passed(w, s)
  {
    hide Passed;
    PlaceDetermines(s, w.vpos, w.hpos);
    PassedIsOrder(w, s);
    Small(s.vpos);
    Small(s.hpos);
  }

  lemma Small(x: nat)
    ensures x < 256 ==> x % 256 == x
  {
  }

  /** The first clock after `h` whose low eight bits are `k` or more, from an `h`
      whose low eight bits are less. */
  function NextClock(h: nat, k: nat): nat {
    h - h % 256 + k
  }

  /** The first line after `v` whose low eight bits are `w` or more, from a `v` whose
      low eight bits are not more. */
  function NextLine(v: nat, w: nat): nat {
    if v % 256 < w then v - v % 256 + w
    else if w < 255 then v + 1
    else v + 256
  }

  lemma NextClockIsNext(h: nat, k: nat, x: nat)
    requires h % 256 < k < 256
    ensures h < NextClock(h, k) && NextClock(h, k) % 256 == k
    ensures h <= x < NextClock(h, k) ==> x % 256 < k
  {
    var q, r := h / 256, h % 256;
    assert h == 256 * q + r && NextClock(h, k) == 256 * q + k;
    if h <= x < NextClock(h, k) { LowByte(q, x - 256 * q); }
    LowByte(q, k);
  }

  lemma NextLineIsNext(v: nat, w: nat, x: nat)
    requires v % 256 <= w < 256
    ensures v < NextLine(v, w) && NextLine(v, w) % 256 >= w
    ensures v < x < NextLine(v, w) ==> x % 256 < w
  {
    var q, r := v / 256, v % 256;
    assert v == 256 * q + r;
    if r < w {
      NextClockIsNext(v, w, x);
    } else if w < 255 {
      LowByte(q, r + 1);
    } else {
      LowByte(q + 1, 255);
      if v < x < NextLine(v, w) { LowByte(q + 1, x - v - 1); }
    }
  }

  lemma LowByte(q: nat, r: nat)
    requires r < 256
    ensures (256 * q + r) % 256 == r
  {
  }

  /** Whether the beam's low eight bits come round to a passing position between the
      beam, which has not passed, and the end of its frame. */
  predicate ComesRound(w: Wait, b: BeamState) {
    || (b.vpos % 256 == w.vpos && NextClock(b.hpos, w.hpos) < b.lineClocks)
    || NextLine(b.vpos, w.vpos) < Lines(b)
  }

  /** When the waited position is behind the beam, its place in the next frame is the
      first to pass unless the low eight bits come round before. */
  lemma NothingComesRound(w: Wait, b: BeamState, s: BeamState)
    requires FullMask(w) && ShortLines(b) && !Passed(w, b) && !ComesRound(w, b)
    requires SameFrame(b, s) && Place(b) <= Place(s)
    ensures !Passed(w, s)
  {
    hide Passed, NextClock, NextLine;
    PlacesOrder(s.vpos, s.hpos, b.vpos, b.hpos, b.lineClocks);
    PassedIsOrder(w, b);
    PassedIsOrder(w, s);
    if s.vpos > b.vpos {
      NextLineIsNext(b.vpos, w.vpos, s.vpos);
    } else if b.vpos % 256 == w.vpos {
      NextClockIsNext(b.hpos, w.hpos, s.hpos);
    }
  }

  /** A passing position between the beam and the end of its frame. */
  lemma SomethingComesRound(w: Wait, b: BeamState) returns (k: nat)
    requires FullMask(w) && ShortLines(b) && !Passed(w, b) && ComesRound(w, b) && w.hpos < b.lineClocks
    ensures Place(b) + k < FrameEnd(b) && Passed(w, Ticks(b, k))
  {
    hide Passed, Place, Ticks, NextClock, NextLine, FrameEnd;
    PassedIsOrder(w, b);
    if b.vpos % 256 == w.vpos && NextClock(b.hpos, w.hpos) < b.lineClocks {
      NextClockIsNext(b.hpos, w.hpos, 0);
      k := PassesAt(w, b, b.vpos, NextClock(b.hpos, w.hpos));
    } else {
      NextLineIsNext(b.vpos, w.vpos, 0);
      Small(w.hpos);
      k := PassesAt(w, b, NextLine(b.vpos, w.vpos), w.hpos);
    }
  }

  /** A position further on in the frame that passes. */
  lemma PassesAt(w: Wait, b: BeamState, v: nat, h: nat) returns (k: nat)
    requires FullMask(w) && ShortLines(b) && Before(b.vpos, b.hpos, v, h) && v < Lines(b) && h < b.lineClocks
    requires v % 256 > w.vpos || (v % 256 == w.vpos && h % 256 >= w.hpos)
    ensures Place(b) + k == v * b.lineClocks + h < FrameEnd(b) && Passed(w, Ticks(b, k))
  {
    hide Passed, Ticks;
    PlacesOrder(b.vpos, b.hpos, v, h, b.lineClocks);
    LaterLine(v, Lines(b), b.lineClocks);
    k := v * b.lineClocks + h - Place(b);
    Inside(b, k);
    PlaceDetermines(Ticks(b, k), v, h);
    PassedIsOrder(w, Ticks(b, k));
  }

  /** A beam on the line a whole frame below the waited one, where the low eight bits
      of both agree. */
  predicate FrameBelow(w: Wait, b: BeamState) {
    b.frameLines % 256 == 0 && b.vpos == b.frameLines + w.vpos && b.hpos < w.hpos
  }

  /** The condition under which the deadline of a pending full-mask WAIT is exact: it
      has passed, or its position is still ahead in this frame (or, which comes to the
      same number of clocks, on the beam's line in a frame of 256 lines or 512), or the
      beam's low eight bits do not come round to it before the frame ends, and the
      frame is not a long one. */
  predicate DeadlineExact(w: Wait, b: BeamState) {
    || Passed(w, b)
    || Before(b.vpos, b.hpos, w.vpos, w.hpos)
    || FrameBelow(w, b)
    || (!ComesRound(w, b) && !b.lof && b.vpos < b.frameLines)
  }

  /** For a position that every frame has, and any geometry. What the deadline misses
      in the last case is the extra line. */
  lemma WaitDeadline(w: Wait, b: BeamState)
    requires ShortLines(b) && InEveryFrame(w, b)
    ensures FirstTime(b, CyclesToWait(true, w, b), Event(w)) <==> DeadlineExact(w, b)
    ensures !Passed(w, b) && !Before(b.vpos, b.hpos, w.vpos, w.hpos) && !ComesRound(w, b) ==>
      FirstTime(b, FrameEnd(b) - Place(b) + Target(w, b), Event(w))
  {
    hide Ticks, Place, FrameClocks, FrameEnd, Passed, Target, ComesRound, FrameBelow;
    TargetInFrame(w, b);
    DeadlineIs(w, b);
    NoTicks(b);
    if Passed(w, b) {
    } else if Place(b) < Target(w, b) {
      AheadInFrame(w, b);
    } else if FrameBelow(w, b) {
      LineBelow(w, b);
    } else if ComesRound(w, b) {
      TooLate(w, b);
    } else {
      var n := FrameEnd(b) - Place(b) + Target(w, b);
      forall k: nat | k <= n
        ensures Passed(w, Ticks(b, k)) <==> k == n
      {
        LateDeadline(w, b, k);
      }
      OtherTime(b, n, CyclesToWait(true, w, b), Event(w));
      Modulo(FrameClocks(b) - Place(b) + Target(w, b));
    }
  }

  lemma Modulo(x: int)
    requires -TWO_32 <= x < TWO_32
    ensures x % TWO_32 == if x < 0 then x + TWO_32 else x
  {
  }

  /** The wait for a position ahead of the beam. */
  lemma AheadInFrame(w: Wait, b: BeamState)
    requires ShortLines(b) && InEveryFrame(w, b) && Place(b) < Target(w, b)
    ensures FirstTime(b, Target(w, b) - Place(b), Event(w))
  {
    hide Ticks, Place, FrameClocks, FrameEnd, Passed, Target;
    TargetInFrame(w, b);
    var n := Target(w, b) - Place(b);
    forall k: nat | k <= n
      ensures Passed(w, Ticks(b, k)) <==> k == n
    {
      Inside(b, k);
      SameTarget(w, b, Ticks(b, k));
      if k < n { NotBeforeTarget(w, Ticks(b, k)); } else { AtTarget(w, Ticks(b, k)); }
    }
  }

  /** The wait on the line a frame below. */
  lemma LineBelow(w: Wait, b: BeamState)
    requires ShortLines(b) && InEveryFrame(w, b) && FrameBelow(w, b)
    ensures Target(w, b) <= Place(b) && ComesRound(w, b) && !Passed(w, b)
    ensures FirstTime(b, (FrameClocks(b) - Place(b) + Target(w, b)) % TWO_32, Event(w))
  {
    hide Ticks, Passed;
    var n: nat := w.hpos - b.hpos;
    assert b.vpos * b.lineClocks == b.lineClocks * b.frameLines + w.vpos * b.lineClocks;
    assert b.lineClocks <= b.lineClocks * b.frameLines by { LaterLine(0, b.frameLines, b.lineClocks); }
    LowByteOf(b.frameLines, w.vpos);
    Small(b.hpos);
    PassedIsOrder(w, b);
    forall k: nat | k <= n
      ensures Passed(w, Ticks(b, k)) <==> k == n
    {
      TicksInLine(b, k);
      Small(b.hpos + k);
      PassedIsOrder(w, Ticks(b, k));
    }
    Modulo(n);
  }

  lemma LowByteOf(lines: nat, v: nat)
    requires lines % 256 == 0 && v < 256
    ensures (lines + v) % 256 == v
  {
    LowByte(lines / 256, v);
  }

  /** When the low eight bits come round the deadline is not the first time. */
  lemma TooLate(w: Wait, b: BeamState)
    requires ShortLines(b) && InEveryFrame(w, b) && !Passed(w, b) && Target(w, b) <= Place(b)
    requires ComesRound(w, b) && !FrameBelow(w, b)
    ensures !FirstTime(b, (FrameClocks(b) - Place(b) + Target(w, b)) % TWO_32, Event(w))
  {
    hide Ticks, Place, FrameClocks, FrameEnd, Passed, Target, ComesRound, FrameBelow;
    TargetInFrame(w, b);
    var n := (FrameClocks(b) - Place(b) + Target(w, b)) % TWO_32;
    Modulo(FrameClocks(b) - Place(b) + Target(w, b));
    var k := SomethingComesRound(w, b);
    if n <= k && Passed(w, Ticks(b, n)) {
      assert Place(b) + n == FrameClocks(b) + Target(w, b);
      Inside(b, n);
      var m := Earlier(w, b, Ticks(b, n));
    }
  }

  lemma PlaceIs(b: BeamState)
    ensures Place(b) == b.vpos * b.lineClocks + b.hpos
  {
  }

  /** A position that passes before the one a whole frame below the waited one. */
  lemma Earlier(w: Wait, b: BeamState, s: BeamState) returns (m: nat)
    requires ShortLines(b) && InEveryFrame(w, b) && !Passed(w, b) && !FrameBelow(w, b)
    requires SameFrame(b, s) && Place(b) <= Place(s) == FrameClocks(b) + Target(w, b) && Passed(w, s)
    ensures Place(b) + m < Place(s) && Passed(w, Ticks(b, m))
  {
    hide Ticks, Passed, Place, FrameClocks, Target;
    AFrameBelow(w, b, s);
    PlaceIs(b);
    PlaceIs(s);
    PlacesOrder(s.vpos, s.hpos, b.vpos, b.hpos, b.lineClocks);
    PassedIsOrder(w, b);
    if b.vpos >= b.frameLines {
      PassedIsOrder(w, s);
      LowByteBack(b.frameLines, w.vpos);
      assert false;
    }
    NextLow(b.vpos);
    m := PassesAt(w, b, b.vpos + 1, 0);
    PlacesOrder(b.vpos + 1, 0, s.vpos, s.hpos, b.lineClocks);
  }

  lemma AFrameBelow(w: Wait, b: BeamState, s: BeamState)
    requires ShortLines(b) && InEveryFrame(w, b) && SameFrame(b, s) && Place(s) == FrameClocks(b) + Target(w, b)
    ensures s.vpos == b.frameLines + w.vpos && s.hpos == w.hpos
  {
    var lines := b.frameLines + w.vpos;
    assert lines * b.lineClocks == b.lineClocks * b.frameLines + w.vpos * b.lineClocks;
    PlaceDetermines(s, lines, w.hpos);
  }

  lemma NextLow(v: nat)
    requires v % 256 == 0
    ensures (v + 1) % 256 == 1
  {
    LowByte(v / 256, 1);
  }

  lemma LowByteBack(lines: nat, v: nat)
    requires v < 256 && (lines + v) % 256 == v
    ensures lines % 256 == 0
  {
    var q := (lines + v) / 256;
    assert lines == 256 * q;
  }

  /** The wait for a position behind the beam, whose low eight bits do not come round. */
  lemma LateDeadline(w: Wait, b: BeamState, k: nat)
    requires ShortLines(b) && InEveryFrame(w, b) && !Passed(w, b) && !ComesRound(w, b) && Target(w, b) <= Place(b)
    requires k <= FrameEnd(b) - Place(b) + Target(w, b)
    ensures Passed(w, Ticks(b, k)) <==> k == FrameEnd(b) - Place(b) + Target(w, b)
  {
    hide Ticks, Place, FrameClocks, FrameEnd, Passed, Target, ComesRound;
    TargetInFrame(w, b);
    if Place(b) + k < FrameEnd(b) {
      Inside(b, k);
      NothingComesRound(w, b, Ticks(b, k));
    } else {
      Beyond(b, k);
      SameTarget(w, b, Ticks(b, k));
      if k == FrameEnd(b) - Place(b) + Target(w, b) {
        AtTarget(w, Ticks(b, k));
      } else {
        NotBeforeTarget(w, Ticks(b, k));
      }
    }
  }

  lemma SameTarget(w: Wait, b: BeamState, s: BeamState)
    requires s.lineClocks == b.lineClocks
    ensures Target(w, s) == Target(w, b)
  {
  }

  lemma DeadlineIs(w: Wait, b: BeamState)
    requires ShortLines(b) && InEveryFrame(w, b)
    ensures CyclesToWait(true, w, b) ==
      if Passed(w, b) then 0
      else if Place(b) < Target(w, b) then Target(w, b) - Place(b)
      else (FrameClocks(b) - Place(b) + Target(w, b)) % TWO_32
    ensures Place(b) < Target(w, b) <==> Before(b.vpos, b.hpos, w.vpos, w.hpos)
  {
    hide Passed, FrameEnd;
    TargetInFrame(w, b);
    PlacesOrder(b.vpos, b.hpos, w.vpos, w.hpos, b.lineClocks);
    assert b.frameLines * b.lineClocks == b.lineClocks * b.frameLines;
    if Place(b) < Target(w, b) { Modulo(Target(w, b) - Place(b)); }
  }

  /** In a long frame of a 312-line display the deadline of a WAIT for line 100 of the
      next frame comes when the beam is on line 99. */
  lemma LongFrameWait()
    ensures var b, w := BeamState(0, 260, 227, 312, true, true, false, false, 0), Wait(100, 0, 0xFF, 0xFE);
      && ShortLines(b) && InEveryFrame(w, b) && CyclesToWait(true, w, b) == 52 * 227 + 100 * 227
      && Ticks(b, CyclesToWait(true, w, b)).vpos == 99 && !Passed(w, Ticks(b, CyclesToWait(true, w, b)))
  {
    hide Ticks, Passed;
    var b, w := BeamState(0, 260, 227, 312, true, true, false, false, 0), Wait(100, 0, 0xFF, 0xFE);
    PassedIsOrder(w, b);
    var n := CyclesToWait(true, w, b);
    Beyond(b, n);
    PlaceDetermines(Ticks(b, n), 99, 0);
    PassedIsOrder(w, Ticks(b, n));
  }

  // ------------------------------------------------- beyond the line's end

  lemma {:induction false} ClockAfter(b: BeamState, n: nat)
    requires ShortLines(b)
    ensures var s := Ticks(b, n);
      ShortLines(s) && s.lineClocks == b.lineClocks && s.hpos == (b.hpos + n) % b.lineClocks
  {
    hide Tick;
    if n == 0 {
      Division(0, b.lineClocks, b.hpos);
    } else {
      ClockAfter(b, n - 1);
      ShortTick(Ticks(b, n - 1));
      DivisionStep(b.hpos + n - 1, b.lineClocks);
    }
  }

  /** No clock of a line reaches a waited clock beyond its end, so that such a WAIT
      passes only as a line begins; its deadline never says when. */
  lemma WaitBeyondLine(w: Wait, b: BeamState)
    requires Reachable(b) && FullMask(w) && w.hpos > b.lineClocks && w.hpos % b.lineClocks != 0
    ensures FirstTime(b, CyclesToWait(true, w, b), Event(w)) <==> Passed(w, b)
  {
    hide Tick, Ticks, Passed, CyclesToWait;
    var n := CyclesToWait(true, w, b);
    NoTicks(b);
    if Passed(w, b) {
      assert n == 0 by { WhenPassed(w, b); }
    } else if FirstTime(b, n, Event(w)) {
      TicksNext(b, n - 1);
      ClockAfter(b, n - 1);
      PassesAtLineStart(w, Ticks(b, n - 1));
      ClockAfter(b, n);
      DeadlineClock(w, b);
      assert false;
    }
  }

  lemma WhenPassed(w: Wait, b: BeamState)
    requires Passed(w, b)
    ensures CyclesToWait(true, w, b) == 0
  {
  }

  lemma PassesAtLineStart(w: Wait, s: BeamState)
    requires ShortLines(s) && FullMask(w) && w.hpos > s.lineClocks && !Passed(w, s) && Passed(w, Tick(s))
    ensures Tick(s).hpos == 0
  {
    hide Tick, Passed;
    ShortTick(s);
    PassedIsOrder(w, s);
    PassedIsOrder(w, Tick(s));
    Small(s.hpos);
    Small(Tick(s).hpos);
  }

  lemma LinesApart(v: nat, w: nat, lines: nat, clocks: nat)
    requires v <= lines
    ensures v * clocks <= lines * clocks
    ensures (w - v) * clocks == w * clocks - v * clocks
    ensures (w - v + lines) * clocks == w * clocks - v * clocks + lines * clocks
  {
    assert (lines - v) * clocks >= 0;
  }

  lemma DistanceIs(current: nat, target: nat, frame: nat)
    requires target < TWO_32 && frame < TWO_32 && current <= frame + target
    ensures Distance(current, target, frame) == target - current + if target > current then 0 else frame
  {
    Modulo(target - current + if target > current then 0 else frame);
  }

  /** A pending deadline is some lines and the distance of the two clocks. */
  lemma DeadlineLines(w: Wait, b: BeamState) returns (lines: int)
    requires Reachable(b) && FullMask(w) && w.hpos > b.lineClocks && !Passed(w, b)
    ensures b.hpos + CyclesToWait(true, w, b) == lines * b.lineClocks + w.hpos
  {
    hide Passed, Distance;
    var clocks := b.lineClocks;
    var here, there, frame := b.vpos * clocks, w.vpos * clocks, b.frameLines * clocks;
    ProductFits(w.vpos, clocks);
    ProductFits(b.vpos, clocks);
    ProductFits(b.frameLines, clocks);
    LinesApart(b.vpos, w.vpos, b.frameLines, clocks);
    DistanceIs(here + b.hpos, there + w.hpos, frame);
    lines := w.vpos - b.vpos + if there + w.hpos > here + b.hpos then 0 else b.frameLines;
  }

  lemma DeadlineClock(w: Wait, b: BeamState)
    requires Reachable(b) && FullMask(w) && w.hpos > b.lineClocks && !Passed(w, b)
    ensures (b.hpos + CyclesToWait(true, w, b)) % b.lineClocks == w.hpos % b.lineClocks
  {
    hide Passed, CyclesToWait;
    var lines := DeadlineLines(w, b);
    var q, r := w.hpos / b.lineClocks, w.hpos % b.lineClocks;
    assert (lines + q) * b.lineClocks + r == lines * b.lineClocks + w.hpos;
    IntDivision(lines + q, b.lineClocks, r);
  }

  // ----------------------------------------------------------- partial masks

  lemma {:induction false} MaskedBound(x: nat, mask: nat)
    ensures Masked(x, mask) <= mask
  {
    if x == 0 || mask == 0 {
    } else {
      MaskedBound(x / 2, mask / 2);
    }
  }

  /** The clock as the comparison sees it. */
  function MaskedClock(w: Wait, hpos: U16): nat {
    Masked(Masked(hpos, w.hpmask), 0xFE)
  }

  /** The deadline of a WAIT under any other masks is the line's end. It does not pass
      before that if and only if the masked line is still before the waited one or no
      later clock of the line has the masked clock. */
  lemma PartialDeadline(w: Wait, b: BeamState)
    requires ShortLines(b) && w.vpmask <= 0xFF && !(w.vpmask == 0xFF && w.hpmask == 0xFE) && !Passed(w, b)
    ensures CyclesToWait(true, w, b) == b.lineClocks - b.hpos
    ensures (forall k: nat | k < CyclesToWait(true, w, b) :: !Passed(w, Ticks(b, k)))
       <==> (Masked(b.vpos, w.vpmask) < Masked(w.vpos, w.vpmask)
             || forall h: nat | b.hpos < h < b.lineClocks :: MaskedClock(w, h) < MaskedClock(w, w.hpos))
  {
    hide Ticks, Passed, Masked, MaskedClock;
    var n := b.lineClocks - b.hpos;
    Modulo(n);
    RankOrder(w, b);
    forall k: nat | k < n
      ensures Ticks(b, k) == b.(hpos := b.hpos + k)
      ensures Passed(w, Ticks(b, k))
         <==> (Masked(b.vpos, w.vpmask) > Masked(w.vpos, w.vpmask)
               || (Masked(b.vpos, w.vpmask) == Masked(w.vpos, w.vpmask)
                   && MaskedClock(w, b.hpos + k) >= MaskedClock(w, w.hpos)))
    {
      TicksInLine(b, k);
      RankOrder(w, Ticks(b, k));
    }
    if h: nat :| b.hpos < h < b.lineClocks && MaskedClock(w, h) >= MaskedClock(w, w.hpos) {
      var k := h - b.hpos;
      assert Passed(w, Ticks(b, k)) <==> Masked(b.vpos, w.vpmask) == Masked(w.vpos, w.vpmask);
    }
  }

  lemma PairOrder(v: nat, h: nat, w: nat, k: nat)
    requires v < 256 && w < 256 && h < 256 && k < 256
    ensures v * 256 % 0x1_0000 + h >= w * 256 % 0x1_0000 + k <==> v > w || (v == w && h >= k)
  {
    Division(0, 0x1_0000, v * 256);
    Division(0, 0x1_0000, w * 256);
  }

  lemma RankOrder(w: Wait, b: BeamState)
    requires w.vpmask <= 0xFF
    ensures Passed(w, b)
       <==> (Masked(b.vpos, w.vpmask) > Masked(w.vpos, w.vpmask)
             || (Masked(b.vpos, w.vpmask) == Masked(w.vpos, w.vpmask)
               && MaskedClock(w, b.hpos) >= MaskedClock(w, w.hpos)))
  {
    hide Masked;
    MaskedBound(b.vpos, w.vpmask);
    MaskedBound(w.vpos, w.vpmask);
    MaskedBound(Masked(b.hpos, w.hpmask), 0xFE);
    MaskedBound(Masked(w.hpos, w.hpmask), 0xFE);
    PairOrder(Masked(b.vpos, w.vpmask), MaskedClock(w, b.hpos), Masked(w.vpos, w.vpmask), MaskedClock(w, w.hpos));
  }

  /** A WAIT for clock 100 of any line passes there, well before its deadline. */
  lemma PassesBeforeDeadline()
    ensures var b, w := BeamState(0, 50, 227, 312, false, false, false, false, 0), Wait(0, 100, 0, 0xFE);
      ShortLines(b) && CyclesToWait(true, w, b) == 227 && Passed(w, Ticks(b, 100))
  {
    hide Ticks, Passed, Masked;
    var b, w := BeamState(0, 50, 227, 312, false, false, false, false, 0), Wait(0, 100, 0, 0xFE);
    MaskedByte(0);
    MaskedByte(100);
    MaskedBound(50, 0);
    MaskedBound(0, 0);
    TicksInLine(b, 100);
    RankOrder(w, b);
    RankOrder(w, Ticks(b, 100));
  }

  // -------------------------------------------------------------- the Copper

  class CopperUnit {
    var wait: Wait
    var waiting: bool
    var waitBlitter: bool
    var programCounter: U32
    var enabled: bool
    var triggered: bool
    var eventLatched: bool
    var fetchPending: bool

    constructor (wait: Wait, programCounter: U32)
      ensures this.wait == wait && waiting && !waitBlitter && this.programCounter == programCounter
    {
      this.wait, waiting, waitBlitter := wait, true, false;
      this.programCounter, enabled, triggered, eventLatched, fetchPending := programCounter, true, false, false, false;
    }

    /** One colour clock: a released WAIT asks for the next instruction. */
    method Step(b: BeamState, dmaOn: bool, blitterBusy: bool)
      modifies `waiting, `waitBlitter, `programCounter, `enabled, `triggered, `eventLatched, `fetchPending
      ensures enabled == dmaOn
      ensures triggered == (dmaOn && old(waiting) && !(old(waitBlitter) && blitterBusy) && Passed(wait, b))
      ensures triggered ==>
        !waiting && !waitBlitter && programCounter == (old(programCounter) + 4) % TWO_32 && eventLatched && fetchPending
      ensures !triggered ==>
        && waiting == old(waiting) && waitBlitter == old(waitBlitter) && programCounter == old(programCounter)
        && eventLatched == old(eventLatched) && fetchPending == old(fetchPending)
    {
      triggered := false;
      enabled := dmaOn;
      if !enabled || !waiting { return; }
      if waitBlitter && blitterBusy { return; }
      if Passed(wait, b) {
        waiting, waitBlitter := false, false;
        programCounter := (programCounter + 4) % TWO_32;
        triggered, eventLatched, fetchPending := true, true, true;
      }
    }

    /** Stepped once a clock, a waiting Copper is released at the first time its WAIT
        passes, which is what its deadline said exactly when the deadline is exact. */
    method WaitOut(b: BeamState, ghost n: nat) returns (clocks: nat)
      requires waiting && !waitBlitter && b.Running() && FirstTime(b, n, Event(wait))
      modifies `waiting, `waitBlitter, `programCounter, `enabled, `triggered, `eventLatched, `fetchPending
      ensures clocks == n
      ensures ShortLines(b) && InEveryFrame(wait, b) ==>
        (clocks == CyclesToWait(true, wait, b) <==> DeadlineExact(wait, b))
      ensures !waiting && triggered && fetchPending && programCounter == (old(programCounter) + 4) % TWO_32
    {
      hide Passed, CyclesToWait, DeadlineExact, FullMask, Ticks, Tick;
      if ShortLines(b) && InEveryFrame(wait, b) {
        WaitDeadline(wait, b);
        OtherTime(b, n, CyclesToWait(true, wait, b), Event(wait));
      }
      var beam := b;
      clocks := 0;
      Step(beam, true, false);
      NoTicks(b);
      while !triggered
        invariant clocks <= n && beam == Ticks(b, clocks)
        invariant triggered == Event(wait)(beam)
        invariant !triggered ==> waiting && !waitBlitter && programCounter == old(programCounter)
        invariant triggered ==> !waiting && fetchPending && programCounter == (old(programCounter) + 4) % TWO_32
        decreases n - clocks
      {
        TicksNext(b, clocks);
        beam := Tick(beam);
        clocks := clocks + 1;
        Step(beam, true, false);
      }
    }
  }
}
