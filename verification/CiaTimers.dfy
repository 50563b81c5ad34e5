/** The CIA interval timers: the closed-form advance, the event loop, cascading,
    and the E-clock divider, all against one-pulse-at-a-time counting. */
module CiaTimers {
  import opened Arithmetic
  import opened Integers

  // ------------------------------------------------------- a single timer

  /** A counter and the underflows it has produced. */
  datatype Count = Count(counter: U16, underflows: nat)

  /** `n` pulses one at a time. A one-shot timer stops at its first underflow. */
  function Counted(counter: U16, latch: U16, continuous: bool, n: nat): (r: Count)
    ensures r.underflows <= n
  {
    if n == 0 then Count(counter, 0)
    else
      var c := Counted(counter, latch, continuous, n - 1);
      if !continuous && c.underflows > 0 then c
      else if c.counter > 0 then Count(c.counter - 1, c.underflows)
      else Count(if continuous then latch else 0, c.underflows + 1)
  }

  lemma {:induction false} CountedSplits(counter: U16, latch: U16, continuous: bool, a: nat, b: nat)
    requires continuous || Counted(counter, latch, continuous, a).underflows == 0
    ensures var first := Counted(counter, latch, continuous, a);
            var second := Counted(first.counter, latch, continuous, b);
      Counted(counter, latch, continuous, a + b) == Count(second.counter, first.underflows + second.underflows)
  {
    if b == 0 {
    } else {
      CountedSplits(counter, latch, continuous, a, b - 1);
      assert a + b - 1 == a + (b - 1);
    }
  }

  lemma {:induction false} OneShotStays(counter: U16, latch: U16, a: nat, b: nat)
    requires Counted(counter, latch, false, a).underflows > 0
    ensures Counted(counter, latch, false, a + b) == Counted(counter, latch, false, a)
  {
    if b == 0 {
    } else {
      OneShotStays(counter, latch, a, b - 1);
      assert a + b - 1 == a + (b - 1);
    }
  }

  lemma {:induction false} CountsDown(counter: U16, latch: U16, continuous: bool, n: nat)
    requires n <= counter
    ensures Counted(counter, latch, continuous, n) == Count(counter - n, 0)
  {
    if n == 0 {
    } else {
      CountsDown(counter, latch, continuous, n - 1);
    }
  }

  /** Pulse `counter + 1` underflows. */
  lemma Underflows(counter: U16, latch: U16, continuous: bool)
    ensures Counted(counter, latch, continuous, counter + 1) == Count(if continuous then latch else 0, 1)
  {
    CountsDown(counter, latch, continuous, counter);
  }

  /** From the latch on, a continuous timer is division by its period. */
  lemma {:induction false} FreeRuns(latch: U16, n: nat)
    ensures Counted(latch, latch, true, n) == Count(latch - n % (latch + 1), n / (latch + 1))
  {
    if n == 0 {
    } else {
      FreeRuns(latch, n - 1);
      DivisionStep(n - 1, latch + 1);
    }
  }

  /** Conversion of an underflow total to C `int`. */
  function ToInt(n: nat): int {
    if n % TWO_32 < TWO_31 then n % TWO_32 else n % TWO_32 - TWO_32
  }

  /** It is the one C `int` that differs from the total by a multiple of 2^32. */
  lemma ToIntIs(n: nat, value: int)
    requires -0x8000_0000 <= value < 0x8000_0000
    ensures ToInt(n) == value <==> (n - value) % 0x1_0000_0000 == 0
  {
  }

  /** What a test for a positive C `int` sees of an underflow total. */
  function Seen(c: Count): Count {
    c.(underflows := if ToInt(c.underflows) > 0 then ToInt(c.underflows) else 0)
  }

  lemma SeenWhole(c: Count)
    requires c.underflows < TWO_31
    ensures Seen(c) == c
  {
  }

  /** The closed form: any number of ticks in one step. */
  method Advance(counter: U16, latch: U16, continuous: bool, ticks: nat) returns (next: U16, underflows: int)
    ensures next == Counted(counter, latch, continuous, ticks).counter
    ensures underflows == ToInt(Counted(counter, latch, continuous, ticks).underflows)
  {
    if ticks == 0 { return counter, 0; }
    if ticks <= counter {
      CountsDown(counter, latch, continuous, ticks);
      return counter - ticks, 0;
    }
    var rest := ticks - (counter + 1);
    Underflows(counter, latch, continuous);
    if !continuous {
      OneShotStays(counter, latch, counter + 1, rest);
      return 0, 1;
    }
    CountedSplits(counter, latch, continuous, counter + 1, rest);
    FreeRuns(latch, rest);
    var cycle := latch + 1;
    var total := 1 + rest / cycle;
    var rem := rest % cycle;
    next := if rem == 0 then latch else latch - rem;
    underflows := ToInt(total);
  }

  /** The event loop: one underflow at a time, counted in a C `int`, which is
      undefined once it overflows. */
  method AdvanceEvents(counter: U16, latch: U16, continuous: bool, events: U32) returns (next: U16, underflows: nat)
    requires Counted(counter, latch, continuous, events).underflows < TWO_31
    ensures Count(next, underflows) == Counted(counter, latch, continuous, events)
  {
    next, underflows := counter, 0;
    var left := events;
    ghost var done: nat := 0;
    while left > 0
      invariant 0 <= left && done + left == events
      invariant Count(next, underflows) == Counted(counter, latch, continuous, done)
      invariant continuous || underflows == 0
      decreases left
    {
      var untilUnderflow := next + 1;
      if left < untilUnderflow {
        CountedSplits(counter, latch, continuous, done, left);
        CountsDown(next, latch, continuous, left);
        next := next - left;
        break;
      }
      CountedSplits(counter, latch, continuous, done, untilUnderflow);
      Underflows(next, latch, continuous);
      left := left - untilUnderflow;
      done := done + untilUnderflow;
      underflows := underflows + 1;
      if !continuous {
        OneShotStays(counter, latch, done, left);
        next := 0;
        break;
      }
      next := latch;
    }
  }

  // ------------------------------------------------------- serial output

  /** The output shifter that timer A's underflows clock. */
  datatype Serial = Serial(busy: bool, shift: bv8, bits: U8, buffer: bv8, bufferFull: bool, done: bool)

  function StartOutput(s: Serial): Serial {
    if s.busy || !s.bufferFull then s
    else s.(shift := s.buffer, bits := 8, busy := true, bufferFull := false)
  }

  /** One timer A underflow. `done` records the serial interrupt. */
  function ShiftOut(spMode: bool, s: Serial): Serial {
    if !spMode then s
    else
      var t := StartOutput(s);
      if !t.busy then t
      else
        var u := t.(shift := t.shift << 1, bits := (t.bits - 1) % 256);
        if u.bits != 0 then u else StartOutput(u.(busy := false, done := true))
  }

  function ShiftedOut(spMode: bool, s: Serial, n: nat): Serial {
    if n == 0 then s else ShiftOut(spMode, ShiftedOut(spMode, s, n - 1))
  }

  /** One underflow: an idle shifter takes the byte that waits and sends its first bit; a
      busy one sends the next, and after the last takes the byte that waits, if one does. */
  lemma ShiftIs(spMode: bool, s: Serial)
    requires s.busy ==> 0 < s.bits <= 8
    ensures ShiftOut(spMode, s) ==
      if !spMode || (!s.busy && !s.bufferFull) then s
      else if !s.busy then Serial(true, s.buffer << 1, 7, s.buffer, false, s.done)
      else if s.bits > 1 then s.(shift := s.shift << 1, bits := s.bits - 1)
      else if s.bufferFull then Serial(true, s.buffer, 8, s.buffer, false, true)
      else Serial(false, s.shift << 1, 0, s.buffer, false, true)
  {
  }

  function MovedUp(b: bv8, n: nat): bv8
    requires n <= 8
  {
    b << n
  }

  lemma OneMoreBit(b: bv8, n: nat)
    requires n < 8
    ensures MovedUp(b, 0) == b && MovedUp(b, n) << 1 == MovedUp(b, n + 1)
  {
    assert n == 0 || n == 1 || n == 2 || n == 3 || n == 4 || n == 5 || n == 6 || n == 7;
  }

  /** A byte waiting in the buffer of an idle shifter is on its way from timer A's next
      underflow on, moves up a bit with each, and is out with the eighth, which is the
      interrupt. */
  lemma {:induction false} ByteIsSent(s: Serial, n: nat)
    requires !s.busy && s.bufferFull && 0 < n <= 8
    ensures ShiftedOut(true, s, n) == Serial(n < 8, MovedUp(s.buffer, n), 8 - n, s.buffer, false, s.done || n == 8)
  {
    hide ShiftOut, MovedUp;
    OneMoreBit(s.buffer, n - 1);
    if n > 1 { ByteIsSent(s, n - 1); }
    ShiftIs(true, ShiftedOut(true, s, n - 1));
  }

  lemma {:induction false} ShiftedOutSplits(spMode: bool, s: Serial, a: nat, b: nat)
    ensures ShiftedOut(spMode, s, a + b) == ShiftedOut(spMode, ShiftedOut(spMode, s, a), b)
  {
    hide ShiftOut;
    if b == 0 {
    } else {
      ShiftedOutSplits(spMode, s, a, b - 1);
      assert a + b - 1 == a + (b - 1);
    }
  }

  // ------------------------------------------------------- the two timers

  datatype Pulse = EClock | Cnt

  /** The fields of a control register that drive a timer. Timer A's input mode
      is 0 for the E-clock and 1 for the CNT pin; timer B adds 2 and 3 for timer A
      underflows, 3 only while CNT is high. */
  datatype Control = Control(start: bool, oneShot: bool, inMode: nat, spMode: bool)

  datatype Timers = Timers(
    cra: Control, crb: Control, laA: U16, laB: U16, ta: U16, tb: U16,
    icrA: bool, icrB: bool, serial: Serial, cntHigh: bool)

  predicate CountsA(s: Timers, p: Pulse) {
    s.cra.start && s.cra.inMode == (if p.EClock? then 0 else 1)
  }

  /** Timer B counts every pulse, ... */
  predicate CountsB(s: Timers, p: Pulse) {
    s.crb.start && s.crb.inMode == (if p.EClock? then 0 else 1)
  }

  /** ... or timer A's underflows. */
  predicate Cascades(s: Timers, p: Pulse) {
    s.crb.start && (if p.EClock? then s.crb.inMode == 2 || (s.crb.inMode == 3 && s.cntHigh) else s.crb.inMode == 3)
  }

  /** The effect of counts on timer A, its interrupt flag and the shifter. */
  function AfterA(s: Timers, c: Count): Timers {
    s.(ta := c.counter, icrA := s.icrA || c.underflows > 0,
       serial := ShiftedOut(s.cra.spMode, s.serial, c.underflows),
       cra := s.cra.(start := s.cra.start && !(s.cra.oneShot && c.underflows > 0)))
  }

  function AfterB(s: Timers, c: Count): Timers {
    s.(tb := c.counter, icrB := s.icrB || c.underflows > 0,
       crb := s.crb.(start := s.crb.start && !(s.crb.oneShot && c.underflows > 0)))
  }

  function CountA(s: Timers, p: Pulse, n: nat): Count {
    if CountsA(s, p) then Counted(s.ta, s.laA, !s.cra.oneShot, n) else Count(s.ta, 0)
  }

  /** Pulses that reach timer B. */
  function PulsesB(s: Timers, p: Pulse, n: nat): nat {
    if CountsB(s, p) then n else if Cascades(s, p) then CountA(s, p, n).underflows else 0
  }

  function CountB(s: Timers, p: Pulse, n: nat): Count {
    Counted(s.tb, s.laB, !s.crb.oneShot, PulsesB(s, p, n))
  }

  /** One pulse: timer A, then timer B. */
  function OnPulse(s: Timers, p: Pulse): Timers {
    AfterB(AfterA(s, CountA(s, p, 1)), CountB(s, p, 1))
  }

  /** One pulse in terms of the registers. An E-clock tick reaches a timer in input mode 0,
      a CNT pulse one in mode 1. Timer A's underflow reaches timer B in mode 2 if a tick
      brought it about, and in mode 3 if a tick did while CNT is high or a CNT pulse did. A
      timer at 0 underflows, which sets its interrupt flag and stops a one-shot timer. */
  lemma PulseIs(s: Timers, p: Pulse)
    ensures
      var a := s.cra.start && s.cra.inMode == (match p case EClock => 0 case Cnt => 1);
      var out := a && s.ta == 0;
      var b := s.crb.start && match s.crb.inMode
        case 0 => p == EClock
        case 1 => p == Cnt
        case 2 => out && p == EClock
        case 3 => out && (p == EClock ==> s.cntHigh)
        case _ => false;
      OnPulse(s, p) == s.(
        ta := if !a then s.ta else if s.ta > 0 then s.ta - 1 else if s.cra.oneShot then 0 else s.laA,
        tb := if !b then s.tb else if s.tb > 0 then s.tb - 1 else if s.crb.oneShot then 0 else s.laB,
        icrA := s.icrA || out, icrB := s.icrB || (b && s.tb == 0),
        cra := if out && s.cra.oneShot then s.cra.(start := false) else s.cra,
        crb := if b && s.tb == 0 && s.crb.oneShot then s.crb.(start := false) else s.crb,
        serial := if out then ShiftOut(s.cra.spMode, s.serial) else s.serial)
  {
    hide ShiftOut;
    NoPulses(s.ta, s.laA, !s.cra.oneShot);
    NoPulses(s.tb, s.laB, !s.crb.oneShot);
    NothingHappens(s);
  }

  function OnPulses(s: Timers, p: Pulse, n: nat): Timers {
    if n == 0 then s else OnPulse(OnPulses(s, p, n - 1), p)
  }

  /** However pulses are grouped, only their number matters. */
  lemma {:induction false} PulsesSplit(s: Timers, p: Pulse, a: nat, b: nat)
    ensures OnPulses(s, p, a + b) == OnPulses(OnPulses(s, p, a), p, b)
  {
    hide OnPulse;
    if b == 0 {
    } else {
      PulsesSplit(s, p, a, b - 1);
      assert a + b - 1 == a + (b - 1);
    }
  }

  /** All pulses at once: timer A takes them all, then timer B takes what reaches
      it. This is one-pulse-at-a-time counting. */
  lemma {:induction false} BatchIsPulses(s: Timers, p: Pulse, n: nat)
    ensures OnPulses(s, p, n) == AfterB(AfterA(s, CountA(s, p, n)), CountB(s, p, n))
  {
    if n == 0 {
      BatchOfNone(s, p);
    } else {
      BatchIsPulses(s, p, n - 1);
      BatchAndOne(s, p, n);
    }
  }

  lemma BatchOfNone(s: Timers, p: Pulse)
    ensures OnPulses(s, p, 0) == s == AfterB(AfterA(s, CountA(s, p, 0)), CountB(s, p, 0))
  {
    NoPulses(s.ta, s.laA, !s.cra.oneShot);
    NoPulses(s.tb, s.laB, !s.crb.oneShot);
    NothingHappens(s);
    hide Counted, AfterA, AfterB;
  }

  /** One pulse after a batch is the longer batch. */
  lemma BatchAndOne(s: Timers, p: Pulse, n: nat)
    requires n > 0
    ensures var t := AfterB(AfterA(s, CountA(s, p, n - 1)), CountB(s, p, n - 1));
      OnPulse(t, p) == AfterB(AfterA(s, CountA(s, p, n)), CountB(s, p, n))
  {
    hide Counted, ShiftedOut, CountA, CountB;
    var a, b := CountA(s, p, n - 1), CountB(s, p, n - 1);
    var t := AfterB(AfterA(s, a), b);
    ShiftedOutSplits(s.cra.spMode, s.serial, a.underflows, CountA(t, p, 1).underflows);
    StepA(s, p, n);
    StepB(s, p, n);
  }

  lemma StepA(s: Timers, p: Pulse, n: nat)
    requires n > 0
    ensures var a := CountA(s, p, n - 1);
            var t := AfterB(AfterA(s, a), CountB(s, p, n - 1));
      CountA(s, p, n) == Count(CountA(t, p, 1).counter, a.underflows + CountA(t, p, 1).underflows)
  {
    hide Counted, ShiftedOut;
    var a := CountA(s, p, n - 1);
    if CountsA(s, p) {
      if s.cra.oneShot && a.underflows > 0 {
        OneShotStays(s.ta, s.laA, n - 1, 1);
      } else {
        CountedSplits(s.ta, s.laA, !s.cra.oneShot, n - 1, 1);
      }
    }
  }

  /** What a batch leaves of the fields that decide how timer B counts. */
  lemma AfterBatch(s: Timers, p: Pulse, a: Count, b: Count)
    ensures var t := AfterB(AfterA(s, a), b);
      && t.tb == b.counter && t.laB == s.laB && t.crb.oneShot == s.crb.oneShot
      && CountsB(t, p) == (CountsB(s, p) && !(s.crb.oneShot && b.underflows > 0))
      && Cascades(t, p) == (Cascades(s, p) && !(s.crb.oneShot && b.underflows > 0))
  {
    hide ShiftedOut;
  }

  lemma StepB(s: Timers, p: Pulse, n: nat)
    requires n > 0
    ensures var b := CountB(s, p, n - 1);
            var t := AfterB(AfterA(s, CountA(s, p, n - 1)), b);
      CountB(s, p, n) == Count(CountB(t, p, 1).counter, b.underflows + CountB(t, p, 1).underflows)
  {
    hide Counted, AfterA, AfterB, CountA, CountsB, Cascades;
    var b := CountB(s, p, n - 1);
    var t := AfterB(AfterA(s, CountA(s, p, n - 1)), b);
    StepA(s, p, n);
    AfterBatch(s, p, CountA(s, p, n - 1), b);
    var before, after := PulsesB(s, p, n - 1), PulsesB(s, p, n);
    if s.crb.oneShot && b.underflows > 0 {
      OneShotStays(s.tb, s.laB, before, after - before);
      NoPulses(t.tb, t.laB, false);
    } else {
      assert after == before + PulsesB(t, p, 1);
      CountedSplits(s.tb, s.laB, !s.crb.oneShot, before, after - before);
    }
  }

  lemma NoPulses(counter: U16, latch: U16, continuous: bool)
    ensures Counted(counter, latch, continuous, 0) == Count(counter, 0)
  {
  }

  /** Timer B's count in a step of `ticks` in which `ufA` underflows of timer A showed. */
  function SteppedB(s: Timers, ticks: nat, ufA: nat): Count {
    if CountsB(s, EClock) then Seen(Counted(s.tb, s.laB, !s.crb.oneShot, ticks))
    else Counted(s.tb, s.laB, !s.crb.oneShot, if Cascades(s, EClock) then ufA else 0)
  }

  /** A step of any length: only totals that are positive as a C `int` show. */
  function Stepped(s: Timers, ticks: nat): Timers {
    var a := Seen(CountA(s, EClock, ticks));
    if ticks == 0 then s else AfterB(AfterA(s, a), SteppedB(s, ticks, a.underflows))
  }

  /** Whether the underflow totals of a step fit a C `int`. */
  predicate TotalsFit(s: Timers, ticks: nat) {
    && CountA(s, EClock, ticks).underflows < TWO_31
    && (CountsB(s, EClock) ==> Counted(s.tb, s.laB, !s.crb.oneShot, ticks).underflows < TWO_31)
  }

  lemma SteppedIsPulses(s: Timers, ticks: nat)
    ensures TotalsFit(s, ticks) ==> Stepped(s, ticks) == OnPulses(s, EClock, ticks)
    ensures ticks < TWO_31 ==> TotalsFit(s, ticks)
  {
    hide Counted, AfterA, AfterB, OnPulses, Seen;
    BatchIsPulses(s, EClock, ticks);
    NoPulsesAtAll(s, EClock);
    if TotalsFit(s, ticks) {
      SeenWhole(CountA(s, EClock, ticks));
      if CountsB(s, EClock) { SeenWhole(Counted(s.tb, s.laB, !s.crb.oneShot, ticks)); }
    }
  }

  /** Timer A leaves alone what timer B's step looks at. */
  lemma SteppedInTurn(s: Timers, ticks: nat)
    requires ticks > 0
    ensures var a := Seen(CountA(s, EClock, ticks));
      Stepped(s, ticks) == AfterB(AfterA(s, a), SteppedB(AfterA(s, a), ticks, a.underflows))
  {
    hide Counted, ShiftedOut, Seen;
  }

  /** A free-running timer A of period 1 underflows 2^31 times in 2^31 ticks: the
      total is negative as a C `int`, and the interrupt is lost. */
  lemma LostUnderflows(s: Timers)
    requires s.cra.start && s.cra.inMode == 0 && !s.cra.oneShot && s.ta == s.laA == 0 && !s.icrA
    ensures !TotalsFit(s, TWO_31) && !Stepped(s, TWO_31).icrA && OnPulses(s, EClock, TWO_31).icrA
  {
    hide Counted, OnPulses, ShiftedOut, CountA, Seen;
    PeriodOne(s);
    BatchIsPulses(s, EClock, TWO_31);
  }

  lemma PeriodOne(s: Timers)
    requires s.cra.start && s.cra.inMode == 0 && !s.cra.oneShot && s.ta == s.laA == 0
    ensures CountA(s, EClock, TWO_31) == Count(0, TWO_31) && Seen(Count(0, TWO_31)) == Count(0, 0)
  {
    hide Counted;
    FreeRuns(0, TWO_31);
  }

  class Cia {
    var cra: Control
    var crb: Control
    var laA: U16
    var laB: U16
    var ta: U16
    var tb: U16
    var icrA: bool
    var icrB: bool
    var serial: Serial
    var cntHigh: bool

    ghost function State(): Timers
      reads this
    {
      Timers(cra, crb, laA, laB, ta, tb, icrA, icrB, serial, cntHigh)
    }

    constructor ()
      ensures State() == Timers(Control(false, false, 0, false), Control(false, false, 0, false), 0xFFFF, 0xFFFF,
                                0xFFFF, 0xFFFF, false, false, Serial(false, 0, 0, 0, false, false), true)
    {
      cra, crb := Control(false, false, 0, false), Control(false, false, 0, false);
      laA, laB, ta, tb := 0xFFFF, 0xFFFF, 0xFFFF, 0xFFFF;
      icrA, icrB, serial, cntHigh := false, false, Serial(false, 0, 0, 0, false, false), true;
    }

    /** The consequences of timer A underflows. */
    method RaiseA(underflows: nat)
      modifies `icrA, `serial, `cra
      ensures underflows > 0 ==> State() == AfterA(old(State()), Count(ta, underflows))
      ensures underflows == 0 ==> State() == old(State())
    {
      if underflows > 0 {
        icrA := true;
        for i := 0 to underflows
          invariant serial == ShiftedOut(cra.spMode, old(serial), i) && cra == old(cra) && icrA
        {
          serial := ShiftOut(cra.spMode, serial);
        }
        if cra.oneShot {
          cra := cra.(start := false);
        }
      }
    }

    method RaiseB(underflows: nat)
      modifies `icrB, `crb
      ensures underflows > 0 ==> State() == AfterB(old(State()), Count(tb, underflows))
      ensures underflows == 0 ==> State() == old(State())
    {
      if underflows > 0 {
        icrB := true;
        if crb.oneShot {
          crb := crb.(start := false);
        }
      }
    }

    method StepTimerA(ticks: U64) returns (underflows: nat)
      modifies `ta, `icrA, `serial, `cra
      ensures var c := Seen(CountA(old(State()), EClock, ticks));
        State() == AfterA(old(State()), c) && underflows == c.underflows < TWO_31
    {
      hide Counted, AfterA;
      ghost var s := State();
      NothingHappens(s);
      underflows := 0;
      if cra.start && cra.inMode == 0 {
        var uf;
        ta, uf := Advance(ta, laA, !cra.oneShot, ticks);
        underflows := if uf > 0 then uf else 0;
        RaiseA(underflows);
        CountedAfterA(s, Count(ta, underflows), State());
      }
    }

    method StepTimerB(ticks: U64, ufA: nat)
      requires ufA < TWO_31
      modifies `tb, `icrB, `crb
      ensures State() == AfterB(old(State()), SteppedB(old(State()), ticks, ufA))
    {
      hide Counted, AfterB;
      ghost var s := State();
      NothingHappens(s);
      NoPulses(tb, laB, !crb.oneShot);
      if crb.start {
        var ufB := 0;
        if crb.inMode == 0 {
          var uf;
          tb, uf := Advance(tb, laB, !crb.oneShot, ticks);
          ufB := if uf > 0 then uf else 0;
        } else if (crb.inMode == 2 || crb.inMode == 3) && ufA > 0 && (crb.inMode != 3 || cntHigh) {
          tb, ufB := AdvanceEvents(tb, laB, !crb.oneShot, ufA);
        }
        ghost var c := Count(tb, ufB);
        RaiseB(ufB);
        CountedAfterB(s, c, State());
      }
    }

    /** E-clock ticks in one call count as if they had come one by one, up to the 2^31
        of them that the divider never reaches, and beyond as long as the underflow
        totals fit a C `int`. */
    method TimersStep(ticks: U64)
      modifies this
      ensures ticks < TWO_31 ==> State() == OnPulses(old(State()), EClock, ticks)
      ensures State() == Stepped(old(State()), ticks)
      ensures TotalsFit(old(State()), ticks) ==> State() == OnPulses(old(State()), EClock, ticks)
    {
      hide Counted, OnPulses, ShiftedOut, Stepped, TotalsFit;
      SteppedIsPulses(State(), ticks);
      if ticks == 0 {
        NoPulsesAtAll(State(), EClock);
        return;
      }
      ghost var s := State();
      var ufA := StepTimerA(ticks);
      StepTimerB(ticks, ufA);
      SteppedInTurn(s, ticks);
    }

    method CountTimerA(pulses: U32) returns (underflows: nat)
      requires CountA(State(), Cnt, pulses).underflows < TWO_31
      modifies `ta, `icrA, `serial, `cra
      ensures var c := CountA(old(State()), Cnt, pulses);
        State() == AfterA(old(State()), c) && underflows == c.underflows
    {
      hide Counted, AfterA;
      ghost var s := State();
      NothingHappens(s);
      underflows := 0;
      if cra.start && cra.inMode == 1 {
        ta, underflows := AdvanceEvents(ta, laA, !cra.oneShot, pulses);
        RaiseA(underflows);
        CountedAfterA(s, Count(ta, underflows), State());
      }
    }

    /** CNT pulses in one call count as if they had come one by one. */
    method CountCnt(pulses: U32)
      requires CountA(State(), Cnt, pulses).underflows < TWO_31 && CountB(State(), Cnt, pulses).underflows < TWO_31
      modifies this
      ensures State() == OnPulses(old(State()), Cnt, pulses)
    {
      hide Counted, OnPulses, ShiftedOut, AfterB;
      BatchIsPulses(State(), Cnt, pulses);
      if pulses == 0 {
        NoPulsesAtAll(State(), Cnt);
        return;
      }
      var ufA := CountTimerA(pulses);
      ghost var s := State();
      NothingHappens(s);
      NoPulses(tb, laB, !crb.oneShot);
      if crb.start {
        var ufB := 0;
        if crb.inMode == 1 {
          tb, ufB := AdvanceEvents(tb, laB, !crb.oneShot, pulses);
        } else if crb.inMode == 3 && ufA > 0 {
          tb, ufB := AdvanceEvents(tb, laB, !crb.oneShot, ufA);
        }
        ghost var c := Count(tb, ufB);
        RaiseB(ufB);
        CountedAfterB(s, c, State());
      }
    }
  }

  lemma NoPulsesAtAll(s: Timers, p: Pulse)
    ensures OnPulses(s, p, 0) == s
  {
  }

  lemma NothingHappens(s: Timers)
    ensures AfterA(s, Count(s.ta, 0)) == s && AfterB(s, Count(s.tb, 0)) == s
  {
  }

  lemma CountedAfterA(s: Timers, c: Count, t: Timers)
    requires if c.underflows > 0 then t == AfterA(s.(ta := c.counter), c) else t == s.(ta := c.counter)
    ensures t == AfterA(s, c)
  {
  }

  lemma CountedAfterB(s: Timers, c: Count, t: Timers)
    requires if c.underflows > 0 then t == AfterB(s.(tb := c.counter), c) else t == s.(tb := c.counter)
    ensures t == AfterB(s, c)
  {
  }

  // ------------------------------------------------------------- cascading

  /** Both timers free-running, timer B counting timer A's underflows. */
  ghost predicate Cascaded(s: Timers) {
    && s.cra.start && !s.cra.oneShot && s.cra.inMode == 0
    && !s.crb.oneShot && Cascades(s, EClock)
    && s.ta <= s.laA && s.tb <= s.laB
  }

  function Period(s: Timers): (period: nat)
    ensures period > 0
  {
    var a, b := s.laA + 1, s.laB + 1;
    MultipleBound(a, b);
    a * b
  }

  /** The two counters as the digits of one number. */
  function Joined(s: Timers): nat {
    s.tb * (s.laA + 1) + s.ta
  }

  /** Taking one from a two-digit number. */
  lemma Borrow(ta: nat, tb: nat, a: nat, b: nat)
    requires ta <= a && tb <= b
    ensures tb * (a + 1) + ta < (a + 1) * (b + 1)
    ensures (ta > 0 || tb > 0) == (tb * (a + 1) + ta > 0)
    ensures tb > 0 ==> (tb - 1) * (a + 1) + a == tb * (a + 1) - 1
    ensures b * (a + 1) + a == (a + 1) * (b + 1) - 1
  {
    assert (b - tb) * (a + 1) >= 0;
    assert tb > 0 ==> tb * (a + 1) >= a + 1;
  }

  lemma JoinedPulse(s: Timers)
    requires Cascaded(s)
    ensures var t := OnPulse(s, EClock);
      && Cascaded(t) && Period(t) == Period(s) && Joined(s) < Period(s)
      && Joined(t) == if Joined(s) == 0 then Period(s) - 1 else Joined(s) - 1
  {
    OneCount(s.ta, s.laA);
    OneCount(s.tb, s.laB);
    NoPulses(s.tb, s.laB, true);
    hide Counted, ShiftedOut;
    Borrow(s.ta, s.tb, s.laA, s.laB);
    var t := OnPulse(s, EClock);
    assert t.ta == if s.ta > 0 then s.ta - 1 else s.laA;
    assert t.tb == if s.ta > 0 then s.tb else if s.tb > 0 then s.tb - 1 else s.laB;
  }

  lemma OneCount(counter: U16, latch: U16)
    ensures Counted(counter, latch, true, 1) == if counter > 0 then Count(counter - 1, 0) else Count(latch, 1)
  {
  }

  /** A cascaded pair is one counter that goes down by one a tick, modulo the
      product of the two periods. */
  lemma {:induction false} CascadeIsOneCounter(s: Timers, n: nat)
    requires Cascaded(s)
    ensures var t := OnPulses(s, EClock, n);
      Cascaded(t) && Period(t) == Period(s) && Joined(t) == (Joined(s) - n) % Period(s)
  {
    hide OnPulse, Joined, Period, Cascaded;
    if n == 0 {
      JoinedPulse(s);
      Division(0, Period(s), Joined(s));
    } else {
      CascadeIsOneCounter(s, n - 1);
      JoinedPulse(OnPulses(s, EClock, n - 1));
      Predecessor(Joined(s) - (n - 1), Period(s));
    }
  }

  lemma Predecessor(x: int, d: nat)
    requires d > 0
    ensures (x - 1) % d == if x % d == 0 then d - 1 else x % d - 1
  {
    var q := x / d;
    assert x - 1 == q * d + x % d - 1;
    if x % d == 0 {
      assert x - 1 == (q - 1) * d + (d - 1);
      IntDivision(q - 1, d, d - 1);
    } else {
      IntDivision(q, d, x % d - 1);
    }
  }

  // ---------------------------------------------------------- the E-clock

  const CCK_PER_ECLOCK := 5

  /** The divider keeps every tick exactly when remainder plus cycles still fits
      thirty-two bits. */
  lemma DividerLosesNothing(rem: nat, cycles: U32)
    requires rem < CCK_PER_ECLOCK
    ensures (rem + cycles) % TWO_32 / CCK_PER_ECLOCK == (rem + cycles) / CCK_PER_ECLOCK <==> rem + cycles < TWO_32
  {
  }

  /** E-clock ticks in a number of chip cycles, and the cycles left over. */
  function EClocks(cycles: nat): nat {
    cycles / CCK_PER_ECLOCK
  }

  function LeftOver(cycles: nat): (rest: nat)
    ensures rest < CCK_PER_ECLOCK
  {
    cycles % CCK_PER_ECLOCK
  }

  /** The divider's remainder carries what the quotient leaves. */
  lemma DividerAdds(cycles: nat, part: nat)
    ensures EClocks(cycles + part) == EClocks(cycles) + EClocks(LeftOver(cycles) + part)
    ensures LeftOver(cycles + part) == LeftOver(LeftOver(cycles) + part)
  {
    var q, rest := EClocks(cycles), LeftOver(cycles) + part;
    assert cycles + part == (q + EClocks(rest)) * CCK_PER_ECLOCK + LeftOver(rest);
  }

  /** The chip cycles that a list of steps counts: each step whose sum with the
      remainder leaves thirty-two bits drops 2^32 of them. */
  function Counting(rem: nat, parts: seq<U32>): nat {
    if parts == [] then rem
    else
      var before, part := Counting(rem, parts[..|parts| - 1]), parts[|parts| - 1];
      before + part - if LeftOver(before) + part < TWO_32 then 0 else TWO_32
  }

  /** How many of the steps lose ticks. */
  function Losses(rem: nat, parts: seq<U32>): nat {
    if parts == [] then 0
    else
      var before, part := parts[..|parts| - 1], parts[|parts| - 1];
      Losses(rem, before) + if LeftOver(Counting(rem, before)) + part < TWO_32 then 0 else 1
  }

  lemma {:induction false} CountingIs(rem: nat, parts: seq<U32>)
    ensures Counting(rem, parts) == rem + Total(parts) - Losses(rem, parts) * TWO_32
  {
    hide LeftOver;
    if parts == [] {
    } else {
      CountingIs(rem, parts[..|parts| - 1]);
    }
  }

  /** The ticks of a list of steps are those of one span of as many cycles if and
      only if none of the steps loses any. */
  lemma CutsLoseNothing(rem: nat, parts: seq<U32>)
    ensures EClocks(Counting(rem, parts)) == EClocks(rem + Total(parts)) <==> Losses(rem, parts) == 0
  {
    hide Counting, Losses;
    CountingIs(rem, parts);
  }

  lemma Sum32(sum: nat)
    requires sum < 2 * TWO_32
    ensures sum % TWO_32 == if sum < TWO_32 then sum else sum - TWO_32
  {
  }

  lemma Whole(cycles: nat)
    ensures cycles == EClocks(cycles) * CCK_PER_ECLOCK + LeftOver(cycles)
    ensures EClocks(EClocks(cycles) * CCK_PER_ECLOCK) == EClocks(cycles)
      && LeftOver(EClocks(cycles) * CCK_PER_ECLOCK) == 0
  {
  }

  /** A step, whether or not it loses ticks, after those that counted `before` cycles. */
  lemma StepCounts(before: nat, part: U32)
    ensures var after := before + part - if LeftOver(before) + part < TWO_32 then 0 else TWO_32;
      && after >= 0
      && EClocks(after) == EClocks(before) + EClocks((LeftOver(before) + part) % TWO_32)
      && LeftOver(after) == LeftOver((LeftOver(before) + part) % TWO_32)
  {
    hide EClocks, LeftOver;
    var sum := LeftOver(before) + part;
    Sum32(sum);
    DividerAdds(before, part);
    if sum >= TWO_32 {
      Whole(before);
      DividerAdds(EClocks(before) * CCK_PER_ECLOCK, sum - TWO_32);
    }
  }

  lemma NothingElapsed(rem: nat)
    requires rem < CCK_PER_ECLOCK
    ensures LeftOver(rem) == rem && EClocks(rem) == 0
  {
  }

  class EClock {
    const ciaA: Cia
    const ciaB: Cia
    var rem: U32

    ghost predicate Valid()
      reads this
    {
      ciaA != ciaB && rem < CCK_PER_ECLOCK
    }

    constructor (ciaA: Cia, ciaB: Cia)
      requires ciaA != ciaB
      ensures Valid() && rem == 0 && this.ciaA == ciaA && this.ciaB == ciaB
    {
      this.ciaA, this.ciaB, rem := ciaA, ciaB, 0;
    }

    /** Chip cycles become E-clock ticks for both CIAs. */
    method Step(cycles: U32)
      requires Valid()
      modifies this, ciaA, ciaB
      ensures Valid()
      ensures var clocks := (old(rem) + cycles) % TWO_32;
        && rem == LeftOver(clocks) && EClocks(clocks) < TWO_31
        && ciaA.State() == OnPulses(old(ciaA.State()), Pulse.EClock, EClocks(clocks))
        && ciaB.State() == OnPulses(old(ciaB.State()), Pulse.EClock, EClocks(clocks))
    {
      hide OnPulses;
      rem := (rem + cycles) % TWO_32;
      var ticks := rem / CCK_PER_ECLOCK;
      rem := rem % CCK_PER_ECLOCK;
      NoPulsesAtAll(ciaA.State(), Pulse.EClock);
      NoPulsesAtAll(ciaB.State(), Pulse.EClock);
      if ticks > 0 {
        ciaA.TimersStep(ticks);
        ciaB.TimersStep(ticks);
      }
    }

    /** Counters, START bits, interrupt flags and serial shifters after any steps are
        those of the ticks counted; they depend only on the span and on how many of
        its steps lose ticks. */
    method Run(parts: seq<U32>)
      requires Valid()
      modifies this, ciaA, ciaB
      ensures Valid()
      ensures var clocks := old(rem) + Total(parts) - Losses(old(rem), parts) * TWO_32;
        && clocks >= 0 && rem == LeftOver(clocks)
        && ciaA.State() == OnPulses(old(ciaA.State()), Pulse.EClock, EClocks(clocks))
        && ciaB.State() == OnPulses(old(ciaB.State()), Pulse.EClock, EClocks(clocks))
    {
      hide OnPulses, EClocks, LeftOver, Losses;
      NothingElapsed(rem);
      NoPulsesAtAll(ciaA.State(), Pulse.EClock);
      NoPulsesAtAll(ciaB.State(), Pulse.EClock);
      for i := 0 to |parts|
        invariant Valid() && rem == LeftOver(Counting(old(rem), parts[..i]))
        invariant ciaA.State() == OnPulses(old(ciaA.State()), Pulse.EClock, EClocks(Counting(old(rem), parts[..i])))
        invariant ciaB.State() == OnPulses(old(ciaB.State()), Pulse.EClock, EClocks(Counting(old(rem), parts[..i])))
      {
        assert parts[..i + 1][..i] == parts[..i];
        ghost var clocks, more := Counting(old(rem), parts[..i]), EClocks((rem + parts[i]) % TWO_32);
        PulsesSplit(old(ciaA.State()), Pulse.EClock, EClocks(clocks), more);
        PulsesSplit(old(ciaB.State()), Pulse.EClock, EClocks(clocks), more);
        StepCounts(clocks, parts[i]);
        Step(parts[i]);
      }
      assert parts[..|parts|] == parts;
      CountingIs(old(rem), parts);
    }
  }
}
