/** The raster beam: stepping it clock by clock, by any number of clocks at once,
    and by arithmetic on a snapshot. */
module Beam {
  import opened Arithmetic
  import opened Integers
  import opened Wrappers

  const DEFAULT_LINE_CLOCKS := 227
  const DEFAULT_FRAME_LINES := 262
  const VERTB_HPOS := 1

  type Clocks = x: int | 0 <= x < 0xFFFF

  datatype BeamState = BeamState(hpos: U16, vpos: U16, lineClocks: Clocks, frameLines: Clocks,
                                 lof: bool, lofToggle: bool, lol: bool, lolToggle: bool, frameCount: U64)
  {
    function LineLength(): nat {
      lineClocks + if lol then 1 else 0
    }

    function FrameLength(): nat {
      frameLines + if lof then 1 else 0
    }

    /** A beam on its line, with a geometry. */
    predicate Running() {
      lineClocks > 0 && frameLines > 0 && hpos <= LineLength()
    }

    /** Neither long lines nor long frames, now or later. */
    predicate Uniform() {
      !lof && !lofToggle && !lol && !lolToggle
    }
  }

  function Reset(): BeamState {
    BeamState(0, 0, DEFAULT_LINE_CLOCKS, DEFAULT_FRAME_LINES, false, false, false, false, 0)
  }

  /** A beam without a geometry is reset before it moves. */
  function Started(b: BeamState): BeamState {
    if b.lineClocks == 0 || b.frameLines == 0 then Reset() else b
  }

  function NewFrame(b: BeamState): BeamState {
    b.(vpos := 0, frameCount := (b.frameCount + 1) % TWO_64, lof := if b.lofToggle then !b.lof else false,
       lol := if b.lolToggle then b.lol else false)
  }

  function NewLine(b: BeamState): BeamState {
    var next := b.(hpos := 0, vpos := (b.vpos + 1) % 0x1_0000, lol := if b.lolToggle then !b.lol else false);
    if next.vpos >= next.FrameLength() then NewFrame(next) else next
  }

  /** One clock: a beam at the end of its line begins the next line first. */
  function Tick(b: BeamState): (next: BeamState)
    requires b.Running()
    ensures next.Running() && next.hpos < next.LineLength()
  {
    var s := if b.hpos == b.LineLength() then NewLine(b) else b;
    if s.hpos + 1 == s.LineLength() then NewLine(s) else s.(hpos := s.hpos + 1)
  }

  function Ticks(b: BeamState, n: nat): (next: BeamState)
    requires b.Running()
    ensures next.Running() && (n > 0 ==> next.hpos < next.LineLength())
  {
    if n == 0 then b else Tick(Ticks(b, n - 1))
  }

  /** Clocks add up, through any number of long lines and long frames. */
  lemma {:induction false} TicksAdd(b: BeamState, m: nat, n: nat)
    requires b.Running()
    ensures Ticks(Ticks(b, m), n) == Ticks(b, m + n)
  {
    hide Tick;
    if n == 0 {
    } else {
      TicksAdd(b, m, n - 1);
    }
  }

  lemma {:induction false} TicksInLine(b: BeamState, n: nat)
    requires b.Running() && b.hpos + n < b.LineLength()
    ensures Ticks(b, n) == b.(hpos := b.hpos + n)
  {
    if n == 0 {
    } else {
      TicksInLine(b, n - 1);
    }
  }

  lemma TicksNext(b: BeamState, n: nat)
    requires b.Running()
    ensures Ticks(b, n + 1) == Tick(Ticks(b, n))
  {
    hide Tick;
  }

  lemma TicksToLineEnd(b: BeamState)
    requires b.Running() && b.hpos < b.LineLength()
    ensures Ticks(b, b.LineLength() - b.hpos) == NewLine(b)
  {
    hide NewLine, Ticks;
    var n := b.LineLength() - b.hpos - 1;
    TicksInLine(b, n);
    TicksNext(b, n);
    NewLineForgets(b, b.hpos + n);
  }

  lemma NewLineForgets(b: BeamState, h: U16)
    ensures NewLine(b.(hpos := h)) == NewLine(b)
  {
  }

  // ------------------------------------------------------------ the counters

  /** What can happen to a beam. */
  datatype BeamEvent = Advance(clocks: U16) | Interlace(on: bool)

  class BeamUnit {
    var hpos: U16
    var vpos: U16
    var lineClocks: Clocks
    var frameLines: Clocks
    var lof: bool
    var lofToggle: bool
    var lol: bool
    var lolToggle: bool
    var frameCount: U64

    constructor (b: BeamState)
      ensures State() == b
    {
      hpos, vpos, lineClocks, frameLines := b.hpos, b.vpos, b.lineClocks, b.frameLines;
      lof, lofToggle, lol, lolToggle, frameCount := b.lof, b.lofToggle, b.lol, b.lolToggle, b.frameCount;
    }

    function State(): BeamState
      reads this
    {
      BeamState(hpos, vpos, lineClocks, frameLines, lof, lofToggle, lol, lolToggle, frameCount)
    }

    method ResetBeam()
      modifies this
      ensures State() == Reset()
    {
      hpos, vpos, lineClocks, frameLines := 0, 0, DEFAULT_LINE_CLOCKS, DEFAULT_FRAME_LINES;
      lof, lofToggle, lol, lolToggle, frameCount := false, false, false, false, 0;
    }

    method AdvanceLine()
      modifies this
      ensures State() == NewLine(old(State()))
    {
      hpos := 0;
      vpos := (vpos + 1) % 0x1_0000;
      lol := if lolToggle then !lol else false;
      if vpos >= frameLines + if lof then 1 else 0 {
        vpos := 0;
        frameCount := (frameCount + 1) % TWO_64;
        lof := if lofToggle then !lof else false;
        if !lolToggle { lol := false; }
      }
    }

    /** Any number of clocks at once, line by line, is that many single clocks. */
    method Step(clocks: U16)
      requires hpos <= State().LineLength() || lineClocks == 0 || frameLines == 0
      modifies this
      ensures State() == Ticks(Started(old(State())), clocks)
    {
      hide NewLine, Tick, Ticks;
      if lineClocks == 0 || frameLines == 0 { ResetBeam(); }
      ghost var start := State();
      var left := clocks;
      while left > 0
        invariant 0 <= left <= clocks && start.Running() && State().Running()
        invariant Ticks(State(), left) == Ticks(start, clocks)
        decreases left, if hpos == State().LineLength() then 1 else 0
      {
        ghost var here := State();
        var length := lineClocks + if lol then 1 else 0;
        var remaining := length - hpos;
        LineSplits(here, left);
        if remaining == 0 {
          AdvanceLine();
          continue;
        }
        if left < remaining {
          hpos := hpos + left;
          left := 0;
          NoTicks(State());
        } else {
          hpos := hpos + remaining;
          left := left - remaining;
          if hpos >= length { AdvanceLine(); }
        }
      }
      NoTicks(State());
    }

    /** A write to BPLCON0 turns interlace on or off; off makes the present frame a
        normal one at once. */
    method SetInterlace(on: bool)
      modifies `lofToggle, `lof
      ensures lofToggle == on && lof == (on && old(lof))
    {
      lofToggle := on;
      if !on { lof := false; }
    }

    /** Any clocks and BPLCON0 writes in any order keep the beam on lines of the
        normal length and no more than one line past the normal frame. */
    method Run(events: seq<BeamEvent>)
      requires Reachable(State())
      modifies this
      ensures Reachable(State())
      ensures lineClocks == old(lineClocks) && frameLines == old(frameLines)
    {
      hide Tick, Ticks;
      for i := 0 to |events|
        invariant Reachable(State()) && lineClocks == old(lineClocks) && frameLines == old(frameLines)
      {
        match events[i]
        case Advance(n) =>
          StaysReachable(State(), n);
          Step(n);
        case Interlace(on) =>
          SetInterlace(on);
      }
    }
  }

  lemma NewLineRuns(b: BeamState)
    requires b.Running()
    ensures NewLine(b).Running() && NewLine(b).hpos == 0
  {
  }

  /** A beam at the end of its line is as good as one at the start of the next. */
  lemma {:induction false} EndedLine(b: BeamState, n: nat)
    requires b.Running() && b.hpos == b.LineLength() && n > 0
    ensures NewLine(b).Running() && NewLine(b).hpos == 0 && Ticks(b, n) == Ticks(NewLine(b), n)
  {
    hide NewLine;
    NewLineRuns(b);
    if n > 1 {
      EndedLine(b, n - 1);
    } else {
      assert Ticks(b, 1) == Tick(Ticks(b, 0)) && Ticks(NewLine(b), 1) == Tick(Ticks(NewLine(b), 0));
    }
  }

  lemma NoTicks(b: BeamState)
    requires b.Running()
    ensures Ticks(b, 0) == b
  {
  }

  /** `n` clocks either stay on the line or begin the next one with what is left. */
  lemma LineSplits(b: BeamState, n: nat)
    requires b.Running() && n > 0
    ensures NewLine(b).Running() && NewLine(b).hpos == 0
    ensures var remaining := b.LineLength() - b.hpos;
      if n < remaining then Ticks(b, n) == b.(hpos := b.hpos + n)
      else Ticks(b, n) == Ticks(NewLine(b), n - remaining) && NewLine(b.(hpos := b.LineLength())) == NewLine(b)
  {
    hide NewLine, Ticks, Tick;
    var remaining := b.LineLength() - b.hpos;
    NewLineRuns(b);
    NewLineForgets(b, b.LineLength());
    if n < remaining {
      TicksInLine(b, n);
    } else if remaining == 0 {
      EndedLine(b, n);
    } else {
      TicksToLineEnd(b);
      TicksAdd(b, remaining, n - remaining);
    }
  }

  // ------------------------------------------------------------------ frames

  /** A beam inside a line of the normal length; without `lolToggle` all its lines
      are. */
  predicate ShortLines(b: BeamState) {
    b.frameLines > 0 && !b.lol && !b.lolToggle && b.hpos < b.lineClocks
  }

  /** Lines of the frame the beam is in: a beam below the frame is on its last line. */
  function Lines(b: BeamState): nat {
    if b.vpos < b.FrameLength() then b.FrameLength() else b.vpos + 1
  }

  /** The beam's place in its frame. */
  function Place(b: BeamState): nat {
    b.vpos * b.lineClocks + b.hpos
  }

  /** The place at which its frame ends. */
  function FrameEnd(b: BeamState): nat {
    Lines(b) * b.lineClocks
  }

  /** The clocks of a frame that is not long. */
  function FrameClocks(b: BeamState): nat {
    b.lineClocks * b.frameLines
  }

  /** The same frame at another position. */
  predicate SameFrame(b: BeamState, s: BeamState) {
    s == b.(vpos := s.vpos, hpos := s.hpos) && ShortLines(s) && Lines(s) == Lines(b)
  }

  lemma ShortTick(b: BeamState)
    requires ShortLines(b)
    ensures ShortLines(Tick(b)) && Tick(b).lineClocks == b.lineClocks && Tick(b).frameLines == b.frameLines
    ensures b.Uniform() ==> Tick(b).Uniform()
    ensures b.hpos + 1 < b.lineClocks ==> Tick(b) == b.(hpos := b.hpos + 1)
    ensures b.hpos + 1 == b.lineClocks && b.vpos + 1 < Lines(b) ==> Tick(b) == b.(hpos := 0, vpos := b.vpos + 1)
    ensures b.hpos + 1 == b.lineClocks && b.vpos + 1 == Lines(b) ==> Tick(b).vpos == Tick(b).hpos == 0
  {
  }

  /** What holds of the beam in every reachable state: nothing sets `lolToggle`, and
      the last line is the extra one of a long frame, in which the frame may have been
      made a normal one. */
  predicate Reachable(b: BeamState) {
    ShortLines(b) && b.vpos <= b.frameLines
  }

  lemma {:induction false} StaysReachable(b: BeamState, n: nat)
    requires Reachable(b)
    ensures Reachable(Ticks(b, n)) && Ticks(b, n).lineClocks == b.lineClocks && Ticks(b, n).frameLines == b.frameLines
  {
    hide Tick;
    if n == 0 {
    } else {
      StaysReachable(b, n - 1);
      ShortTick(Ticks(b, n - 1));
    }
  }

  lemma LaterLine(v: nat, lines: nat, clocks: nat)
    requires v < lines && clocks > 0
    ensures v * clocks + clocks <= lines * clocks
  {
    var k := lines - v - 1;
    assert lines * clocks == k * clocks + v * clocks + clocks;
    if k > 0 { MultipleBound(k, clocks); }
  }

  lemma PlaceInFrame(b: BeamState)
    requires ShortLines(b)
    ensures Place(b) < FrameEnd(b)
  {
    LaterLine(b.vpos, Lines(b), b.lineClocks);
  }

  /** Before the frame's end a clock is one place. */
  lemma TickInside(b: BeamState)
    requires ShortLines(b) && Place(b) + 1 < FrameEnd(b)
    ensures SameFrame(b, Tick(b)) && Place(Tick(b)) == Place(b) + 1
  {
    hide Tick;
    ShortTick(b);
    assert (b.vpos + 1) * b.lineClocks == b.vpos * b.lineClocks + b.lineClocks;
  }

  /** The last clock of a frame begins the next one. */
  lemma TickAcross(b: BeamState)
    requires ShortLines(b) && Place(b) + 1 == FrameEnd(b)
    ensures ShortLines(Tick(b)) && Tick(b).lineClocks == b.lineClocks && Tick(b).frameLines == b.frameLines
    ensures Tick(b).vpos == Tick(b).hpos == 0
  {
    hide Tick;
    ShortTick(b);
    if b.vpos + 1 < Lines(b) {
      assert (b.vpos + 1) * b.lineClocks == b.vpos * b.lineClocks + b.lineClocks;
      LaterLine(b.vpos + 1, Lines(b), b.lineClocks);
    }
  }

  /** Clocks that do not pass the frame's end are places. */
  lemma {:induction false} Inside(b: BeamState, k: nat)
    requires ShortLines(b) && Place(b) + k < FrameEnd(b)
    ensures SameFrame(b, Ticks(b, k)) && Place(Ticks(b, k)) == Place(b) + k
  {
    hide Tick, Place;
    if k == 0 {
    } else {
      Inside(b, k - 1);
      TickInside(Ticks(b, k - 1));
    }
  }

  /** Clocks that pass it once are places from the start of the next frame. */
  lemma Beyond(b: BeamState, k: nat)
    requires ShortLines(b) && FrameEnd(b) <= Place(b) + k < FrameEnd(b) + FrameClocks(b)
    ensures var s := Ticks(b, k);
      && ShortLines(s) && s.lineClocks == b.lineClocks && s.frameLines == b.frameLines && s.vpos < s.frameLines
      && Place(s) == Place(b) + k - FrameEnd(b)
  {
    hide Tick, Ticks, Place, FrameEnd, FrameClocks;
    PlaceInFrame(b);
    var last := FrameEnd(b) - Place(b) - 1;
    Inside(b, last);
    var end := Ticks(b, last);
    assert FrameEnd(end) == FrameEnd(b) by { SameEnd(b, end); }
    TickAcross(end);
    TicksNext(b, last);
    var start := Tick(end);
    FrameStarts(start);
    TicksAdd(b, last + 1, k - last - 1);
    assert FrameClocks(start) == FrameClocks(b) by { SameClocks(b, start); }
    Inside(start, k - last - 1);
    SameClocks(b, Ticks(b, k));
    OnLine(Ticks(b, k));
  }

  lemma SameEnd(b: BeamState, s: BeamState)
    requires SameFrame(b, s)
    ensures FrameEnd(s) == FrameEnd(b)
  {
  }

  lemma SameClocks(b: BeamState, s: BeamState)
    requires s.lineClocks == b.lineClocks && s.frameLines == b.frameLines
    ensures FrameClocks(s) == FrameClocks(b)
  {
  }

  lemma FrameStarts(s: BeamState)
    requires ShortLines(s) && s.vpos == s.hpos == 0
    ensures Place(s) == 0 && FrameClocks(s) <= FrameEnd(s)
  {
    assert (s.frameLines + 1) * s.lineClocks == s.frameLines * s.lineClocks + s.lineClocks;
  }

  /** The frame's last clock ends at the first place of the next frame, which is long if and
      only if interlace is on and this one was not. */
  lemma NextFrame(b: BeamState)
    requires Reachable(b)
    ensures Place(b) < FrameEnd(b) && Ticks(b, FrameEnd(b) - Place(b)) == FrameAfter(b)
  {
    hide Tick, Ticks, Place, FrameEnd, FrameAfter;
    PlaceInFrame(b);
    var last := FrameEnd(b) - Place(b) - 1;
    StaysReachable(b, last);
    Inside(b, last);
    var end := Ticks(b, last);
    SameEnd(b, end);
    LastTick(end);
    TicksNext(b, last);
    SameNext(b, end);
  }

  function FrameAfter(b: BeamState): BeamState {
    FramesLater(b, 1).(hpos := 0, vpos := 0, lof := b.lofToggle && !b.lof)
  }

  /** The same beam `n` frames on: the counter is sixty-four bits wide. */
  function FramesLater(b: BeamState, n: nat): BeamState {
    b.(frameCount := (b.frameCount + n) % TWO_64)
  }

  lemma FramesAdd(b: BeamState, m: nat, n: nat)
    ensures FramesLater(FramesLater(b, m), n) == FramesLater(b, m + n) && FramesLater(b, 0) == b
  {
  }

  lemma SameNext(b: BeamState, s: BeamState)
    requires SameFrame(b, s)
    ensures FrameAfter(s) == FrameAfter(b)
  {
  }

  lemma LastTick(b: BeamState)
    requires Reachable(b) && Place(b) + 1 == FrameEnd(b)
    ensures Tick(b) == FrameAfter(b)
  {
    assert (b.vpos + 1) * b.lineClocks == b.vpos * b.lineClocks + b.lineClocks;
    if b.vpos + 1 < Lines(b) { LaterLine(b.vpos + 1, Lines(b), b.lineClocks); }
    assert b.vpos + 1 == Lines(b) && b.hpos + 1 == b.lineClocks by { hide Tick, FrameAfter; }
  }

  /** The clocks of a normal frame and a long one: one line more than twice the normal
      frame. */
  function PairClocks(b: BeamState): nat {
    (2 * b.frameLines + 1) * b.lineClocks
  }

  /** With interlace on, a normal frame and a long one take turns: the two of them leave
      the beam as it was. */
  lemma InterlacedPair(b: BeamState)
    requires ShortLines(b) && b.hpos == b.vpos == 0 && b.lofToggle
    ensures Ticks(b, PairClocks(b)) == FramesLater(b, 2)
  {
    hide Ticks, Place, FrameEnd, PairClocks, FramesLater;
    var next := FrameAfter(b);
    NextFrame(b);
    AfterWhole(b);
    NextFrame(next);
    AfterWhole(next);
    TwoFrames(b);
    TicksAdd(b, FrameEnd(b), FrameEnd(next));
    WholePair(b, next);
  }

  lemma AfterWhole(b: BeamState)
    requires ShortLines(b) && b.hpos == b.vpos == 0
    ensures Place(b) == 0 && Reachable(b) && ShortLines(FrameAfter(b))
    ensures FrameAfter(b) == FramesLater(b, 1).(lof := b.lofToggle && !b.lof)
  {
  }

  lemma TwoFrames(b: BeamState)
    requires ShortLines(b) && b.hpos == b.vpos == 0 && b.lofToggle
    ensures FrameAfter(FrameAfter(b)) == FramesLater(b, 2)
  {
    FramesAdd(b, 1, 1);
  }

  lemma WholePair(b: BeamState, next: BeamState)
    requires ShortLines(b) && b.hpos == b.vpos == 0 && next == FramesLater(b, 1).(lof := !b.lof)
    ensures FrameEnd(b) + FrameEnd(next) == PairClocks(b)
  {
    WholeFrame(b);
    WholeFrame(next);
    BothFrames(b.frameLines, b.lineClocks);
  }

  lemma WholeFrame(b: BeamState)
    requires b.frameLines > 0 && b.vpos == 0
    ensures FrameEnd(b) == if b.lof then (b.frameLines + 1) * b.lineClocks else b.frameLines * b.lineClocks
  {
  }

  lemma BothFrames(lines: nat, clocks: nat)
    ensures lines * clocks + (lines + 1) * clocks == (2 * lines + 1) * clocks
  {
  }

  /** Any number of pairs does. */
  lemma {:induction false} InterlacedFrames(b: BeamState, n: nat)
    requires ShortLines(b) && b.hpos == b.vpos == 0 && b.lofToggle
    ensures Ticks(b, n * PairClocks(b)) == FramesLater(b, 2 * n)
  {
    hide Ticks, PairClocks, FramesLater;
    FramesAdd(b, 0, 0);
    if n == 0 {
      NoTicks(b);
    } else {
      InterlacedFrames(b, n - 1);
      var pair, before := PairClocks(b), FramesLater(b, 2 * (n - 1));
      SamePair(b, 2 * (n - 1));
      InterlacedPair(before);
      FramesAdd(b, 2 * (n - 1), 2);
      TicksAdd(b, (n - 1) * pair, pair);
      OneMore(n, pair);
    }
  }

  lemma SamePair(b: BeamState, n: nat)
    ensures var s := FramesLater(b, n);
      PairClocks(s) == PairClocks(b) && (ShortLines(b) ==> ShortLines(s)) && s == b.(frameCount := s.frameCount)
  {
  }

  lemma OneMore(n: nat, x: nat)
    requires n > 0
    ensures (n - 1) * x + x == n * x
  {
  }

  /** A place below the clocks of a frame that is not long is on one of its lines. */
  lemma OnLine(s: BeamState)
    requires ShortLines(s) && Place(s) < FrameClocks(s)
    ensures s.vpos < s.frameLines
  {
    var more := s.vpos - s.frameLines;
    if more >= 0 {
      assert s.vpos * s.lineClocks == more * s.lineClocks + s.lineClocks * s.frameLines;
      if more > 0 { MultipleBound(more, s.lineClocks); }
    }
  }

  /** A place determines the two counters. */
  lemma PlaceDetermines(b: BeamState, v: nat, h: nat)
    requires b.hpos < b.lineClocks && h < b.lineClocks
    ensures Place(b) == v * b.lineClocks + h <==> b.vpos == v && b.hpos == h
  {
    Division(b.vpos, b.lineClocks, b.hpos);
    Division(v, b.lineClocks, h);
  }

  // --------------------------------------------------------- uniform scanning

  predicate Scanning(b: BeamState) {
    b.Uniform() && b.hpos < b.lineClocks && b.vpos < b.frameLines
  }

  lemma TickMovesPlace(b: BeamState)
    requires Scanning(b)
    ensures b.Running() && Scanning(Tick(b)) && Tick(b).lineClocks == b.lineClocks && Tick(b).frameLines == b.frameLines
    ensures Place(b) < FrameClocks(b)
    ensures Place(Tick(b)) == if Place(b) + 1 == FrameClocks(b) then 0 else Place(b) + 1
  {
    hide Tick;
    ShortTick(b);
    PlaceInFrame(b);
    assert FrameEnd(b) == FrameClocks(b);
    if Place(b) + 1 < FrameEnd(b) { TickInside(b); } else { TickAcross(b); }
  }

  /** A uniform beam goes round its frame. */
  lemma {:induction false} TicksMovePlace(b: BeamState, n: nat)
    requires Scanning(b)
    ensures b.Running() && Scanning(Ticks(b, n)) && FrameClocks(b) > 0
    ensures Ticks(b, n).lineClocks == b.lineClocks && Ticks(b, n).frameLines == b.frameLines
    ensures Place(Ticks(b, n)) == (Place(b) + n) % FrameClocks(b)
  {
    hide Tick, Place;
    TickMovesPlace(b);
    if n == 0 {
      Division(0, FrameClocks(b), Place(b));
    } else {
      TicksMovePlace(b, n - 1);
      TickMovesPlace(Ticks(b, n - 1));
      DivisionStep(Place(b) + n - 1, FrameClocks(b));
    }
  }

  datatype Position = Position(vpos: U16, hpos: U16)

  /** The position at `time`, from the counters captured at `captured`. */
  function PositionAt(b: BeamState, captured: U64, time: U64): Option<Position> {
    if time < captured || b.lineClocks == 0 || b.frameLines == 0 || b.hpos >= b.lineClocks || b.vpos >= b.frameLines
       || !b.Uniform() then None
    else
      var clocks := (b.hpos + (time - captured)) % TWO_64;
      Some(Position((b.vpos + clocks / b.lineClocks) % TWO_64 % b.frameLines, clocks % b.lineClocks))
  }

  /** Neither the clocks from the start of the line nor the lines from the start
      of the frame leave 64 bits. */
  predicate InSixtyFourBits(b: BeamState, n: nat)
    requires b.lineClocks > 0
  {
    b.hpos + n < TWO_64 && b.vpos + (b.hpos + n) / b.lineClocks < TWO_64
  }

  /** The closed form is the beam after that many clocks, if and only if its sums do
      not wrap or 2^64 clocks are a number of whole frames. */
  lemma PositionIsStepped(b: BeamState, captured: U64, time: U64)
    requires captured <= time && Scanning(b)
    ensures b.Running() && FrameClocks(b) > 0
    ensures var there := Ticks(b, time - captured);
      (PositionAt(b, captured, time) == Some(Position(there.vpos, there.hpos)))
         <==> InSixtyFourBits(b, time - captured) || TWO_64 % FrameClocks(b) == 0
  {
    hide Ticks, Place, PositionAt, InSixtyFourBits, FrameClocks;
    var n := time - captured;
    TicksMovePlace(b, n);
    var at := ClosedForm(b, captured, time);
    PlaceDetermines(Ticks(b, n), at.vpos, at.hpos);
    if !InSixtyFourBits(b, n) { SameRemainder(Place(b) + n, TWO_64, FrameClocks(b)); }
  }

  /** When the sums wrap the closed form is the position 2^64 clocks before. */
  lemma ClosedForm(b: BeamState, captured: U64, time: U64) returns (at: Position)
    requires captured <= time && Scanning(b)
    ensures FrameClocks(b) > 0 && PositionAt(b, captured, time) == Some(at) && at.hpos < b.lineClocks
    ensures var n := time - captured;
      at.vpos * b.lineClocks + at.hpos
        == (Place(b) + n - if InSixtyFourBits(b, n) then 0 else TWO_64) % FrameClocks(b)
  {
    hide FrameClocks, InSixtyFourBits;
    var n, clocks := time - captured, (b.hpos + (time - captured)) % TWO_64;
    var lines := (b.vpos + clocks / b.lineClocks) % TWO_64;
    at := Position(lines % b.frameLines, clocks % b.lineClocks);
    ClosedLines(b, n);
    RoundFrame(lines, clocks % b.lineClocks, b.lineClocks, b.frameLines);
    assert FrameClocks(b) == b.lineClocks * b.frameLines by { ClocksAre(b); }
  }

  lemma ClocksAre(b: BeamState)
    ensures FrameClocks(b) == b.lineClocks * b.frameLines
  {
  }

  /** At most one of the two sums wraps. */
  lemma ClosedLines(b: BeamState, n: U64)
    requires Scanning(b)
    ensures var clocks := (b.hpos + n) % TWO_64;
      var lines := (b.vpos + clocks / b.lineClocks) % TWO_64;
      lines * b.lineClocks + clocks % b.lineClocks == Place(b) + n - if InSixtyFourBits(b, n) then 0 else TWO_64
  {
    var clocks := b.hpos + n;
    if clocks < TWO_64 {
      Division(0, TWO_64, clocks);
      LinesOf(b.vpos, clocks, b.lineClocks);
    } else {
      Division(1, TWO_64, clocks - TWO_64);
      LinesOf(b.vpos, clocks - TWO_64, b.lineClocks);
    }
  }

  lemma LinesOf(vpos: U16, clocks: U64, lineClocks: nat)
    requires lineClocks > 0
    ensures var lines, h := vpos + clocks / lineClocks, clocks % lineClocks;
      lines % TWO_64 * lineClocks + h == vpos * lineClocks + clocks - if lines < TWO_64 then 0 else TWO_64
    ensures clocks < TWO_16 ==> vpos + clocks / lineClocks < TWO_64
  {
    var q, r := clocks / lineClocks, clocks % lineClocks;
    assert clocks == q * lineClocks + r;
    assert (vpos + q) * lineClocks == vpos * lineClocks + q * lineClocks;
    LineCount(clocks, lineClocks);
    if vpos + q < TWO_64 {
      Division(0, TWO_64, vpos + q);
    } else {
      assert lineClocks == 1;
      Division(1, TWO_64, vpos + q - TWO_64);
    }
  }

  lemma LineCount(clocks: nat, lineClocks: nat)
    requires lineClocks > 0
    ensures 0 <= clocks / lineClocks <= clocks
    ensures lineClocks > 1 ==> 2 * (clocks / lineClocks) <= clocks
  {
    var q, r := clocks / lineClocks, clocks % lineClocks;
    assert clocks == q * lineClocks + r;
    MultipleBound(q, lineClocks);
    assert q >= 0;
    MultipleBound(lineClocks, q);
    if lineClocks > 1 { MultipleBound(lineClocks - 1, q); }
  }

  lemma RoundFrame(lines: nat, h: nat, lineClocks: nat, frameLines: nat)
    requires h < lineClocks && frameLines > 0
    ensures 0 < lineClocks * frameLines
    ensures (lines * lineClocks + h) % (lineClocks * frameLines) == lines % frameLines * lineClocks + h
  {
    var k, v := lines / frameLines, lines % frameLines;
    LaterLine(v, frameLines, lineClocks);
    calc {
      lines * lineClocks + h;
      (k * frameLines + v) * lineClocks + h;
      k * (lineClocks * frameLines) + (v * lineClocks + h);
    }
    IntDivision(k, lineClocks * frameLines, v * lineClocks + h);
  }

  // -------------------------------------------------------- vertical blanking

  predicate AtVertb(b: BeamState) {
    b.vpos == 0 && b.hpos == VERTB_HPOS
  }

  function CyclesToVertb(b: BeamState): U32 {
    if AtVertb(b) then 0
    else
      var linesToWrap := if b.vpos < b.frameLines then b.frameLines - b.vpos - 1 else 0;
      (b.lineClocks - b.hpos + linesToWrap * b.lineClocks + VERTB_HPOS) % TWO_32
  }

  /** `n` is the first number of clocks after which `event` holds. */
  ghost predicate FirstTime(b: BeamState, n: int, event: BeamState -> bool)
    requires b.Running()
  {
    0 <= n && event(Ticks(b, n)) && forall k: nat | k < n :: !event(Ticks(b, k))
  }

  /** The deadline of the vertical-blank interrupt is exact unless the beam is at the
      very start of a frame, where it is one frame late, or in a long frame above
      its extra line, where it is one line early. */
  lemma VertbDeadline(b: BeamState)
    requires ShortLines(b) && b.lineClocks > VERTB_HPOS
    ensures FirstTime(b, CyclesToVertb(b), AtVertb)
       <==> AtVertb(b) || (!(b.vpos == 0 && b.hpos == 0) && !(b.lof && b.vpos < b.frameLines))
    ensures b.vpos == 0 && b.hpos == 0 ==> FirstTime(b, VERTB_HPOS, AtVertb)
    ensures !AtVertb(b) && !(b.vpos == 0 && b.hpos == 0) && b.lof && b.vpos < b.frameLines ==>
      FirstTime(b, CyclesToVertb(b) + b.lineClocks, AtVertb)
  {
    hide Ticks, Place, FrameEnd, CyclesToVertb, AtVertb;
    var n := FirstVertb(b);
    VertbCount(b);
    FrameHasLine(b);
    OtherTime(b, n, CyclesToVertb(b), AtVertb);
  }

  /** There is only one first time. */
  lemma OtherTime(b: BeamState, m: int, n: int, event: BeamState -> bool)
    requires b.Running() && FirstTime(b, m, event)
    ensures FirstTime(b, n, event) <==> n == m
  {
    hide Ticks;
  }

  /** When the beam next reaches the vertical-blank position. */
  lemma FirstVertb(b: BeamState) returns (n: nat)
    requires ShortLines(b) && b.lineClocks > VERTB_HPOS
    ensures FirstTime(b, n, AtVertb)
    ensures n == if Place(b) <= 1 then 1 - Place(b) else FrameEnd(b) - Place(b) + 1
  {
    hide Ticks, Place, FrameEnd, AtVertb;
    PlaceInFrame(b);
    FrameHasLine(b);
    n := if Place(b) <= 1 then 1 - Place(b) else FrameEnd(b) - Place(b) + 1;
    forall k: nat | k <= n
      ensures AtVertb(Ticks(b, k)) <==> k == n
    {
      if Place(b) + k < FrameEnd(b) { Inside(b, k); } else { Beyond(b, k); }
      VertbPlace(Ticks(b, k));
    }
  }

  lemma VertbPlace(b: BeamState)
    requires ShortLines(b) && b.lineClocks > VERTB_HPOS
    ensures AtVertb(b) <==> Place(b) == 1
  {
    PlaceDetermines(b, 0, VERTB_HPOS);
  }

  lemma FrameHasLine(b: BeamState)
    requires ShortLines(b)
    ensures FrameEnd(b) >= b.lineClocks && FrameClocks(b) >= b.lineClocks
    ensures Lines(b) > 1 ==> FrameEnd(b) > b.lineClocks
  {
    if Lines(b) > 1 { LaterLine(1, Lines(b), b.lineClocks); }
    LaterLine(0, Lines(b), b.lineClocks);
    LaterLine(0, b.frameLines, b.lineClocks);
  }

  lemma ProductFits(lines: nat, clocks: nat)
    requires lines <= 0x1_0000 && clocks < 0xFFFF
    ensures 0 <= lines * clocks < TWO_32 - 0x1_0000
  {
    assert (0x1_0000 - lines) * clocks >= 0;
  }

  lemma VertbCount(b: BeamState)
    requires ShortLines(b) && b.lineClocks > VERTB_HPOS
    ensures Place(b) == 0 <==> b.vpos == 0 && b.hpos == 0
    ensures AtVertb(b) <==> Place(b) == 1
    ensures CyclesToVertb(b) ==
      if AtVertb(b) then 0
      else FrameEnd(b) - Place(b) + 1 - if b.lof && b.vpos < b.frameLines then b.lineClocks else 0
  {
    hide AtVertb;
    VertbPlace(b);
    PlaceDetermines(b, 0, 0);
    var lines := if b.vpos < b.frameLines then b.frameLines else b.vpos + 1;
    assert (lines - b.vpos - 1) * b.lineClocks == lines * b.lineClocks - b.vpos * b.lineClocks - b.lineClocks;
    assert (b.frameLines + 1) * b.lineClocks == b.frameLines * b.lineClocks + b.lineClocks;
    ProductFits(lines, b.lineClocks);
    PlaceInFrame(b);
    LaterLine(b.vpos, lines, b.lineClocks);
    Division(0, TWO_32, lines * b.lineClocks - Place(b) + 1);
  }

  /** In a long frame of a 227-clock, 312-line display the deadline comes when the
      beam is a whole line short. */
  lemma LongFrameVertb()
    ensures var b := BeamState(0, 100, 227, 312, true, true, false, false, 0);
      && ShortLines(b) && CyclesToVertb(b) == 212 * 227 + 1
      && Ticks(b, CyclesToVertb(b)).vpos == 312 && Ticks(b, CyclesToVertb(b)).hpos == VERTB_HPOS
  {
    hide Ticks;
    var b := BeamState(0, 100, 227, 312, true, true, false, false, 0);
    Inside(b, CyclesToVertb(b));
    PlaceDetermines(Ticks(b, CyclesToVertb(b)), 312, VERTB_HPOS);
  }
}
