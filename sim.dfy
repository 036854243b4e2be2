/** The game loop as a value: keyboard handling, the pause and speed
    controls, and the alternation of the mark (`feed`) and resolve (`lifeOn`)
    sub-phases from one tick to the next. */
module Sim {
  import opened Cells
  import opened Grids

  /** Highest tick rate, in ticks per second. */
  const MaxTPS := 60
  /** Tick rate of a new game. */
  const DefaultSpeed := 10

  /** The three keys the game polls each tick: Space, Left, Right. */
  datatype Keys = Keys(space: bool, left: bool, right: bool)

  /** The user-controlled part of the game state. */
  datatype Controls = Controls(paused: bool, speed: int)

  predicate SpeedInRange(speed: int) {
    1 <= speed <= MaxTPS
  }

  /** The input step run at the start of every tick. At most one key acts,
      Space before Left before Right; the speed saturates at 1 and MaxTPS. */
  function ProcessInput(c: Controls, k: Keys): (r: Controls)
    ensures k.space ==> r.paused == !c.paused && r.speed == c.speed
    ensures !k.space ==> r.paused == c.paused
    ensures SpeedInRange(c.speed) && r.speed < c.speed ==> !k.space && k.left
    ensures SpeedInRange(c.speed) && r.speed > c.speed ==> !k.space && !k.left && k.right
    ensures !k.space && !k.left && !k.right ==> r == c
    ensures !k.space && k.left && c.speed > 1 ==> r.speed == c.speed - 1
    ensures !k.space && !k.left && k.right && c.speed < MaxTPS ==> r.speed == c.speed + 1
    ensures SpeedInRange(c.speed) ==> SpeedInRange(r.speed)
    ensures !k.space && k.left && c.speed <= 1 ==> r.speed == 1
    ensures !k.space && !k.left && k.right && c.speed >= MaxTPS ==> r.speed == MaxTPS
  {
    if k.space then
      c.(paused := !c.paused)
    else if k.left then
      var s := c.speed - 1;
      c.(speed := if s < 1 then 1 else s)
    else if k.right then
      var s := c.speed + 1;
      c.(speed := if s > MaxTPS then MaxTPS else s)
    else
      c
  }

  /** The input steps of a sequence of ticks. */
  function ProcessInputs(c: Controls, ks: seq<Keys>): Controls
    decreases |ks|
  {
    if ks == [] then c else ProcessInputs(ProcessInput(c, ks[0]), ks[1..])
  }

  /** Whatever keys are pressed, the speed never leaves [1, MaxTPS]. */
  lemma {:induction false} SpeedStaysInRange(c: Controls, ks: seq<Keys>)
    requires SpeedInRange(c.speed)
    ensures SpeedInRange(ProcessInputs(c, ks).speed)
    decreases |ks|
  {
    if ks != [] {
      SpeedStaysInRange(ProcessInput(c, ks[0]), ks[1..]);
    }
  }

  /** Holding Left at the lowest speed keeps it there, without error. */
  lemma {:induction false} SlowDownSaturates(c: Controls, ks: seq<Keys>)
    requires c.speed == 1
    requires forall n :: 0 <= n < |ks| ==> ks[n] == Keys(false, true, false)
    ensures ProcessInputs(c, ks) == c
    decreases |ks|
  {
    if ks != [] {
      SlowDownSaturates(ProcessInput(c, ks[0]), ks[1..]);
    }
  }

  /** Holding Right at the highest speed keeps it there, without error. */
  lemma {:induction false} SpeedUpSaturates(c: Controls, ks: seq<Keys>)
    requires c.speed == MaxTPS
    requires forall n :: 0 <= n < |ks| ==> ks[n] == Keys(false, false, true)
    ensures ProcessInputs(c, ks) == c
    decreases |ks|
  {
    if ks != [] {
      SpeedUpSaturates(ProcessInput(c, ks[0]), ks[1..]);
    }
  }

  /** The whole game: the board, the `FeedPhase` flag (true: the next
      unpaused tick marks) and the controls. */
  datatype State = State(grid: Grid, feedPhase: bool, controls: Controls)

  /** What every tick keeps: the board is a board, and whenever the next
      sub-phase is the mark phase, the board is steady, as `feed` needs. */
  ghost predicate Inv(s: State) {
    IsBoard(s.grid) && (s.feedPhase ==> AllSteady(s.grid))
  }

  /** A new game: the fill as given (any of the four states may occur in
      it), `FeedPhase` false, running at the default speed. */
  function Initial(fill: Grid): (r: State)
    ensures r.grid == fill && !r.feedPhase
    ensures !r.controls.paused && SpeedInRange(r.controls.speed)
  {
    State(fill, false, Controls(false, DefaultSpeed))
  }

  /** Every fill is a valid start: the first sub-phase to run is a resolve. */
  lemma InitialInv(fill: Grid)
    requires IsBoard(fill)
    ensures Inv(Initial(fill)) && SpeedInRange(Initial(fill).controls.speed)
  {
  }

  /** The sub-phases of the engine. */
  datatype SubPhase = MarkPhase | ResolvePhase

  /** One tick (`Update`): read the keys; unless paused, flip the flag and
      run the sub-phase the old flag names. */
  ghost function Step(s: State, k: Keys): (r: State)
    requires Inv(s)
    ensures Inv(r)
    ensures r.controls == ProcessInput(s.controls, k)
    ensures r.controls.paused ==> r.grid == s.grid && r.feedPhase == s.feedPhase
    ensures !r.controls.paused ==> r.feedPhase == !s.feedPhase
    ensures Rect(r.grid, |s.grid|, Width(s.grid))
  {
    var c := ProcessInput(s.controls, k);
    if c.paused then
      s.(controls := c)
    else if s.feedPhase then
      State(MarkGrid(s.grid), false, c)
    else
      ResolvedIsSteady(s.grid);
      State(ResolveGrid(s.grid), true, c)
  }

  /** The sub-phase one tick runs: none when paused. */
  function Ran(s: State, k: Keys): (r: seq<SubPhase>)
    ensures |r| <= 1
    ensures r == [] <==> ProcessInput(s.controls, k).paused
    ensures r != [] ==> (r[0] == MarkPhase <==> s.feedPhase)
  {
    if ProcessInput(s.controls, k).paused then []
    else if s.feedPhase then [MarkPhase]
    else [ResolvePhase]
  }

  /** The sub-phase a tick reports is the one whose whole-board effect the
      tick has: the mark phase, the resolve phase, or none. */
  lemma RanMatchesStep(s: State, k: Keys)
    requires Inv(s)
    ensures Ran(s, k) == [MarkPhase] ==> Step(s, k).grid == MarkGrid(s.grid)
    ensures Ran(s, k) == [ResolvePhase] ==> Step(s, k).grid == ResolveGrid(s.grid)
    ensures Ran(s, k) == [] ==> Step(s, k).grid == s.grid
  {
  }

  /** The state after a sequence of ticks. */
  ghost function Run(s: State, ks: seq<Keys>): (r: State)
    requires Inv(s)
    ensures Inv(r)
    ensures r.controls == ProcessInputs(s.controls, ks)
    ensures Rect(r.grid, |s.grid|, Width(s.grid))
    decreases |ks|
  {
    if ks == [] then s else Run(Step(s, ks[0]), ks[1..])
  }

  /** The sub-phases run during a sequence of ticks, in order. */
  ghost function Trace(s: State, ks: seq<Keys>): seq<SubPhase>
    requires Inv(s)
    decreases |ks|
  {
    if ks == [] then [] else Ran(s, ks[0]) + Trace(Step(s, ks[0]), ks[1..])
  }

  /** The sub-phases strictly alternate, whatever pauses come in between:
      the first is the one the flag names. */
  lemma {:induction false} TraceAlternates(s: State, ks: seq<Keys>)
    requires Inv(s)
    ensures forall n :: 0 <= n < |Trace(s, ks)| ==>
      Trace(s, ks)[n] == (if (n % 2 == 0) == s.feedPhase then MarkPhase else ResolvePhase)
    decreases |ks|
  {
    if ks != [] {
      var t := Step(s, ks[0]);
      TraceAlternates(t, ks[1..]);
      var head, tail := Ran(s, ks[0]), Trace(t, ks[1..]);
      assert Trace(s, ks) == head + tail;
      if head != [] {
        forall n | 1 <= n < |head + tail|
          ensures (head + tail)[n] == (if (n % 2 == 0) == s.feedPhase then MarkPhase else ResolvePhase)
        {
          assert (head + tail)[n] == tail[n - 1];
          assert ((n - 1) % 2 == 0) == (n % 2 != 0);
        }
      }
    }
  }

  /** From a new game, the ticks that run resolve, mark, resolve, mark, ... */
  lemma NewGameAlternates(fill: Grid, ks: seq<Keys>)
    requires IsBoard(fill)
    ensures forall n :: 0 <= n < |Trace(Initial(fill), ks)| ==>
      Trace(Initial(fill), ks)[n] == (if n % 2 == 0 then ResolvePhase else MarkPhase)
  {
    TraceAlternates(Initial(fill), ks);
  }

  /** Every tick that runs `feed` finds a steady board, so its panic never
      fires in a game. */
  lemma FeedSeesSteady(s: State, ks: seq<Keys>, n: nat)
    requires Inv(s) && n < |ks|
    requires Run(s, ks[..n]).feedPhase
    requires !ProcessInput(Run(s, ks[..n]).controls, ks[n]).paused
    ensures AllSteady(Run(s, ks[..n]).grid)
  {
  }

  /** While paused and Space is not pressed, neither the board nor the flag
      moves (the speed still may). */
  lemma {:induction false} PauseFreezes(s: State, ks: seq<Keys>)
    requires Inv(s) && s.controls.paused
    requires forall n :: 0 <= n < |ks| ==> !ks[n].space
    ensures Run(s, ks).grid == s.grid && Run(s, ks).feedPhase == s.feedPhase
    ensures Trace(s, ks) == []
    decreases |ks|
  {
    if ks != [] {
      PauseFreezes(Step(s, ks[0]), ks[1..]);
    }
  }
}
