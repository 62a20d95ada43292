/**
 The pacing rule at the bottom of ui_task() in main/main.c: the 33 ms display period is charged once
 per frame(), from where the previous period's wait ended; a turn that only drains jobs waits the
 8 ms floor, or one tick, inside the period of the frame() it works towards. Times are microseconds.
 */
module Pacing {
  import Options
  import TurnMachine

  const PERIOD_MS: nat := 33
  const MIN_PERIOD_MS: nat := 8

  /** One pass of the loop with a guest running: the work it did, the time spent outside the measured
      part, whether its last turn was a continuation, how much of the interruptible wait was served
      before a completion ended it, how often it ticked, and the frame() calls it made. A pass ticks once,
      twice where a key was pressed and released, once or twice more for each remote tap queued before it,
      and not at all while a picker is up. */
  datatype Pass = Pass(busy: nat, slack: nat, continued: bool, served: nat, ticks: nat, frames: nat)

  /** What app_tick allows of a pass: one tick calls frame() at most once, and the last one not at all if
      it was a continuation. */
  predicate Possible(i: Pass) {
    i.frames + (if i.continued && i.ticks > 0 then 1 else 0) <= i.ticks
  }

  /** The ticks of a pass that called frame(). */
  function Calls<H, J, E>(ticks: seq<TurnMachine.Ticked<H, J, E>>): (n: nat)
    ensures n <= |ticks|
  {
    if ticks == [] then 0
    else Calls(ticks[..|ticks| - 1]) + (if ticks[|ticks| - 1].dispatched then 1 else 0)
  }

  /** The ticks are those of app_tick, Back turns among them, each on whatever session stands when it is made. */
  ghost predicate AreTicks<H, J, E>(
    programs: seq<TurnMachine.Program<H, J, E>>, sessions: seq<TurnMachine.Session<H, J, E>>,
    ins: seq<TurnMachine.Input<E>>, ticks: seq<TurnMachine.Ticked<H, J, E>>)
  {
    && |programs| == |sessions| == |ins| == |ticks|
    && forall k :: 0 <= k < |ticks| ==> ticks[k] == TurnMachine.Tick(programs[k], sessions[k], ins[k])
  }

  /** Whatever ticks a pass makes, it is possible; a session that began after the last tick is no continuation. */
  lemma TicksArePossible<H, J, E>(
    programs: seq<TurnMachine.Program<H, J, E>>, sessions: seq<TurnMachine.Session<H, J, E>>,
    ins: seq<TurnMachine.Input<E>>, ticks: seq<TurnMachine.Ticked<H, J, E>>,
    continued: bool, busy: nat, slack: nat, served: nat)
    requires AreTicks(programs, sessions, ins, ticks)
    requires continued && ticks != [] ==> ticks[|ticks| - 1].session.continued
    ensures Possible(Pass(busy, slack, continued, served, |ticks|, Calls(ticks)))
  {
    hide TurnMachine.Tick;
    if ticks != [] {
      var n := |ticks| - 1;
      if TurnMachine.Leaving(ins[n].buttons) {
        TurnMachine.BackReachesFrame(programs[n], sessions[n], ins[n]);
      } else {
        TurnMachine.FramesMeetNoPicture(programs[n], sessions[n], ins[n]);
      }
    }
  }

  datatype Clock = Clock(now: nat, began: nat)

  function Held(i: Pass): nat { i.busy / 1000 }

  function ContinuationRest(i: Pass): nat { if Held(i) < MIN_PERIOD_MS then MIN_PERIOD_MS - Held(i) else 1 }

  function FloorMs(i: Pass): nat { if Held(i) < MIN_PERIOD_MS then MIN_PERIOD_MS - Held(i) else 0 }

  /** The rest of the period, in whole milliseconds, after the floor. */
  function RestMs(c: Clock, i: Pass): nat
    requires c.began <= c.now
  {
    var since := (c.now + i.busy + i.slack - c.began) / 1000 + FloorMs(i);
    if since < PERIOD_MS then PERIOD_MS - since else 0
  }

  function Min(a: nat, b: nat): nat { if a < b then a else b }

  function Max(a: nat, b: nat): nat { if a < b then b else a }

  /** The clock after one pass, delays served in full. */
  function Pace(c: Clock, i: Pass): (r: Clock)
    requires c.began <= c.now
    ensures r.began <= r.now
  {
    var worked := c.now + i.busy + i.slack;
    if i.continued then Clock(worked + 1000 * ContinuationRest(i), c.began)
    else
      var rest := RestMs(c, i);
      var wait := if rest > 0 then Min(i.served, 1000 * rest) else if FloorMs(i) == 0 then 1000 else 0;
      var now := worked + 1000 * FloorMs(i) + wait;
      Clock(now, now)
  }

  function Run(c: Clock, passes: seq<Pass>): (r: Clock)
    requires c.began <= c.now
    ensures r.began <= r.now
  {
    if passes == [] then c else Pace(Run(c, passes[..|passes| - 1]), passes[|passes| - 1])
  }

  function Frames(passes: seq<Pass>): nat {
    if passes == [] then 0 else Frames(passes[..|passes| - 1]) + passes[|passes| - 1].frames
  }

  /** The ticks beyond one a pass: releases and remote taps. */
  function Extra(passes: seq<Pass>): nat {
    if passes == [] then 0
    else Extra(passes[..|passes| - 1]) + (if passes[|passes| - 1].ticks > 0 then passes[|passes| - 1].ticks - 1 else 0)
  }

  ghost predicate AllPossible(passes: seq<Pass>) { forall k :: 0 <= k < |passes| ==> Possible(passes[k]) }

  /** No completion cut a period's wait short. */
  ghost predicate Unwoken(passes: seq<Pass>) { forall k :: 0 <= k < |passes| ==> passes[k].served >= 1000 * PERIOD_MS }

  lemma OnePass(c: Clock, i: Pass)
    requires c.began <= c.now
    ensures Pace(c, i).now >= c.now + 8000
    ensures i.continued ==> Pace(c, i).now >= c.now + i.busy + i.slack + 1000 && Pace(c, i).began == c.began
    ensures !i.continued && i.served >= 1000 * PERIOD_MS ==> Pace(c, i).began >= c.began + 33000
  {
  }

  /** How long a pass takes, exactly: work under 8 ms is filled up to 8 whole milliseconds more than its odd
      microseconds, longer work of a continuation yields 1 ms; a pass that is none then waits what is left of the
      33 ms, counted in whole milliseconds since the period began, as far as it is served, yields 1 ms where
      nothing else was waited for, and begins the next period there. */
  lemma PassLength(c: Clock, i: Pass)
    requires c.began <= c.now
    ensures var floored := c.now + i.slack + (if i.busy < 8000 then 8000 + i.busy % 1000 else i.busy);
      if i.continued then Pace(c, i) == Clock(if i.busy < 8000 then floored else floored + 1000, c.began)
      else
        && Pace(c, i).began == Pace(c, i).now
        && Pace(c, i).now == floored + (
             if floored < c.began + 33000 then Min(i.served, 33000 - (floored - c.began) / 1000 * 1000)
             else if i.busy < 8000 then 0
             else 1000)
  {
    Rounded(i.busy, c.now + i.slack - c.began);
  }

  /** Filling up to 8 whole milliseconds. */
  lemma Rounded(busy: nat, since: int)
    ensures busy < 8000 ==> busy + 1000 * (8 - busy / 1000) == 8000 + busy % 1000
    ensures busy < 8000 ==> (since + busy) / 1000 + (8 - busy / 1000) == (since + 8000 + busy % 1000) / 1000
    ensures busy < 8000 <==> busy / 1000 < 8
  {
  }

  /** However completions wake it, the loop makes at most one pass in 8 ms, and calls frame() beyond once a
      pass only in extra ticks. */
  lemma {:induction false} RateLimit(c: Clock, passes: seq<Pass>)
    requires c.began <= c.now && AllPossible(passes)
    ensures Run(c, passes).now >= c.now + 8000 * |passes|
    ensures Frames(passes) <= |passes| + Extra(passes)
  {
    if passes == [] {
    } else {
      var n := |passes| - 1;
      RateLimit(c, passes[..n]);
      OnePass(Run(c, passes[..n]), passes[n]);
    }
  }

  /** The passes that closed a display period. */
  function Periods(passes: seq<Pass>): nat {
    if passes == [] then 0 else Periods(passes[..|passes| - 1]) + (if passes[|passes| - 1].continued then 0 else 1)
  }

  /** Without early wake-ups every period closed takes 33 ms, and every frame() but those of extra ticks has
      one of its own. Whether 33 ms for each frame() are kept is decided in each period by
      `PeriodIsEnough`. */
  lemma {:induction false} DisplayRate(c: Clock, passes: seq<Pass>)
    requires c.began <= c.now && AllPossible(passes) && Unwoken(passes)
    ensures Run(c, passes).began >= c.began + 33000 * Periods(passes)
    ensures Frames(passes) <= Periods(passes) + Extra(passes)
  {
    if passes == [] {
    } else {
      var n := |passes| - 1;
      DisplayRate(c, passes[..n]);
      OnePass(Run(c, passes[..n]), passes[n]);
    }
  }

  /** What a pass waits beyond its fixed floor: as much of the rest as was served, or one tick of yielding. */
  function Waited(c: Clock, i: Pass): nat
    requires c.began <= c.now
  {
    var rest := RestMs(c, i);
    if i.continued then 0 else if rest > 0 then Min(i.served, 1000 * rest) else if FloorMs(i) == 0 then 1000 else 0
  }

  function Fixed(i: Pass): nat { i.busy + i.slack + 1000 * (if i.continued then ContinuationRest(i) else FloorMs(i)) }

  /** Exactly when a pass keeps 8 ms for each of its frame() calls: it made at most one, or its work and its
      waits filled that time. */
  predicate KeepsEight(c: Clock, i: Pass)
    requires c.began <= c.now
  {
    i.frames <= 1 || Fixed(i) + Waited(c, i) >= 8000 * i.frames
  }

  lemma PassKeepsEight(c: Clock, i: Pass)
    requires c.began <= c.now
    ensures Pace(c, i).now >= c.now + 8000 * i.frames <==> KeepsEight(c, i)
  {
    OnePass(c, i);
  }

  /** A pass that opens a period and is not woken keeps it for up to four frame() calls, whatever its work. */
  lemma FourAlwaysFit(start: nat, i: Pass)
    requires !i.continued && i.served >= 1000 * PERIOD_MS
    ensures KeepsEight(Clock(start, start), i) <==>
      i.frames <= 4 || Fixed(i) + (if FloorMs(i) == 0 then 1000 else 0) >= 8000 * i.frames
  {
  }

  /** Over a run whose passes all keep it, every frame() has its 8 ms. */
  lemma {:induction false} EightAddsUp(c: Clock, passes: seq<Pass>)
    requires c.began <= c.now && forall k :: 0 <= k < |passes| ==> KeepsEight(Run(c, passes[..k]), passes[k])
    ensures Run(c, passes).now >= c.now + 8000 * Frames(passes)
  {
    hide KeepsEight;
    if passes == [] {
    } else {
      var n := |passes| - 1;
      forall k | 0 <= k < n ensures KeepsEight(Run(c, passes[..n][..k]), passes[..n][k]) {
        assert passes[..n][..k] == passes[..k];
      }
      EightAddsUp(c, passes[..n]);
      PassKeepsEight(Run(c, passes[..n]), passes[n]);
    }
  }

  /** A key press does put two frame() calls into one period: its press and its release. */
  lemma PressAndReleaseShareAPeriod()
    ensures var passes := [Pass(4000, 0, false, 33000, 2, 2)];
      AllPossible(passes) && Unwoken(passes) && Frames(passes) == 2 && Run(Clock(0, 0), passes).now == 33000
  {
    var passes := [Pass(4000, 0, false, 33000, 2, 2)];
    assert passes[..0] == [];
    assert Run(Clock(0, 0), passes) == Pace(Clock(0, 0), passes[0]);
    assert Frames(passes) == Frames([]) + 2;
  }

  /** With no key pressed, one remote tap before the ordinary tick makes three. */
  lemma RemoteTapSharesAPass<H(!new), J(!new), E(!new)>(
    p: TurnMachine.Program<H, J, E>, s: TurnMachine.Session<H, J, E>, i: TurnMachine.Input<E>)
    requires AtRest(p, s) && Undisturbed(i)
    ensures var a := TurnMachine.Tick(p, s, i.(buttons := {14}));
      var b := TurnMachine.Tick(p, a.session, i.(buttons := {}));
      var c := TurnMachine.Tick(p, b.session, i.(buttons := {}));
      a.dispatched && b.dispatched && c.dispatched && Calls([a, b, c]) == 3
  {
    var a := TurnMachine.Tick(p, s, i.(buttons := {14}));
    RestTick(p, s, i.(buttons := {14}));
    RestTick(p, a.session, i.(buttons := {}));
    var b := TurnMachine.Tick(p, a.session, i.(buttons := {}));
    RestTick(p, b.session, i.(buttons := {}));
    var c := TurnMachine.Tick(p, b.session, i.(buttons := {}));
    hide TurnMachine.Tick;
    assert [a, b, c][..2] == [a, b] && [a, b][..1] == [a] && [a][..0] == [];
    assert Calls([a]) == 1 && Calls([a, b]) == 2;
  }

  /** A program whose pumps deliver nothing and whose frame() does nothing but return, and a session with
      nothing to do or to show. */
  ghost predicate AtRest<H(!new), J(!new), E(!new)>(p: TurnMachine.Program<H, J, E>, s: TurnMachine.Session<H, J, E>) {
    && OnlyReturns(p)
    && (forall h, m, e, stop :: p.deliver(h, m, e, stop) == TurnMachine.Delivery(h, [], []))
    && Resting(s)
  }

  ghost predicate OnlyReturns<H(!new), J(!new), E>(p: TurnMachine.Program<H, J, E>) {
    forall h, j, stop :: p.step(h, j, stop) == TurnMachine.Opcode(h, Options.None, [], TurnMachine.Quiet)
  }

  predicate Resting<H, J, E>(s: TurnMachine.Session<H, J, E>) {
    && !TurnMachine.HasWork(s.guest) && s.guest.running.None? && !s.guest.thrown && !s.pending
    && !TurnMachine.NeedsPresent(s.display)
  }

  /** Nothing gates the turn, its budget lets frame() return, and its present reaches the panel. */
  predicate Undisturbed<E>(i: TurnMachine.Input<E>) {
    && !i.captureSpent && !i.presenterFails && !i.nativeTicket && !i.damaged && i.frameCut > 0 && i.endShown.OnPanel?
  }

  lemma RestTick<H(!new), J(!new), E(!new)>(
    p: TurnMachine.Program<H, J, E>, s: TurnMachine.Session<H, J, E>, i: TurnMachine.Input<E>)
    requires AtRest(p, s) && Undisturbed(i) && !TurnMachine.Leaving(i.buttons)
    ensures var t := TurnMachine.Tick(p, s, i); t.dispatched && t.outcome.Ok? && Resting(t.session)
  {
    var gated := TurnMachine.Gate(s.(continued := false), i).session;
    var buttons := if i.blocked then {} else i.buttons;
    var q := TurnMachine.PumpTurn(p, gated, i, buttons);
    assert q.guest.queue == [] && q.guest.running.None? && !q.guest.thrown;
    assert TurnMachine.DrawAll(gated.display, []) == gated.display;
    FrameReturns(p, TurnMachine.Call(p, q.guest, buttons + gated.deferred), q.display, i.frameCut);
    hide TurnMachine.Steps, TurnMachine.Drawn, TurnMachine.PumpTurn;
  }

  lemma FrameReturns<H(!new), J(!new), E(!new)>(
    p: TurnMachine.Program<H, J, E>, g: TurnMachine.Guest<H, J, E>, d: TurnMachine.Display, n: nat)
    requires OnlyReturns(p)
    requires g.running.Some? && g.queue == [] && !g.thrown && n > 0
    ensures var after := TurnMachine.Steps(p, g, n); after.running.None? && after.queue == [] && !after.thrown
    ensures TurnMachine.Drawn(p, g, d, n) == d
  {
    var after := TurnMachine.Advance(p, g);
    assert after.queue == [] && !TurnMachine.HasWork(after);
    assert TurnMachine.Steps(p, after, n - 1) == after;
  }

  /** What the passes of one period spend before its interruptible wait. */
  function Spent(passes: seq<Pass>): nat {
    if passes == [] then 0
    else
      var i := passes[|passes| - 1];
      Spent(passes[..|passes| - 1]) + Fixed(i)
  }

  lemma {:induction false} ContinuationsStayInThePeriod(c: Clock, passes: seq<Pass>)
    requires c.began <= c.now && forall k :: 0 <= k < |passes| ==> passes[k].continued
    ensures Run(c, passes) == Clock(c.now + Spent(passes), c.began)
  {
    if passes == [] {
    } else {
      ContinuationsStayInThePeriod(c, passes[..|passes| - 1]);
    }
  }

  /** One display period: continuations, then the pass that closes it. Their time is charged exactly
      once -- the period lasts the longer of 33 ms and what was spent in it, to within a millisecond. */
  lemma PeriodLength(start: nat, passes: seq<Pass>)
    requires passes != [] && !passes[|passes| - 1].continued
    requires forall k :: 0 <= k < |passes| - 1 ==> passes[k].continued
    ensures var end := Run(Clock(start, start), passes);
      && end.began == end.now
      && start + Spent(passes) <= end.now <= start + Max(33000, Spent(passes)) + 1000
      && (passes[|passes| - 1].served >= 33000 ==> end.now >= start + 33000)
  {
    ContinuationsStayInThePeriod(Clock(start, start), passes[..|passes| - 1]);
  }

  /** Exactly when a period that no completion cut short keeps 33 ms for each of its frame() calls: it made
      at most one, or the work and the fixed waits in it filled that time on their own. */
  lemma PeriodIsEnough(start: nat, passes: seq<Pass>)
    requires passes != [] && !passes[|passes| - 1].continued && passes[|passes| - 1].served >= 33000
    requires forall k :: 0 <= k < |passes| - 1 ==> passes[k].continued
    ensures var end, last := Run(Clock(start, start), passes).now, passes[|passes| - 1];
      end >= start + 33000 * Frames(passes) <==>
      Frames(passes) <= 1 || Spent(passes) + (if FloorMs(last) == 0 then 1000 else 0) >= 33000 * Frames(passes)
  {
    ContinuationsStayInThePeriod(Clock(start, start), passes[..|passes| - 1]);
  }

  /** One period after the other, as the loop runs them. */
  function RunPeriods(c: Clock, periods: seq<seq<Pass>>): (r: Clock)
    requires c.began <= c.now
    ensures r.began <= r.now
  {
    if periods == [] then c else Run(RunPeriods(c, periods[..|periods| - 1]), periods[|periods| - 1])
  }

  function AllFrames(periods: seq<seq<Pass>>): nat {
    if periods == [] then 0 else AllFrames(periods[..|periods| - 1]) + Frames(periods[|periods| - 1])
  }

  /** A period as above that keeps 33 ms for each frame(). */
  predicate Enough(passes: seq<Pass>) {
    && passes != [] && !passes[|passes| - 1].continued && passes[|passes| - 1].served >= 33000
    && (forall k :: 0 <= k < |passes| - 1 ==> passes[k].continued)
    && (Frames(passes) <= 1
        || Spent(passes) + (if FloorMs(passes[|passes| - 1]) == 0 then 1000 else 0) >= 33000 * Frames(passes))
  }

  /** Over any number of such periods every frame() has its 33 ms. */
  lemma {:induction false} EnoughAddsUp(start: nat, periods: seq<seq<Pass>>)
    requires forall k :: 0 <= k < |periods| ==> Enough(periods[k])
    ensures var end := RunPeriods(Clock(start, start), periods);
      end.began == end.now >= start + 33000 * AllFrames(periods)
  {
    hide Run, Frames, Spent;
    if periods == [] {
    } else {
      var n := |periods| - 1;
      EnoughAddsUp(start, periods[..n]);
      var c := RunPeriods(Clock(start, start), periods[..n]);
      PeriodIsEnough(c.now, periods[n]);
      PeriodLength(c.now, periods[n]);
    }
  }

  class UiTask {
    var periodBegan: nat

    constructor (now: nat)
      ensures periodBegan == now
    {
      periodBegan := now;
    }

    /** The waits at the end of one pass, begun at `frameStart`. */
    method EndOfPass(frameStart: nat, i: Pass) returns (now: nat)
      requires periodBegan <= frameStart
      modifies this
      ensures Clock(now, periodBegan) == Pace(Clock(frameStart, old(periodBegan)), i)
    {
      var held := i.busy / 1000;
      now := frameStart + i.busy + i.slack;
      if i.continued {
        var rest := if held < MIN_PERIOD_MS then MIN_PERIOD_MS - held else 1;
        now := now + 1000 * rest;
        return;
      }
      var since := (now - periodBegan) / 1000;
      var floor := if held < MIN_PERIOD_MS then MIN_PERIOD_MS - held else 0;
      if floor > 0 {
        now := now + 1000 * floor;
        since := since + floor;
      }
      var rest := if since < PERIOD_MS then PERIOD_MS - since else 0;
      if rest > 0 {
        now := now + Min(i.served, 1000 * rest);
      } else if floor == 0 {
        now := now + 1000;
      }
      periodBegan := now;
    }
  }
}
