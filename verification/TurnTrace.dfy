/**
 What JavaScript sees of the turn machine, told from the guest program alone: every event of the trace,
 in order, with what it does to the guest and when it may happen. The turn machine's runs are shown to
 tell exactly such a story.
 */
module TurnTrace {
  import opened Options
  import opened Records
  import opened TurnMachine

  // ------------------------------------------------------------ events on their own

  /** What one event does. A stop is seen as an interrupt from then on; pumps deliver and queue behind what
      waits; frame() is entered with its mask; one opcode of a job changes the heap, and what it spawns is
      queued last. */
  function Happen<H, J, E>(p: Program<H, J, E>, g: Guest<H, J, E>, e: Event<J, E>): Guest<H, J, E> {
    var told := g.(trace := g.trace + [e]);
    match e
    case StopRequested => told.(stopping := true)
    case Pumps(mask, env) =>
      var v := p.deliver(g.heap, mask, env, g.stopping);
      told.(heap := v.heap, queue := g.queue + v.posted, exiting := g.exiting || CallExit in v.effects)
    case Frame(mask) => told.(running := Some(p.frame(mask)))
    case Ran(job) =>
      var o := p.step(g.heap, job, g.stopping);
      told.(heap := o.heap,
            running := if o.effect == Throw then None else o.rest,
            queue := (if g.running == None && g.queue != [] then g.queue[1..] else g.queue) + o.spawned,
            exiting := g.exiting || o.effect == CallExit,
            thrown := o.effect == Throw)
  }

  function Explain<H, J, E>(p: Program<H, J, E>, g: Guest<H, J, E>, events: seq<Event<J, E>>): Guest<H, J, E> {
    if events == [] then g else Happen(p, Explain(p, g, events[..|events| - 1]), events[|events| - 1])
  }

  ghost predicate FrameSeen<J, E>(events: seq<Event<J, E>>) { exists k :: 0 <= k < |events| && events[k].Frame? }

  function Last<J, E>(events: seq<Event<J, E>>): Option<Event<J, E>> {
    if events == [] then None else Some(events[|events| - 1])
  }

  /** Nothing runs and, once a frame() has been entered, nothing waits. */
  ghost predicate Idle<H, J, E>(g: Guest<H, J, E>, before: seq<Event<J, E>>) {
    g.running == None && !g.thrown && (FrameSeen(before) ==> g.queue == [])
  }

  /** When an event may come: exit() is honoured and the pumps run between drained turns only, the pumps
      right after an exit() was honoured if there was one; frame() follows its pumps with their mask; a job
      runs only once a frame() has been entered, the one that is running or else the first that waits. */
  ghost predicate Lawful<H, J, E>(g: Guest<H, J, E>, before: seq<Event<J, E>>, e: Event<J, E>) {
    var last := Last(before);
    match e
    case StopRequested => g.exiting && Idle(g, before) && (last.None? || last.value.Ran?)
    case Pumps(_, _) =>
      Idle(g, before) && (if g.exiting then last == Some(StopRequested) else last.None? || last.value.Ran?)
    case Frame(mask) => last.Some? && last.value.Pumps? && last.value.mask == mask && g.running == None && !g.thrown
    case Ran(job) =>
      && last.Some? && (last.value.Frame? || last.value.Ran?) && !g.thrown
      && (g.running == Some(job) || (g.running == None && g.queue != [] && g.queue[0] == job))
  }

  ghost predicate Story<H, J, E>(p: Program<H, J, E>, g: Guest<H, J, E>, events: seq<Event<J, E>>) {
    events == [] ||
    var before := events[..|events| - 1];
    Story(p, g, before) && Lawful(Explain(p, g, before), before, events[|events| - 1])
  }

  /** The masks frame() was entered with. */
  function FramesOf<J, E>(events: seq<Event<J, E>>): seq<Mask> {
    if events == [] then []
    else
      var e := events[|events| - 1];
      FramesOf(events[..|events| - 1]) + (if e.Frame? then [e.mask] else [])
  }

  // ------------------------------------------------------------ a run tells such a story

  function Since<H, J, E>(g0: Guest<H, J, E>, g: Guest<H, J, E>): seq<Event<J, E>> {
    if |g0.trace| <= |g.trace| then g.trace[|g0.trace|..] else []
  }

  ghost predicate Tells<H, J, E>(p: Program<H, J, E>, g0: Guest<H, J, E>, g: Guest<H, J, E>) {
    && |g0.trace| <= |g.trace| && g0.trace == g.trace[..|g0.trace|]
    && Story(p, g0, Since(g0, g)) && Explain(p, g0, Since(g0, g)) == g
  }

  lemma StoryGoesOn<H, J, E>(p: Program<H, J, E>, g0: Guest<H, J, E>, before: seq<Event<J, E>>, e: Event<J, E>)
    requires Story(p, g0, before) && Lawful(Explain(p, g0, before), before, e)
    ensures Story(p, g0, before + [e]) && Explain(p, g0, before + [e]) == Happen(p, Explain(p, g0, before), e)
    ensures FramesOf(before + [e]) == FramesOf(before) + (if e.Frame? then [e.mask] else [])
  {
    hide Lawful, Happen;
    assert (before + [e])[..|before|] == before;
  }

  lemma EventIsTraced<H, J, E>(p: Program<H, J, E>, g: Guest<H, J, E>, e: Event<J, E>)
    ensures Happen(p, g, e).trace == g.trace + [e]
  {
  }

  lemma TellsOn<H, J, E>(p: Program<H, J, E>, g0: Guest<H, J, E>, g: Guest<H, J, E>, e: Event<J, E>)
    requires Tells(p, g0, g) && Lawful(g, Since(g0, g), e)
    ensures var after := Happen(p, g, e);
      && Tells(p, g0, after) && Since(g0, after) == Since(g0, g) + [e]
      && FramesOf(Since(g0, after)) == FramesOf(Since(g0, g)) + (if e.Frame? then [e.mask] else [])
  {
    hide Lawful, Happen, Story, Explain, FramesOf;
    var before, after := Since(g0, g), Happen(p, g, e);
    EventIsTraced(p, g, e);
    StoryGoesOn(p, g0, before, e);
    assert Since(g0, after) == before + [e];
    assert after.trace[..|g0.trace|] == g0.trace;
  }

  /** A frame() or a job was the last to run. */
  ghost predicate Settled<H, J, E>(g0: Guest<H, J, E>, g: Guest<H, J, E>) {
    && |g0.trace| <= |g.trace| && FrameSeen(Since(g0, g))
    && var last := Last(Since(g0, g)); last.Some? && (last.value.Frame? || last.value.Ran?)
  }

  lemma AdvanceHappens<H, J, E>(p: Program<H, J, E>, g: Guest<H, J, E>)
    requires HasWork(g)
    ensures var job := if g.running.Some? then g.running.value else g.queue[0]; Advance(p, g) == Happen(p, g, Ran(job))
  {
  }

  lemma SeenStays<J, E>(events: seq<Event<J, E>>, e: Event<J, E>)
    ensures FrameSeen(events) || e.Frame? <==> FrameSeen(events + [e])
    ensures Last(events + [e]) == Some(e)
  {
    var more := events + [e];
    if FrameSeen(events) {
      var k :| 0 <= k < |events| && events[k].Frame?;
      assert more[k].Frame?;
    }
    if e.Frame? { assert more[|events|].Frame?; }
    if FrameSeen(more) && !e.Frame? {
      var k :| 0 <= k < |more| && more[k].Frame?;
      assert events[k].Frame?;
    }
  }

  lemma AdvanceTells<H, J, E>(p: Program<H, J, E>, g0: Guest<H, J, E>, g: Guest<H, J, E>)
    requires Tells(p, g0, g) && Settled(g0, g) && HasWork(g)
    ensures var after := Advance(p, g);
      Tells(p, g0, after) && Settled(g0, after) && FramesOf(Since(g0, after)) == FramesOf(Since(g0, g))
  {
    var job := if g.running.Some? then g.running.value else g.queue[0];
    assert Lawful(g, Since(g0, g), Ran(job));
    AdvanceHappens(p, g);
    hide Lawful, Tells, Happen, Advance, FrameSeen, FramesOf, HasWork, Since;
    TellsOn(p, g0, g, Ran(job));
    SeenStays(Since(g0, g), Ran(job));
  }

  lemma {:induction false} StepsTell<H, J, E>(p: Program<H, J, E>, g0: Guest<H, J, E>, g: Guest<H, J, E>, n: nat)
    requires Tells(p, g0, g) && Settled(g0, g)
    ensures var after := Steps(p, g, n);
      Tells(p, g0, after) && Settled(g0, after) && FramesOf(Since(g0, after)) == FramesOf(Since(g0, g))
    decreases n
  {
    hide Tells, Settled, FramesOf, Since, Advance;
    if n == 0 || !HasWork(g) {
    } else {
      AdvanceTells(p, g0, g);
      StepsTell(p, g0, Advance(p, g), n - 1);
    }
  }

  /** Where nothing runs, the last to run was a job. */
  lemma IdleAfterJob<H, J, E>(p: Program<H, J, E>, g0: Guest<H, J, E>, g: Guest<H, J, E>)
    requires Tells(p, g0, g) && Settled(g0, g) && g.running.None?
    ensures Last(Since(g0, g)).value.Ran?
  {
  }

  lemma BeginTells<H, J, E>(p: Program<H, J, E>, g0: Guest<H, J, E>, g: Guest<H, J, E>, mask: Mask, env: E)
    requires Tells(p, g0, g) && g.running.None? && !g.thrown
    requires Since(g0, g) == [] || (Settled(g0, g) && g.queue == [])
    ensures var after := Begin(p, g, mask, env);
      && Tells(p, g0, after) && Settled(g0, after)
      && FramesOf(Since(g0, after)) == FramesOf(Since(g0, g)) + [mask]
  {
    hide *;
    IsIdle(p, g0, g);
    var stopped := if g.exiting then Happen(p, g, StopRequested) else g;
    var pumped := Happen(p, stopped, Pumps(mask, env));
    BeginHappens(p, g, mask, env);
    PumpsAreNext(p, g0, g, mask, env);
    FrameIsNext(p, g0, pumped, mask, env);
    TellsOn(p, g0, pumped, Frame(mask));
    SettledByFrame(p, g0, pumped, mask);
  }

  lemma IsIdle<H, J, E>(p: Program<H, J, E>, g0: Guest<H, J, E>, g: Guest<H, J, E>)
    requires Tells(p, g0, g) && g.running.None? && !g.thrown
    requires Since(g0, g) == [] || (Settled(g0, g) && g.queue == [])
    ensures Idle(g, Since(g0, g)) && (Last(Since(g0, g)).None? || Last(Since(g0, g)).value.Ran?)
  {
    NothingSeen<J, E>();
    if Since(g0, g) == [] {
    } else {
      IdleAfterJob(p, g0, g);
    }
  }

  lemma SettledByFrame<H, J, E>(p: Program<H, J, E>, g0: Guest<H, J, E>, g: Guest<H, J, E>, mask: Mask)
    requires Tells(p, g0, Happen(p, g, Frame(mask)))
    requires Since(g0, Happen(p, g, Frame(mask))) == Since(g0, g) + [Frame(mask)]
    ensures Settled(g0, Happen(p, g, Frame(mask)))
  {
    hide Story, Explain, Happen;
    SeenStays(Since(g0, g), Frame(mask));
  }

  lemma BeginHappens<H, J, E>(p: Program<H, J, E>, g: Guest<H, J, E>, mask: Mask, env: E)
    ensures var stopped := if g.exiting then Happen(p, g, StopRequested) else g;
      Begin(p, g, mask, env) == Happen(p, Happen(p, stopped, Pumps(mask, env)), Frame(mask))
  {
  }

  lemma PumpsAreNext<H, J, E>(p: Program<H, J, E>, g0: Guest<H, J, E>, g: Guest<H, J, E>, mask: Mask, env: E)
    requires Tells(p, g0, g) && Idle(g, Since(g0, g))
    requires Last(Since(g0, g)).None? || Last(Since(g0, g)).value.Ran?
    ensures var stopped := if g.exiting then Happen(p, g, StopRequested) else g;
      var pumped := Happen(p, stopped, Pumps(mask, env));
      && Tells(p, g0, pumped) && FramesOf(Since(g0, pumped)) == FramesOf(Since(g0, g))
      && pumped.running.None? && !pumped.thrown && Last(Since(g0, pumped)) == Some(Pumps(mask, env))
  {
    hide Tells, FramesOf, Since, FrameSeen;
    var stopped := if g.exiting then Happen(p, g, StopRequested) else g;
    if g.exiting {
      TellsOn(p, g0, g, StopRequested);
      SeenStays(Since(g0, g), StopRequested);
    }
    assert FramesOf(Since(g0, stopped)) == FramesOf(Since(g0, g));
    TellsOn(p, g0, stopped, Pumps(mask, env));
    SeenStays(Since(g0, stopped), Pumps(mask, env));
  }

  lemma FrameIsNext<H, J, E>(p: Program<H, J, E>, g0: Guest<H, J, E>, g: Guest<H, J, E>, mask: Mask, env: E)
    requires g.running.None? && !g.thrown && Last(Since(g0, g)) == Some(Pumps(mask, env))
    ensures Lawful(g, Since(g0, g), Frame(mask))
  {
  }

  lemma NothingSeen<J, E>()
    ensures !FrameSeen<J, E>([])
  {
  }

  /** What a run keeps between its trace and its log. */
  ghost predicate Told<H, J, E>(p: Program<H, J, E>, g0: Guest<H, J, E>, log: Log<H, J, E>) {
    && Tells(p, g0, log.session.guest)
    && (if log.turns == [] then Since(g0, log.session.guest) == [] else Settled(g0, log.session.guest))
    && FramesOf(Since(g0, log.session.guest)) == Answered(log.turns)
  }

  function Answered<E>(turns: seq<Turn<E>>): seq<Mask> {
    seq(|turns|, k requires 0 <= k < |turns| => AllKeys(turns[k].masks))
  }

  lemma HostTurnTells<H, J, E>(p: Program<H, J, E>, g0: Guest<H, J, E>, log: Log<H, J, E>, i: Input<E>,
                               t: Ticked<H, J, E>)
    requires Told(p, g0, log) && Flagged(log.session, log.turns != []) && log.session.deferred == AllKeys(log.waiting)
    requires HostTurn(p, log.session, i, t, log.turns != [])
    ensures Told(p, g0, Record(log, i, t))
  {
    hide Tells, Settled, Begin, Steps, FramesOf, Since, AllKeys, Answered;
    var s := log.session;
    var g := if t.resumed then Steps(p, s.guest, i.resumeCut) else s.guest;
    var turns := if t.resumed then TurnMachine.Last(log.turns, i.resumeCut) else log.turns;
    LastAnswers(log.turns, i.resumeCut);
    if t.resumed { StepsTell(p, g0, s.guest, i.resumeCut); }
    if t.dispatched {
      var keys := Keys(t.accepted);
      TakeKeys(log.waiting, t.accepted);
      var mask := s.deferred + MaskOf(t.accepted);
      BeginTells(p, g0, g, mask, i.env);
      StepsTell(p, g0, Begin(p, g, mask, i.env), i.frameCut);
      OneMoreAnswered(turns, Turn(log.waiting + keys, i.env, i.frameCut));
    }
  }

  lemma LastAnswers<E>(turns: seq<Turn<E>>, n: nat)
    ensures Answered(TurnMachine.Last(turns, n)) == Answered(turns)
    ensures TurnMachine.Last(turns, n) == [] <==> turns == []
  {
  }

  lemma OneMoreAnswered<E>(turns: seq<Turn<E>>, t: Turn<E>)
    ensures Answered(turns + [t]) == Answered(turns) + [AllKeys(t.masks)]
  {
  }

  lemma {:induction false} RunTells<H, J, E>(p: Program<H, J, E>, s: Session<H, J, E>, ins: seq<Input<E>>)
    requires Fresh(s) && Ordinary(p, s, ins)
    ensures Told(p, s.guest, Observe(p, s, ins))
  {
    hide Tick, Told, Fresh;
    if ins == [] {
      NothingTold(p, s);
    } else {
      var before := ins[..|ins| - 1];
      forall k | 0 <= k < |before|
        ensures TickOf(p, s, before, k) == TickOf(p, s, ins, k) && before[k] == ins[k]
      {
        assert before[..k] == ins[..k];
      }
      RunTells(p, s, before);
      RunRefines(p, s, before);
      var log := Observe(p, s, before);
      TickIsHostTurn(p, log.session, ins[|before|], log.turns != []);
      HostTurnTells(p, s.guest, log, ins[|before|], TickOf(p, s, ins, |before|));
    }
  }

  lemma NothingTold<H, J, E>(p: Program<H, J, E>, s: Session<H, J, E>)
    ensures Told(p, s.guest, Log(s, [], [], []))
  {
  }

  // ------------------------------------------------------------ main results

  /** On every ordinary run of a started or resumed session the trace is a lawful story of the program's own
      steps, the guest is what the story leaves, and its frames are entered with the masks of the turns. */
  lemma TraceIsTheStory<H, J, E>(p: Program<H, J, E>, s: Session<H, J, E>, ins: seq<Input<E>>)
    requires Fresh(s) && Ordinary(p, s, ins)
    ensures |s.guest.trace| <= |Observe(p, s, ins).session.guest.trace|
    ensures var log := Observe(p, s, ins);
      var g, events := log.session.guest, log.session.guest.trace[|s.guest.trace|..];
      && g.trace[..|s.guest.trace|] == s.guest.trace
      && Story(p, s.guest, events) && Explain(p, s.guest, events) == g
      && |FramesOf(events)| == |log.turns|
      && forall k, x :: 0 <= k < |log.turns| ==>
        (x in FramesOf(events)[k] <==> exists j :: 0 <= j < |log.turns[k].masks| && x in log.turns[k].masks[j])
  {
    RunTells(p, s, ins);
    hide Story, Explain, FramesOf, AllKeys, Observe, Fresh, Ordinary;
    var turns := Observe(p, s, ins).turns;
    forall k, x | 0 <= k < |turns|
      ensures x in Answered(turns)[k] <==> exists j :: 0 <= j < |turns[k].masks| && x in turns[k].masks[j]
    {
      AllKeysOfAny(turns[k].masks, x);
    }
  }

  /** A key is in the union exactly if some mask has it. */
  lemma {:induction false} AllKeysOfAny(masks: seq<Mask>, x: nat)
    ensures x in AllKeys(masks) <==> exists j :: 0 <= j < |masks| && x in masks[j]
  {
    if masks == [] {
    } else {
      var n := |masks| - 1;
      AllKeysOfAny(masks[..n], x);
      if x in AllKeys(masks[..n]) {
        var j :| 0 <= j < n && x in masks[..n][j];
        assert masks[j] == masks[..n][j];
      }
      forall j | 0 <= j < |masks| && x in masks[j] ensures x in AllKeys(masks) {
        assert j < n ==> masks[..n][j] == masks[j];
      }
    }
  }

  /** The keys reach JavaScript: what runs once frame(mask) is traced is the program's frame(mask). */
  lemma FrameIsEntered<H, J, E>(p: Program<H, J, E>, s: Session<H, J, E>, ins: seq<Input<E>>, k: nat)
    requires Fresh(s) && Ordinary(p, s, ins)
    requires var trace := Observe(p, s, ins).session.guest.trace;
      |s.guest.trace| <= k < |trace| && trace[k].Frame?
    ensures var g := Observe(p, s, ins).session.guest;
      var job := p.frame(g.trace[k].mask);
      if k + 1 < |g.trace| then g.trace[k + 1] == Ran(job) else g.running == Some(job)
  {
    hide Observe, Fresh, Ordinary, Tells, Settled, Answered, FramesOf;
    RunTells(p, s, ins);
    FrameInTrace(p, s.guest, Observe(p, s, ins).session.guest, k);
  }

  lemma FrameInTrace<H, J, E>(p: Program<H, J, E>, g0: Guest<H, J, E>, g: Guest<H, J, E>, k: nat)
    requires Tells(p, g0, g) && |g0.trace| <= k < |g.trace| && g.trace[k].Frame?
    ensures var job := p.frame(g.trace[k].mask);
      if k + 1 < |g.trace| then g.trace[k + 1] == Ran(job) else g.running == Some(job)
  {
    hide Story, Explain;
    var at := k - |g0.trace|;
    assert Since(g0, g)[at] == g.trace[k];
    assert k + 1 < |g.trace| ==> Since(g0, g)[at + 1] == g.trace[k + 1];
    FrameInStory(p, g0, Since(g0, g), at);
  }

  lemma FrameInStory<H, J, E>(p: Program<H, J, E>, g: Guest<H, J, E>, events: seq<Event<J, E>>, k: nat)
    requires Story(p, g, events) && k < |events| && events[k].Frame?
    ensures var job := p.frame(events[k].mask);
      if k + 1 < |events| then events[k + 1] == Ran(job) else Explain(p, g, events).running == Some(job)
  {
    hide Story, Explain;
    StoryAt(p, g, events, k);
    EntersFrame(p, Explain(p, g, events[..k]), events[k]);
    if k + 1 < |events| {
      StoryAt(p, g, events, k + 1);
    } else {
      assert events[..k + 1] == events;
    }
  }

  lemma EntersFrame<H, J, E>(p: Program<H, J, E>, g: Guest<H, J, E>, e: Event<J, E>)
    requires e.Frame?
    ensures Happen(p, g, e).running == Some(p.frame(e.mask))
  {
  }

  lemma StoryAt<H, J, E>(p: Program<H, J, E>, g: Guest<H, J, E>, events: seq<Event<J, E>>, k: nat)
    requires Story(p, g, events) && k < |events|
    ensures Lawful(Explain(p, g, events[..k]), events[..k], events[k])
    ensures Explain(p, g, events[..k + 1]) == Happen(p, Explain(p, g, events[..k]), events[k])
  {
    hide Lawful, Happen;
    StoryBegins(p, g, events, k + 1);
    assert events[..k + 1][..k] == events[..k];
  }

  lemma {:induction false} StoryBegins<H, J,
    E>(p: Program<H, J, E>, g: Guest<H, J, E>, events: seq<Event<J, E>>, n: nat)
    requires Story(p, g, events) && n <= |events|
    ensures Story(p, g, events[..n])
  {
    if n == |events| {
      assert events[..n] == events;
    } else {
      StoryBegins(p, g, events[..|events| - 1], n);
      assert events[..|events| - 1][..n] == events[..n];
    }
  }

  // ------------------------------------------------------------ what is drawn

  /** What the events do besides. */
  function Effects<H, J, E>(p: Program<H, J, E>, g: Guest<H, J, E>, events: seq<Event<J, E>>): seq<Effect> {
    if events == [] then []
    else
      var before := events[..|events| - 1];
      Effects(p, g, before) + EffectsOf(p, Explain(p, g, before), events[|events| - 1])
  }

  function EffectsOf<H, J, E>(p: Program<H, J, E>, now: Guest<H, J, E>, e: Event<J, E>): seq<Effect> {
    match e
    case Pumps(mask, env) => p.deliver(now.heap, mask, env, now.stopping).effects
    case Ran(job) => [p.step(now.heap, job, now.stopping).effect]
    case _ => []
  }

  /** What drawing marks: a submission once a picture is submitted, a commit once a procedural frame that is
      open is committed, and a frame open from its beginFrame() to the next commit(). */
  lemma {:induction false} DrawingMarks(d: Display, es: seq<Effect>)
    ensures var r := DrawAll(d, es);
      && (r.submission <==> d.submission || SubmitPicture in es)
      && (r.commit <==> d.commit || (d.building && CommitFrame in es) || CommitsOwn(es))
      && (r.building <==> if BeginFrame in es then LeavesOpen(es) else d.building && CommitFrame !in es)
      && r.damage == d.damage
    decreases es
  {
    if es == [] {
    } else {
      DrawingMarks(Draw(d, es[0]), es[1..]);
      CommitsOwnFrom(es);
      LeavesOpenFrom(es);
      HeadOrTail(es, SubmitPicture);
      HeadOrTail(es, BeginFrame);
      HeadOrTail(es, CommitFrame);
      hide CommitsOwn, LeavesOpen;
    }
  }

  lemma HeadOrTail(es: seq<Effect>, e: Effect)
    requires es != []
    ensures e in es <==> es[0] == e || e in es[1..]
  {
    assert es == [es[0]] + es[1..];
  }

  ghost predicate CommitsOwn(es: seq<Effect>) {
    exists j, k :: 0 <= j < k < |es| && es[j] == BeginFrame && es[k] == CommitFrame
  }

  ghost predicate LeavesOpen(es: seq<Effect>) {
    exists j :: 0 <= j < |es| && es[j] == BeginFrame && CommitFrame !in es[j..]
  }

  lemma CommitsOwnFrom(es: seq<Effect>)
    requires es != []
    ensures CommitsOwn(es) <==> CommitsOwn(es[1..]) || (es[0] == BeginFrame && CommitFrame in es[1..])
  {
    var rest := es[1..];
    if CommitsOwn(es) {
      var j, k :| 0 <= j < k < |es| && es[j] == BeginFrame && es[k] == CommitFrame;
      assert rest[k - 1] == CommitFrame;
      assert j > 0 ==> rest[j - 1] == BeginFrame;
    }
    if CommitsOwn(rest) {
      var j, k :| 0 <= j < k < |rest| && rest[j] == BeginFrame && rest[k] == CommitFrame;
      assert es[j + 1] == BeginFrame && es[k + 1] == CommitFrame;
    }
    if es[0] == BeginFrame && CommitFrame in rest {
      var k :| 0 <= k < |rest| && rest[k] == CommitFrame;
      assert es[k + 1] == CommitFrame;
    }
  }

  lemma LeavesOpenFrom(es: seq<Effect>)
    requires es != []
    ensures LeavesOpen(es) <==> LeavesOpen(es[1..]) || (es[0] == BeginFrame && CommitFrame !in es[1..])
    ensures LeavesOpen(es) ==> BeginFrame in es
  {
    var rest := es[1..];
    assert es[0..] == es && es == [es[0]] + rest;
    if LeavesOpen(es) {
      var j :| 0 <= j < |es| && es[j] == BeginFrame && CommitFrame !in es[j..];
      if j > 0 { assert rest[j - 1] == BeginFrame && rest[j - 1..] == es[j..]; }
    }
    if LeavesOpen(rest) {
      var j :| 0 <= j < |rest| && rest[j] == BeginFrame && CommitFrame !in rest[j..];
      assert es[j + 1] == BeginFrame && es[j + 1..] == rest[j..];
    }
  }

  ghost predicate Extends<H, J, E>(a: Guest<H, J, E>, b: Guest<H, J, E>) {
    |a.trace| <= |b.trace| && b.trace[..|a.trace|] == a.trace
  }

  lemma SinceJoins<H, J, E>(a: Guest<H, J, E>, b: Guest<H, J, E>, c: Guest<H, J, E>)
    requires Extends(a, b) && Extends(b, c)
    ensures Extends(a, c) && Since(a, c) == Since(a, b) + Since(b, c)
  {
  }

  /** The events between two guests lead from one to the other. */
  ghost predicate Leads<H, J, E>(p: Program<H, J, E>, a: Guest<H, J, E>, b: Guest<H, J, E>) {
    Extends(a, b) && Explain(p, a, Since(a, b)) == b
  }

  lemma {:induction false} EffectsJoin<H, J, E>(p: Program<H, J, E>, g: Guest<H, J, E>,
                                                a: seq<Event<J, E>>, b: seq<Event<J, E>>)
    ensures Explain(p, g, a + b) == Explain(p, Explain(p, g, a), b)
    ensures Effects(p, g, a + b) == Effects(p, g, a) + Effects(p, Explain(p, g, a), b)
    decreases |b|
  {
    hide Explain, Effects, Happen, EffectsOf;
    var middle := Explain(p, g, a);
    if b == [] {
      NoEffects(p, middle);
      Regroup(a, [], []);
      Regroup(Effects(p, g, a), [], []);
    } else {
      var n := |b| - 1;
      EffectsJoin(p, g, a, b[..n]);
      EffectsGrow(p, g, a + b[..n], b[n]);
      EffectsGrow(p, middle, b[..n], b[n]);
      assert b[..n] + [b[n]] == b;
      Regroup(a, b[..n], [b[n]]);
      Regroup(Effects(p, g, a), Effects(p, middle, b[..n]), EffectsOf(p, Explain(p, middle, b[..n]), b[n]));
    }
  }

  lemma NoEffects<H, J, E>(p: Program<H, J, E>, g: Guest<H, J, E>)
    ensures Explain(p, g, []) == g && Effects(p, g, []) == []
  {
  }

  lemma EffectsGrow<H, J, E>(p: Program<H, J, E>, g: Guest<H, J, E>, events: seq<Event<J, E>>, e: Event<J, E>)
    ensures Explain(p, g, events + [e]) == Happen(p, Explain(p, g, events), e)
    ensures Effects(p, g, events + [e]) == Effects(p, g, events) + EffectsOf(p, Explain(p, g, events), e)
  {
    hide Happen, EffectsOf;
    assert (events + [e])[..|events|] == events;
  }

  lemma LeadsOn<H, J, E>(p: Program<H, J, E>, a: Guest<H, J, E>, b: Guest<H, J, E>, c: Guest<H, J, E>)
    requires Leads(p, a, b) && Leads(p, b, c)
    ensures Leads(p, a, c)
    ensures Effects(p, a, Since(a, c)) == Effects(p, a, Since(a, b)) + Effects(p, b, Since(b, c))
  {
    hide Explain, Effects;
    SinceJoins(a, b, c);
    EffectsJoin(p, a, Since(a, b), Since(b, c));
  }

  lemma OneEvent<H, J, E>(p: Program<H, J, E>, g: Guest<H, J, E>, e: Event<J, E>)
    ensures Leads(p, g, Happen(p, g, e))
    ensures Effects(p, g, Since(g, Happen(p, g, e))) == EffectsOf(p, g, e)
  {
    EventIsTraced(p, g, e);
    EffectsGrow(p, g, [], e);
    assert Explain(p, g, []) == g && Effects(p, g, []) == [];
    hide Happen, Explain, Effects, EffectsOf;
    assert Since(g, Happen(p, g, e)) == [] + [e];
  }

  lemma NoEvent<H, J, E>(p: Program<H, J, E>, g: Guest<H, J, E>)
    ensures Leads(p, g, g) && Effects(p, g, Since(g, g)) == []
  {
  }

  /** What the opcodes draw, as the trace tells it. */
  lemma {:induction false} RunningDraws<H, J, E>(p: Program<H, J, E>, g: Guest<H, J, E>, d: Display, n: nat)
    ensures Leads(p, g, Steps(p, g, n))
    ensures Drawn(p, g, d, n) == DrawAll(d, Effects(p, g, Since(g, Steps(p, g, n))))
    decreases n
  {
    hide Leads, Effects, Explain, Since, Happen, Draw, Advance, Extends;
    if n == 0 || !HasWork(g) {
      NoEvent(p, g);
    } else {
      var job := if g.running.Some? then g.running.value else g.queue[0];
      AdvanceHappens(p, g);
      OneEvent(p, g, Ran(job));
      var next := Advance(p, g);
      var effect := NextOpcode(p, g).effect;
      RunningDraws(p, next, Draw(d, effect), n - 1);
      LeadsOn(p, g, next, Steps(p, next, n - 1));
      var rest := Effects(p, next, Since(next, Steps(p, next, n - 1)));
      assert ([effect] + rest)[0] == effect && ([effect] + rest)[1..] == rest;
    }
  }

  lemma PumpingDraws<H, J, E>(p: Program<H, J, E>, g: Guest<H, J, E>, d: Display, mask: Mask, env: E)
    ensures var after := Deliver(p, g, mask, env);
      Leads(p, g, after) && PumpDrawing(p, g, d, mask, env) == DrawAll(d, Effects(p, g, Since(g, after)))
  {
    hide Leads, Effects, Explain, Since, DrawAll, Extends;
    var stopped := if g.exiting then Happen(p, g, StopRequested) else g;
    if g.exiting { OneEvent(p, g, StopRequested); } else { NoEvent(p, g); }
    OneEvent(p, stopped, Pumps(mask, env));
    LeadsOn(p, g, stopped, Happen(p, stopped, Pumps(mask, env)));
    var es := p.deliver(stopped.heap, mask, env, stopped.stopping).effects;
    assert [] + es == es;
  }

  /** A picture is waiting after a turn whose presents all failed to reach the panel exactly if one was, the
      host put a ticket up, or JavaScript submitted one in it. */
  lemma SubmissionsAreMarked<H, J, E>(p: Program<H, J, E>, s: Session<H, J, E>, i: Input<E>)
    requires !i.gateShown.OnPanel? && !i.midShown.OnPanel? && !i.endShown.OnPanel?
    ensures var t := Tick(p, s, i);
      t.session.display.submission <==>
      (|| s.display.submission
       || (i.nativeTicket && !i.presenterFails && (Leaving(i.buttons) || !i.captureSpent))
       || SubmitPicture in Effects(p, s.guest, Since(s.guest, t.session.guest)))
  {
    hide GuestTurn, Effects, Since;
    NoEvent(p, s.guest);
    var gate := Gate(s.(continued := false), i);
    if gate.open {
      GuestTurnSubmits(p, gate.session, i, {});
      GuestTurnSubmits(p, gate.session, i, i.buttons);
    }
  }

  /** What a session's display shows of what its guest did since. */
  ghost predicate Submits<H, J, E>(p: Program<H, J, E>, s: Session<H, J, E>, t: Session<H, J, E>) {
    && Leads(p, s.guest, t.guest)
    && (t.display.submission <==>
        s.display.submission || SubmitPicture in Effects(p, s.guest, Since(s.guest, t.guest)))
  }

  lemma SubmitsOn<H, J, E>(p: Program<H, J, E>, a: Session<H, J, E>, b: Session<H, J, E>, c: Session<H, J, E>)
    requires Submits(p, a, b) && Submits(p, b, c)
    ensures Submits(p, a, c)
  {
    hide Leads, Effects, Since;
    LeadsOn(p, a.guest, b.guest, c.guest);
  }

  lemma GuestTurnSubmits<H, J, E>(p: Program<H, J, E>, s: Session<H, J, E>, i: Input<E>, buttons: Mask)
    requires !i.midShown.OnPanel? && !i.endShown.OnPanel?
    ensures Submits(p, s, GuestTurn(p, s, i, buttons).session)
  {
    hide FrameTurn, Steps, Drawn, Leads, Effects, Since;
    if !s.pending {
      FrameTurnSubmits(p, s, i, buttons);
    } else {
      var g := Steps(p, s.guest, i.resumeCut);
      var pending := if g.thrown then i.leftover else HasWork(g);
      var r := s.(guest := g, display := Close(Drawn(p, s.guest, s.display, i.resumeCut), pending), pending := pending);
      RunSubmits(p, s, i.resumeCut, pending);
      FrameTurnSubmits(p, r, i, buttons);
      FrameTurnSubmits(p, r.(display := Presented(r.display, i.midShown), lastPresent := i.now), i, buttons);
      SubmitsOn(p, s, r, FrameTurn(p, r, i, buttons).session);
      SubmitsOn(p, s, r.(display := Presented(r.display, i.midShown), lastPresent := i.now),
                FrameTurn(p, r.(display := Presented(r.display, i.midShown), lastPresent := i.now), i,
                  buttons).session);
    }
  }

  lemma RunSubmits<H, J, E>(p: Program<H, J, E>, s: Session<H, J, E>, n: nat, pending: bool)
    ensures forall t: Session<H, J, E> ::
      t.guest == Steps(p, s.guest, n) && t.display.submission == Drawn(p, s.guest, s.display, n).submission ==>
        Submits(p, s, t)
  {
    hide Leads, Effects, Since, Steps, Drawn, DrawAll;
    RunningDraws(p, s.guest, s.display, n);
    DrawingMarks(s.display, Effects(p, s.guest, Since(s.guest, Steps(p, s.guest, n))));
  }

  lemma FrameTurnSubmits<H, J, E>(p: Program<H, J, E>, s: Session<H, J, E>, i: Input<E>, buttons: Mask)
    requires !i.endShown.OnPanel?
    ensures Submits(p, s, FrameTurn(p, s, i, buttons).session)
  {
    hide Leads, Effects, Since, Steps, Drawn, DrawAll, Happen;
    var mask := buttons + s.deferred;
    var q := PumpTurn(p, s, i, buttons);
    PumpingDraws(p, s.guest, s.display, mask, i.env);
    DrawingMarks(s.display, Effects(p, s.guest, Since(s.guest, q.guest)));
    assert Submits(p, s, q);
    var called := q.(guest := Call(p, q.guest, mask));
    CallIsFrame(p, q.guest, mask);
    OneEvent(p, q.guest, Frame(mask));
    assert Submits(p, q, called);
    SubmitsOn(p, s, q, called);
    var t := FrameTurn(p, s, i, buttons).session;
    if !q.guest.running.Some? {
      RunSubmits(p, called, i.frameCut, t.pending);
      SubmitsOn(p, s, called, t);
    }
  }

  lemma CallIsFrame<H, J, E>(p: Program<H, J, E>, g: Guest<H, J, E>, mask: Mask)
    ensures Call(p, g, mask) == Happen(p, g, Frame(mask))
  {
  }

  /** Guest work that stays parked keeps the procedural frame it has open, over its own drawing alone. */
  lemma ParkedFrameStaysOpen<H, J, E>(p: Program<H, J, E>, s: Session<H, J, E>, i: Input<E>)
    requires !Leaving(i.buttons)
    ensures var t := Tick(p, s, i);
      var es := Effects(p, s.guest, Since(s.guest, t.session.guest));
      t.session.continued ==>
      (t.session.display.building <==>
        if BeginFrame in es then LeavesOpen(es) else s.display.building && CommitFrame !in es)
  {
    var gated := Gate(s.(continued := false), i).session;
    assert gated.guest == s.guest && gated.display.building == s.display.building && !gated.continued;
    hide Gate, GuestTurn, Steps, Drawn, DrawAll, Effects, Since, LeavesOpen;
    RunningDraws(p, gated.guest, gated.display, i.resumeCut);
    DrawingMarks(gated.display, Effects(p, s.guest, Since(s.guest, Steps(p, s.guest, i.resumeCut))));
    ContinuedTurn(p, gated, i, i.buttons);
    ContinuedTurn(p, gated, i, {});
  }

  lemma ContinuedTurn<H, J, E>(p: Program<H, J, E>, s: Session<H, J, E>, i: Input<E>, buttons: Mask)
    requires !s.continued
    ensures var t := GuestTurn(p, s, i, buttons).session;
      t.continued ==>
      && t.guest == Steps(p, s.guest, i.resumeCut)
      && t.display.building == Drawn(p, s.guest, s.display, i.resumeCut).building
  {
    hide FrameTurn, Steps, Drawn;
    NeverContinued(p, s, i, buttons);
  }

  /** frame() turns are not continuations. */
  lemma NeverContinued<H, J, E>(p: Program<H, J, E>, s: Session<H, J, E>, i: Input<E>, buttons: Mask)
    requires !s.continued
    ensures forall r: Session<H, J, E> :: !r.continued ==> !FrameTurn(p, r, i, buttons).session.continued
  {
    hide PumpTurn, Steps, Drawn;
    PumpsTakeKeys(p, s, i.(buttons := buttons));
    forall r: Session<H, J, E> | !r.continued ensures !FrameTurn(p, r, i, buttons).session.continued {
      PumpsKeepFlag(p, r, i, buttons);
    }
  }

  lemma PumpsKeepFlag<H, J, E>(p: Program<H, J, E>, r: Session<H, J, E>, i: Input<E>, buttons: Mask)
    ensures PumpTurn(p, r, i, buttons).continued == r.continued
  {
  }

  /** A continuation presents at most once in 33 ms, from the last present whichever turn made it, and always
      once that time has passed; each is counted. */
  lemma ContinuationsShareAPeriod<H, J, E>(p: Program<H, J, E>, s: Session<H, J, E>, i: Input<E>)
    requires !Leaving(i.buttons)
    ensures var t := Tick(p, s, i);
      var waiting := s.display.submission || i.nativeTicket || s.display.commit || s.display.damage || i.damaged;
      t.session.continued ==>
      && t.session.lastPresent == (if waiting || i.now - s.lastPresent >= 33000 then i.now else s.lastPresent)
      && (t.outcome.Failed? <==> !waiting && i.now - s.lastPresent >= 33000 && i.midShown.Broken?)
      && t.session.continuations == s.continuations + 1
  {
    hide FrameTurn, Steps, Drawn;
    var gated := Gate(s.(continued := false), i).session;
    NeverContinued(p, gated, i, i.buttons);
    NeverContinued(p, gated, i, {});
  }

  /** With nothing broken and nothing thrown a turn succeeds; a fault is never hidden. */
  lemma FaultsAreReported<H, J, E>(p: Program<H, J, E>, s: Session<H, J, E>, i: Input<E>)
    requires !Leaving(i.buttons) && !s.guest.thrown && (!s.pending ==> s.guest.running.None?)
    ensures var t := Tick(p, s, i);
      && (t.session.guest.thrown ==> t.outcome.Failed?)
      && (t.dispatched && i.endShown.Broken? ==> t.outcome.Failed?)
      && (!i.captureSpent && i.presenterFails ==> t.outcome.Failed?)
      && (t.outcome.TimedOut? ==> i.runaway && t.resumed && t.session.pending)
      && (t.resumed && !t.dispatched && t.session.pending && i.runaway && !t.session.guest.thrown ==>
        t.outcome.TimedOut?)
      && (t.outcome.Failed? ==>
            || t.session.guest.thrown || i.presenterFails
            || i.gateShown.Broken? || i.midShown.Broken? || i.endShown.Broken?)
  {
    hide Steps, Drawn, PumpTurn, Call;
    PumpsRunNothing(p, i);
  }

  lemma PumpsRunNothing<H, J, E>(p: Program<H, J, E>, i: Input<E>)
    ensures forall r: Session<H, J, E>, buttons: Mask :: var q := PumpTurn(p, r, i, buttons);
      q.guest.running == r.guest.running && q.guest.thrown == r.guest.thrown && q.pending == r.pending
  {
  }
}
