/**
 The guest turn machine of main/app_session.c. `app_tick` cuts one logical JavaScript turn
 (pumps, frame(mask), then the whole job queue) into as many host turns as the time budget asks
 for, keeps presenting in between, and holds back the keys that arrive meanwhile.
 */
module TurnMachine {
  import opened Options

  /** A 32-bit pad mask as the set of its bit numbers: `|` is union. */
  type Mask = set<nat>

  // ------------------------------------------------------------ the guest program

  /** What one opcode of JavaScript does besides changing the heap. */
  datatype Effect = Quiet | SubmitPicture | BeginFrame | CommitFrame | CallExit | Throw

  /** One opcode of a job: the new heap, what is left of the job (None when it returned), the jobs
      it queued, and its effect. */
  datatype Opcode<H, J> = Opcode(heap: H, rest: Option<J>, spawned: seq<J>, effect: Effect)

  /** What the host pumps deliver into JavaScript before a frame. */
  datatype Delivery<H, J> = Delivery(heap: H, posted: seq<J>, effects: seq<Effect>)

  /** A guest program: any deterministic language of heaps H and suspended jobs J. The flag handed
      to `step` is the stop request, which reaches JavaScript as an interrupt. */
  datatype Program<!H, !J, !E> = Program(
    step: (H, J, bool) -> Opcode<H, J>,
    frame: Mask -> J,
    deliver: (H, Mask, E, bool) -> Delivery<H, J>)

  /** What JavaScript can see happen, in order. */
  datatype Event<J, E> = StopRequested | Pumps(mask: Mask, env: E) | Frame(mask: Mask) | Ran(job: J)

  datatype Guest<H, J, E> = Guest(
    heap: H, running: Option<J>, queue: seq<J>,
    exiting: bool, stopping: bool, thrown: bool, trace: seq<Event<J, E>>)

  predicate HasWork<H, J, E>(g: Guest<H, J, E>) {
    !g.thrown && (g.running.Some? || g.queue != [])
  }

  function NextOpcode<H, J, E>(p: Program<H, J, E>, g: Guest<H, J, E>): Opcode<H, J>
    requires HasWork(g)
  {
    p.step(g.heap, if g.running.Some? then g.running.value else g.queue[0], g.stopping)
  }

  /** The running job's next opcode; a queued job is taken up only when none is running. */
  function Advance<H, J, E>(p: Program<H, J, E>, g: Guest<H, J, E>): Guest<H, J, E>
    requires HasWork(g)
  {
    var o := NextOpcode(p, g);
    var queue := if g.running.Some? then g.queue else g.queue[1..];
    var job := if g.running.Some? then g.running.value else g.queue[0];
    Guest(o.heap, if o.effect.Throw? then None else o.rest, queue + o.spawned,
          g.exiting || o.effect.CallExit?, g.stopping, o.effect.Throw?, g.trace + [Ran(job)])
  }

  /** At most n opcodes; fewer when the work ends first. */
  function Steps<H, J, E>(p: Program<H, J, E>, g: Guest<H, J, E>, n: nat): Guest<H, J, E>
    decreases n
  {
    if n == 0 || !HasWork(g) then g else Steps(p, Advance(p, g), n - 1)
  }

  // ------------------------------------------------------------ the display

  /** A submitted picture, a committed procedural frame, a procedural frame under construction,
      and damage of the host's own. */
  datatype Display = Display(submission: bool, commit: bool, building: bool, damage: bool)

  predicate Unpresented(d: Display) { d.submission || d.commit }

  predicate NeedsPresent(d: Display) { Unpresented(d) || d.damage }

  function Draw(d: Display, e: Effect): Display {
    match e
    case SubmitPicture => d.(submission := true)
    case BeginFrame => d.(building := true)
    case CommitFrame => if d.building then d.(commit := true, building := false) else d
    case _ => d
  }

  function DrawAll(d: Display, es: seq<Effect>): Display
    decreases es
  {
    if es == [] then d else DrawAll(Draw(d, es[0]), es[1..])
  }

  /** What the opcodes of `Steps(p, g, n)` do to the display. */
  function Drawn<H, J, E>(p: Program<H, J, E>, g: Guest<H, J, E>, d: Display, n: nat): Display
    decreases n
  {
    if n == 0 || !HasWork(g) then d
    else Drawn(p, Advance(p, g), Draw(d, NextOpcode(p, g).effect), n - 1)
  }

  /** pocket_kasane_end_turn() or pocket_kasane_park_turn(), as end_guest_turn() chooses. */
  function Close(d: Display, pending: bool): Display { if pending then d else d.(building := false) }

  /** The outcomes of one LCD present: on the panel, kept for a retry, or an error. */
  datatype Shown = OnPanel | Retained | Broken

  function Presented(d: Display, s: Shown): Display {
    if s.OnPanel? then d.(submission := false, commit := false, damage := false) else d
  }

  datatype Outcome = Ok | Failed | TimedOut

  function PresentOutcome(s: Shown): Outcome { if s.Broken? then Failed else Ok }

  // ------------------------------------------------------------ one host turn

  const BACK: nat := 13  // bit of 0x2000
  const DISPLAY_PERIOD_US := 33000

  predicate Leaving(buttons: Mask) { BACK in buttons }

  /** The session statics of app_session.c. `pending` is pocketjs_guest_work_pending(): what the
      last dispatch reported, not whether the queue is empty now. */
  datatype Session<H, J, E> = Session(
    guest: Guest<H, J, E>, display: Display, pending: bool,
    deferred: Mask, continuations: nat, continued: bool, lastPresent: int)

  /** Everything one host turn meets from outside: the keys, what the pumps deliver, where the
      budget cuts the two dispatches, and the answers of the display and the clock. */
  datatype Input<E> = Input(
    buttons: Mask, env: E,
    resumeCut: nat, frameCut: nat, leftover: bool, runaway: bool,
    captureSpent: bool, capturing: bool, blocked: bool,
    presenterFails: bool, nativeTicket: bool, damaged: bool, animating: bool, systemPending: bool,
    gateShown: Shown, midShown: Shown, endShown: Shown, now: int)

  /** A host turn: the session it leaves, its return code, the mask that got past the gates (a turn
      whose resumed work threw takes none: the session is over), and whether it resumed parked work
      or dispatched frame() -- `stale` when an unpresented picture was standing as the pumps of that
      frame began. */
  datatype Ticked<H, J, E> = Ticked(
    session: Session<H, J, E>, outcome: Outcome,
    accepted: Option<Mask>, resumed: bool, dispatched: bool, stale: bool)

  /** Honour exit() and run the pumps. */
  function Deliver<H, J, E>(p: Program<H, J, E>, g: Guest<H, J, E>, mask: Mask, env: E): Guest<H, J, E> {
    var g := if g.exiting then g.(stopping := true, trace := g.trace + [StopRequested]) else g;
    var v := p.deliver(g.heap, mask, env, g.stopping);
    g.(heap := v.heap, queue := g.queue + v.posted, exiting := g.exiting || CallExit in v.effects,
       trace := g.trace + [Pumps(mask, env)])
  }

  /** Enter frame(mask). */
  function Call<H, J, E>(p: Program<H, J, E>, g: Guest<H, J, E>, mask: Mask): Guest<H, J, E> {
    g.(running := Some(p.frame(mask)), trace := g.trace + [Frame(mask)])
  }

  function Begin<H, J, E>(p: Program<H, J, E>, g: Guest<H, J, E>, mask: Mask, env: E): Guest<H, J, E> {
    Call(p, Deliver(p, g, mask, env), mask)
  }

  /** What the pumps of `Deliver` do to the display. */
  function PumpDrawing<H, J, E>(p: Program<H, J, E>, g: Guest<H, J, E>, d: Display, mask: Mask, env: E): Display {
    DrawAll(d, p.deliver(g.heap, mask, env, g.stopping || g.exiting).effects)
  }

  /** Honour exit(), run the pumps with every key held, and close their turn. */
  function PumpTurn<H, J, E>(p: Program<H, J, E>, s: Session<H, J, E>, i: Input<E>, buttons: Mask): Session<H, J, E> {
    var mask := buttons + s.deferred;
    s.(guest := Deliver(p, s.guest, mask, i.env),
       display := Close(PumpDrawing(p, s.guest, s.display, mask, i.env), s.pending),
       deferred := {}, continuations := 0)
  }

  /** The end of app_tick: pumps, frame(), present. */
  function FrameTurn<H, J, E>(p: Program<H, J, E>, s: Session<H, J, E>, i: Input<E>, buttons: Mask): Ticked<H, J, E> {
    var stale := Unpresented(s.display);
    var q := PumpTurn(p, s, i, buttons);
    if q.guest.running.Some? then
      // Only a Back turn comes here with a parked frame(): a second call is refused.
      Ticked(q, Failed, Some(buttons), false, false, false)
    else
      var g0 := Call(p, q.guest, buttons + s.deferred);
      var g := Steps(p, g0, i.frameCut);
      var pending := if g.thrown then i.leftover else HasWork(g);
      var d := Close(Drawn(p, g0, q.display, i.frameCut), pending);
      if g.thrown then
        Ticked(q.(guest := g, pending := pending, display := d), Failed, Some(buttons), false, true, stale)
      else
        Ticked(q.(guest := g, pending := pending, display := Presented(d, i.endShown), lastPresent := i.now),
               PresentOutcome(i.endShown), Some(buttons), false, true, stale)
  }

  /** app_tick past the display gate. */
  function GuestTurn<H, J, E>(p: Program<H, J, E>, s: Session<H, J, E>, i: Input<E>,
                              buttons: Mask): Ticked<H, J, E> {
    if !s.pending then FrameTurn(p, s, i, buttons)
    else
      var g := Steps(p, s.guest, i.resumeCut);
      var pending := if g.thrown then i.leftover else HasWork(g);
      var d := Close(Drawn(p, s.guest, s.display, i.resumeCut), pending);
      var r := s.(guest := g, display := d, pending := pending);
      if g.thrown then Ticked(r, Failed, None, true, false, false)
      else if !Leaving(buttons) && pending then
        var r := r.(deferred := r.deferred + buttons);
        if i.runaway then Ticked(r, TimedOut, Some(buttons), true, false, false)
        else
          var r := r.(continuations := r.continuations + 1, continued := true);
          if i.now - r.lastPresent < DISPLAY_PERIOD_US then Ticked(r, Ok, Some(buttons), true, false, false)
          else Ticked(r.(display := Presented(d, i.midShown), lastPresent := i.now),
                      PresentOutcome(i.midShown), Some(buttons), true, false, false)
      else if Unpresented(d) then
        var shown := r.(display := Presented(d, i.midShown), lastPresent := i.now);
        if !Leaving(buttons) then
          Ticked(shown.(deferred := r.deferred + buttons), PresentOutcome(i.midShown),
                 Some(buttons), true, false, false)
        else if i.midShown.Broken? then Ticked(shown, Failed, Some(buttons), true, false, false)
        else FrameTurn(p, shown, i, buttons).(resumed := true)
      else FrameTurn(p, r, i, buttons).(resumed := true)
  }

  /** What the gates at the top of app_tick leave: the session, the return code, and whether the
      turn goes on into JavaScript. */
  datatype Gated<H, J, E> = Gated(session: Session<H, J, E>, outcome: Outcome, open: bool)

  function Gate<H, J, E>(s: Session<H, J, E>, i: Input<E>): Gated<H, J, E> {
    var back := Leaving(i.buttons);
    if !back && i.captureSpent then Gated(s, Ok, false)
    else if i.presenterFails then Gated(s, Failed, false)
    else
      var prior := s.display.submission && !i.animating && !i.systemPending;
      var d := s.display.(submission := s.display.submission || i.nativeTicket,
                          damage := s.display.damage || i.damaged);
      if !NeedsPresent(d) then Gated(s.(display := d), Ok, true)
      else
        var shown := s.(display := Presented(d, i.gateShown), lastPresent := i.now);
        if i.gateShown.Broken? then Gated(shown, Failed, false)
        else Gated(shown, Ok, back || !(prior || i.capturing || NeedsPresent(shown.display)))
  }

  /** app_tick. */
  function Tick<H, J, E>(p: Program<H, J, E>, s: Session<H, J, E>, i: Input<E>): Ticked<H, J, E> {
    var gate := Gate(s.(continued := false), i);
    if !gate.open then Ticked(gate.session, gate.outcome, None, false, false, false)
    else if !Leaving(i.buttons) && i.blocked then GuestTurn(p, gate.session, i, {}).(accepted := None)
    else GuestTurn(p, gate.session, i, i.buttons)
  }

  // ------------------------------------------------------------ the simple machine

  /** One logical turn: the masks it answers, what its pumps deliver, and the opcodes it ran. */
  datatype Turn<E> = Turn(masks: seq<Mask>, env: E, steps: nat)

  function AllKeys(masks: seq<Mask>): Mask {
    if masks == [] then {} else AllKeys(masks[..|masks| - 1]) + masks[|masks| - 1]
  }

  /** The machine without budget, continuations or display: turn after turn, each one entered with
      every key pressed since the turn before. */
  function Replay<H, J, E>(p: Program<H, J, E>, g: Guest<H, J, E>, turns: seq<Turn<E>>): Guest<H, J, E> {
    if turns == [] then g
    else
      var t := turns[|turns| - 1];
      Steps(p, Begin(p, Replay(p, g, turns[..|turns| - 1]), AllKeys(t.masks), t.env), t.steps)
  }

  /** Every turn but the last ran until nothing was left to run, so every turn but the first began on
      an empty queue. */
  ghost predicate Drained<H, J, E>(p: Program<H, J, E>, g: Guest<H, J, E>, turns: seq<Turn<E>>) {
    forall k :: 1 <= k < |turns| ==> !HasWork(Replay(p, g, turns[..k]))
  }

  function Flatten(masks: seq<seq<Mask>>): seq<Mask> {
    if masks == [] then [] else Flatten(masks[..|masks| - 1]) + masks[|masks| - 1]
  }

  function MasksOf<E>(turns: seq<Turn<E>>): seq<seq<Mask>> {
    seq(|turns|, k requires 0 <= k < |turns| => turns[k].masks)
  }

  // ------------------------------------------------------------ whole runs

  /** A run of host turns seen from outside: the session it ends in, the logical turns it made, the
      masks accepted since the last frame(), and all masks accepted, in order. */
  datatype Log<H, J, E> = Log(
    session: Session<H, J, E>, turns: seq<Turn<E>>, waiting: seq<Mask>, accepted: seq<Mask>)

  function Last<E>(turns: seq<Turn<E>>, more: nat): seq<Turn<E>> {
    if turns == [] then [] else
      var t := turns[|turns| - 1];
      turns[..|turns| - 1] + [t.(steps := t.steps + more)]
  }

  function Record<H, J, E>(log: Log<H, J, E>, i: Input<E>, t: Ticked<H, J, E>): Log<H, J, E> {
    var keys := Keys(t.accepted);
    var turns := if t.resumed then Last(log.turns, i.resumeCut) else log.turns;
    var waiting := log.waiting + keys;
    Log(t.session,
        if t.dispatched then turns + [Turn(waiting, i.env, i.frameCut)] else turns,
        if t.dispatched then [] else waiting,
        log.accepted + keys)
  }

  function Observe<H, J, E>(p: Program<H, J, E>, s: Session<H, J, E>, ins: seq<Input<E>>): Log<H, J, E> {
    if ins == [] then Log(s, [], [], [])
    else
      var log := Observe(p, s, ins[..|ins| - 1]);
      Record(log, ins[|ins| - 1], Tick(p, log.session, ins[|ins| - 1]))
  }

  /** The host turn `k` of a run. */
  function TickOf<H, J, E>(p: Program<H, J, E>, s: Session<H, J, E>, ins: seq<Input<E>>, k: nat): Ticked<H, J, E>
    requires k < |ins|
  {
    Tick(p, Observe(p, s, ins[..k]).session, ins[k])
  }

  /** No Back, and every host turn but possibly the last returned OK: an error ends the session. */
  ghost predicate Ordinary<H, J, E>(p: Program<H, J, E>, s: Session<H, J, E>, ins: seq<Input<E>>) {
    && (forall k :: 0 <= k < |ins| ==> !Leaving(ins[k].buttons))
    && (forall k :: 0 <= k < |ins| - 1 ==> TickOf(p, s, ins, k).outcome.Ok?)
  }

  /** A session as app_start_test or app_resume leaves it: nothing runs, no key is held, and the work
      flag is down. The resume hook runs outside any drain, so it may leave jobs queued behind that
      flag, and a picture or a procedural frame as well. */
  predicate Fresh<H, J, E>(s: Session<H, J, E>) {
    s.guest.running.None? && !s.guest.thrown && !s.pending && s.deferred == {}
  }

  // ------------------------------------------------------------ lemmas

  lemma {:induction false} StepsCompose<H, J, E>(p: Program<H, J, E>, g: Guest<H, J, E>, a: nat, b: nat)
    ensures Steps(p, Steps(p, g, a), b) == Steps(p, g, a + b)
    decreases a
  {
    if a > 0 && HasWork(g) { StepsCompose(p, Advance(p, g), a - 1, b); }
  }

  /** However the drain is cut, it ends in the same guest. */
  lemma {:induction false} DrainIsUnique<H, J, E>(p: Program<H, J, E>, g: Guest<H, J, E>, a: nat, b: nat)
    requires !HasWork(Steps(p, g, a)) && !HasWork(Steps(p, g, b))
    ensures Steps(p, g, a) == Steps(p, g, b)
  {
    if a <= b { StepsCompose(p, g, a, b - a); } else { StepsCompose(p, g, b, a - b); }
  }

  /** While the session lives the work flag tells the truth from the first dispatch on; before that it
      is down. */
  predicate Flagged<H, J, E>(s: Session<H, J, E>, begun: bool) {
    && s.pending == (begun && HasWork(s.guest))
    && (!s.pending ==> s.guest.running.None?)
    && !s.guest.thrown
  }

  lemma LastTurn<E>(turns: seq<Turn<E>>, n: nat, k: nat)
    requires k < |turns|
    ensures |Last(turns, n)| == |turns| && Last(turns, n)[..k] == turns[..k]
  {
  }

  lemma LastMasks<E>(turns: seq<Turn<E>>, n: nat)
    ensures MasksOf(Last(turns, n)) == MasksOf(turns)
  {
  }

  lemma {:induction false} ResumeExtends<H, J, E>(p: Program<H, J, E>, g: Guest<H, J, E>, turns: seq<Turn<E>>, n: nat)
    requires turns != [] && Drained(p, g, turns)
    ensures Replay(p, g, Last(turns, n)) == Steps(p, Replay(p, g, turns), n)
    ensures Drained(p, g, Last(turns, n))
    ensures MasksOf(Last(turns, n)) == MasksOf(turns) && |Last(turns, n)| == |turns|
  {
    hide MasksOf;
    LastMasks(turns, n);
    ResumeReplays(p, g, turns, n);
    LastTurn(turns, n, 0);
    hide Last, Steps, HasWork, Replay;
    forall k | 1 <= k < |turns| ensures !HasWork(Replay(p, g, Last(turns, n)[..k])) {
      LastTurn(turns, n, k);
    }
  }

  lemma ResumeReplays<H, J, E>(p: Program<H, J, E>, g: Guest<H, J, E>, turns: seq<Turn<E>>, n: nat)
    requires turns != []
    ensures Replay(p, g, Last(turns, n)) == Steps(p, Replay(p, g, turns), n)
  {
    hide Steps;
    var t := turns[|turns| - 1];
    LastTurn(turns, n, |turns| - 1);
    StepsCompose(p, Begin(p, Replay(p, g, turns[..|turns| - 1]), AllKeys(t.masks), t.env), t.steps, n);
  }

  lemma {:induction false} DispatchExtends<H, J, E>(p: Program<H, J, E>, g: Guest<H, J, E>,
                                                    turns: seq<Turn<E>>, t: Turn<E>)
    requires Drained(p, g, turns) && (turns != [] ==> !HasWork(Replay(p, g, turns)))
    ensures Replay(p, g, turns + [t]) == Steps(p, Begin(p, Replay(p, g, turns), AllKeys(t.masks), t.env), t.steps)
    ensures Drained(p, g, turns + [t])
    ensures Flatten(MasksOf(turns + [t])) == Flatten(MasksOf(turns)) + t.masks
  {
    var more := turns + [t];
    assert more[..|more| - 1] == turns;
    forall k | 1 <= k < |more| ensures !HasWork(Replay(p, g, more[..k])) {
      assert k < |turns| ==> more[..k] == turns[..k];
    }
    assert MasksOf(more)[..|turns|] == MasksOf(turns);
  }

  function Keys(accepted: Option<Mask>): seq<Mask> { if accepted.Some? then [accepted.value] else [] }

  function MaskOf(accepted: Option<Mask>): Mask { if accepted.Some? then accepted.value else {} }

  /** All JavaScript can learn of one ordinary host turn: it ran some of the parked work, and either
      entered one frame() with every key held so far, or held this turn's keys too. Only the first
      dispatch of a session may meet a queue that is not empty. */
  ghost predicate HostTurn<H, J, E>(p: Program<H, J, E>, s: Session<H, J, E>, i: Input<E>, t: Ticked<H, J, E>,
                                    begun: bool)
  {
    var g := if t.resumed then Steps(p, s.guest, i.resumeCut) else s.guest;
    var mask := s.deferred + MaskOf(t.accepted);
    && (t.resumed ==> s.pending)
    && (if t.dispatched then
          (begun ==> !HasWork(g)) && g.running.None? && !g.thrown && t.session.deferred == {} &&
            t.session.guest == Steps(p, Begin(p, g, mask, i.env), i.frameCut)
        else
          t.session.deferred == mask && t.session.guest == g)
    && (t.outcome.Ok? ==> Flagged(t.session, begun || t.dispatched))
    && (t.outcome.Ok? && t.session.pending ==> s.pending || t.dispatched)
  }

  lemma FrameTurnIsHostTurn<H, J, E>(p: Program<H, J, E>, s: Session<H, J, E>, i: Input<E>,
                                     buttons: Mask)
    requires s.guest.running.None?
    ensures var t := FrameTurn(p, s, i, buttons);
      && t.dispatched && t.accepted == Some(buttons) && !t.resumed && t.session.deferred == {}
      && t.session.guest == Steps(p, Begin(p, s.guest, s.deferred + buttons, i.env), i.frameCut)
      && (t.outcome.Ok? ==> t.session.pending == HasWork(t.session.guest) && !t.session.guest.thrown)
  {
    assert buttons + s.deferred == s.deferred + buttons;
  }

  /** The end of every run of opcodes: with no work left and nothing thrown, no job is half run. */
  lemma GuestTurnIsHostTurn<H, J, E>(p: Program<H, J, E>, s: Session<H, J, E>, i: Input<E>,
                                     buttons: Mask, begun: bool)
    requires Flagged(s, begun) && !Leaving(buttons)
    ensures HostTurn(p, s, i, GuestTurn(p, s, i, buttons), begun)
    ensures GuestTurn(p, s, i, buttons).accepted in {None, Some(buttons)}
  {
    hide FrameTurn, Begin, Steps;
    if !s.pending {
      FrameTurnIsHostTurn(p, s, i, buttons);
    } else {
      var g := Steps(p, s.guest, i.resumeCut);
      var d := Close(Drawn(p, s.guest, s.display, i.resumeCut), HasWork(g));
      if !g.thrown && !HasWork(g) {
        FrameTurnIsHostTurn(p, s.(guest := g, display := d, pending := false), i, buttons);
      }
    }
  }

  lemma TickIsHostTurn<H, J, E>(p: Program<H, J, E>, s: Session<H, J, E>, i: Input<E>, begun: bool)
    requires Flagged(s, begun) && !Leaving(i.buttons)
    ensures HostTurn(p, s, i, Tick(p, s, i), begun)
  {
    hide GuestTurn, Begin, Steps;
    var gate := Gate(s.(continued := false), i);
    assert s.deferred + {} == s.deferred;
    GuestTurnIsHostTurn(p, gate.session, i, {}, begun);
    GuestTurnIsHostTurn(p, gate.session, i, i.buttons, begun);
  }

  /** What every ordinary host turn keeps between the session and its log. */
  ghost predicate Refines<H, J, E>(p: Program<H, J, E>, g0: Guest<H, J, E>, log: Log<H, J, E>) {
    && log.session.guest == Replay(p, g0, log.turns)
    && Drained(p, g0, log.turns)
    && log.session.deferred == AllKeys(log.waiting)
    && Flatten(MasksOf(log.turns)) + log.waiting == log.accepted
  }

  ghost predicate Ready<H, J, E>(p: Program<H, J, E>, g0: Guest<H, J, E>, log: Log<H, J, E>) {
    Refines(p, g0, log) && Flagged(log.session, log.turns != [])
  }

  lemma TakeKeys(waiting: seq<Mask>, accepted: Option<Mask>)
    ensures AllKeys(waiting + Keys(accepted)) == AllKeys(waiting) + MaskOf(accepted)
    ensures AllKeys([]) == {}
  {
    if accepted.Some? {
      assert (waiting + Keys(accepted))[..|waiting|] == waiting;
    } else {
      assert waiting + [] == waiting;
    }
  }

  lemma HostTurnRefines<H, J, E>(p: Program<H, J, E>, g0: Guest<H, J, E>, log: Log<H, J, E>, i: Input<E>,
                                 t: Ticked<H, J, E>)
    requires Ready(p, g0, log) && HostTurn(p, log.session, i, t, log.turns != [])
    ensures Refines(p, g0, Record(log, i, t)) && (t.outcome.Ok? ==> Ready(p, g0, Record(log, i, t)))
  {
    hide Begin, Steps, Replay, Drained, Flatten, Last, MasksOf, AllKeys, HasWork;
    var keys := Keys(t.accepted);
    TakeKeys(log.waiting, t.accepted);
    assert Flatten(MasksOf(log.turns)) + (log.waiting + keys) == log.accepted + keys;
    var turns := log.turns;
    if t.resumed {
      ResumeExtends(p, g0, turns, i.resumeCut);
      turns := Last(turns, i.resumeCut);
    }
    if t.dispatched {
      DispatchExtends(p, g0, turns, Turn(log.waiting + keys, i.env, i.frameCut));
    }
  }

  lemma {:induction false} RunRefines<H, J, E>(p: Program<H, J, E>, s: Session<H, J, E>, ins: seq<Input<E>>)
    requires Fresh(s) && Ordinary(p, s, ins)
    ensures Refines(p, s.guest, Observe(p, s, ins))
    ensures (ins == [] || TickOf(p, s, ins, |ins| - 1).outcome.Ok?) ==> Ready(p, s.guest, Observe(p, s, ins))
  {
    hide Tick;
    if ins == [] {
    } else {
      var before := ins[..|ins| - 1];
      forall k | 0 <= k < |before|
        ensures TickOf(p, s, before, k) == TickOf(p, s, ins, k) && before[k] == ins[k]
      {
        assert before[..k] == ins[..k];
      }
      RunRefines(p, s, before);
      TickIsHostTurn(p, Observe(p, s, before).session, ins[|before|], Observe(p, s, before).turns != []);
      HostTurnRefines(p, s.guest, Observe(p, s, before), ins[|before|], TickOf(p, s, ins, |before|));
    }
  }

  // ------------------------------------------------------------ main results

  /** For every guest program, every budget cut and every key sequence, the session's guest -- its
      heap, its queue and its whole visible trace -- is that of the simple machine: each turn honours
      exit, runs the pumps, calls frame() once with every key accepted since the frame before, and
      drains the queue before the next turn begins. No key is lost or delivered twice. Jobs that a
      resume hook left queued are met by the first turn alone. */
  lemma Refinement<H, J, E>(p: Program<H, J, E>, s: Session<H, J, E>, ins: seq<Input<E>>)
    requires Fresh(s) && Ordinary(p, s, ins)
    ensures var log := Observe(p, s, ins);
      && log.session.guest == Replay(p, s.guest, log.turns)
      && Drained(p, s.guest, log.turns)
      && Flatten(MasksOf(log.turns)) + log.waiting == log.accepted
      && log.session.deferred == AllKeys(log.waiting)
  {
    RunRefines(p, s, ins);
  }

  /** Two lists of logical turns that differ at most in where they were cut. */
  predicate SameTurns<E(==)>(a: seq<Turn<E>>, b: seq<Turn<E>>) {
    |a| == |b| && forall k :: 0 <= k < |a| ==> AllKeys(a[k].masks) == AllKeys(b[k].masks) && a[k].env == b[k].env
  }

  lemma {:induction false} ReplayIgnoresCuts<H, J, E>(p: Program<H, J, E>, g: Guest<H, J, E>,
                                                      a: seq<Turn<E>>, b: seq<Turn<E>>)
    requires SameTurns(a, b) && Drained(p, g, a) && Drained(p, g, b)
    requires !HasWork(Replay(p, g, a)) && !HasWork(Replay(p, g, b))
    ensures Replay(p, g, a) == Replay(p, g, b)
  {
    if a == [] {
    } else {
      var n := |a| - 1;
      forall k | 0 <= k < n ensures a[..n][..k] == a[..k] && b[..n][..k] == b[..k] {}
      if n > 0 { ReplayIgnoresCuts(p, g, a[..n], b[..n]); }
      var g0 := Begin(p, Replay(p, g, a[..n]), AllKeys(a[n].masks), a[n].env);
      DrainIsUnique(p, g0, a[n].steps, b[n].steps);
    }
  }

  /** A budget boundary never decides what JavaScript sees: two runs of one program that answer the
      same logical turns, cut anywhere and presented anyhow, end in the same guest and trace. */
  lemma BudgetIsInvisible<H, J, E>(p: Program<H, J, E>, s1: Session<H, J, E>, s2: Session<H, J, E>,
                                   ins1: seq<Input<E>>, ins2: seq<Input<E>>)
    requires Fresh(s1) && Fresh(s2) && s1.guest == s2.guest
    requires Ordinary(p, s1, ins1) && Ordinary(p, s2, ins2)
    requires SameTurns(Observe(p, s1, ins1).turns, Observe(p, s2, ins2).turns)
    requires !HasWork(Observe(p, s1, ins1).session.guest) && !HasWork(Observe(p, s2, ins2).session.guest)
    ensures Observe(p, s1, ins1).session.guest == Observe(p, s2, ins2).session.guest
  {
    RunRefines(p, s1, ins1);
    RunRefines(p, s2, ins2);
    ReplayIgnoresCuts(p, s1.guest, Observe(p, s1, ins1).turns, Observe(p, s2, ins2).turns);
  }

  /** The turn shows a picture and nothing else: one stood from an earlier turn, a capture is
      running, or the present did not clear the display. */
  predicate DisplayTurn<H, J, E>(s: Session<H, J, E>, i: Input<E>) {
    var submission := s.display.submission || i.nativeTicket;
    var unpresented := submission || s.display.commit || s.display.damage || i.damaged;
    unpresented && (!i.gateShown.OnPanel? || i.capturing || (s.display.submission && !i.animating && !i.systemPending))
  }

  /** Exactly when a successful host turn drops its keys; every other turn delivers or holds them. */
  lemma KeysDroppedOnlyAtTheGates<H, J, E>(p: Program<H, J, E>, s: Session<H, J, E>, i: Input<E>)
    requires 13 !in i.buttons
    ensures var t := Tick(p, s, i);
      t.outcome.Ok? ==> t.accepted == if i.captureSpent || DisplayTurn(s, i) || i.blocked then None else Some(i.buttons)
  {
    hide Begin, Steps, Drawn, PumpDrawing;
  }

  /** No frame() on an unpresented picture; no procedural frame open past the work it belongs to, unless
      a resume hook opened it and JavaScript has not run since; no frame() in a continuation. */
  ghost predicate CleanTurn<H, J, E>(s: Session<H, J, E>, t: Ticked<H, J, E>) {
    && (t.dispatched ==> !t.stale)
    && (t.session.display.building && !t.session.pending ==> s.display.building && !s.pending && !t.dispatched)
    && (t.dispatched ==> !t.session.continued)
    && (t.session.continued ==> t.resumed && t.session.pending)
  }

  lemma CleanFrameTurn<H, J, E>(p: Program<H, J, E>, s: Session<H, J, E>, i: Input<E>,
                                buttons: Mask)
    requires !Unpresented(s.display) && !s.continued && !s.pending
    ensures var t := FrameTurn(p, s, i, buttons); CleanTurn(s, t) && (t.session.display.building ==> t.session.pending)
  {
    hide Begin, Steps, Drawn, PumpDrawing;
  }

  lemma CleanGuestTurn<H, J, E>(p: Program<H, J, E>, s: Session<H, J, E>, i: Input<E>, buttons: Mask)
    requires !Leaving(buttons) && !Unpresented(s.display) && !s.continued
    ensures CleanTurn(s, GuestTurn(p, s, i, buttons))
  {
    hide FrameTurn, Steps, Drawn;
    if !s.pending {
      CleanFrameTurn(p, s, i, buttons);
    } else {
      var g := Steps(p, s.guest, i.resumeCut);
      var d := Close(Drawn(p, s.guest, s.display, i.resumeCut), HasWork(g));
      if !HasWork(g) && !Unpresented(d) {
        CleanFrameTurn(p, s.(guest := g, display := d, pending := false), i, buttons);
      }
    }
  }

  /** frame() never meets an unpresented picture from an earlier host turn or from the parked frame()
      just finished; only guest work still parked keeps a procedural frame open, but for one opened by
      a resume hook, which goes before the first frame(); and a turn charged as a continuation called
      no frame(). */
  lemma FramesMeetNoPicture<H, J, E>(p: Program<H, J, E>, s: Session<H, J, E>, i: Input<E>)
    requires !Leaving(i.buttons)
    ensures CleanTurn(s, Tick(p, s, i))
  {
    hide GuestTurn;
    var gate := Gate(s.(continued := false), i);
    if gate.open {
      CleanGuestTurn(p, gate.session, i, {});
      CleanGuestTurn(p, gate.session, i, i.buttons);
    }
  }

  lemma {:induction false} EveryFrameMeetsNoPicture<H, J, E>(p: Program<H, J, E>, s: Session<H, J, E>,
                                                             ins: seq<Input<E>>)
    requires Fresh(s) && forall k :: 0 <= k < |ins| ==> !Leaving(ins[k].buttons)
    ensures var log := Observe(p, s, ins);
      (log.turns != [] || !s.display.building) && log.session.display.building ==> log.session.pending
    ensures forall k :: 0 <= k < |ins| ==> TickOf(p, s, ins, k).dispatched ==> !TickOf(p, s, ins, k).stale
  {
    hide Tick;
    if ins == [] {
    } else {
      var n := |ins| - 1;
      EveryFrameMeetsNoPicture(p, s, ins[..n]);
      FramesMeetNoPicture(p, Observe(p, s, ins[..n]).session, ins[n]);
      forall k | 0 <= k < n ensures TickOf(p, s, ins, k) == TickOf(p, s, ins[..n], k) {
        assert ins[..n][..k] == ins[..k];
      }
    }
  }

  /** Everything drawn in `a` still stands in `b`. */
  predicate Keeps(a: Display, b: Display) { (a.submission ==> b.submission) && (a.commit ==> b.commit) }

  lemma {:induction false} DrawingKeeps(d: Display, es: seq<Effect>)
    ensures Keeps(d, DrawAll(d, es))
    decreases es
  {
    if es == [] {
    } else {
      DrawingKeeps(Draw(d, es[0]), es[1..]);
    }
  }

  lemma {:induction false} RunningKeeps<H, J, E>(p: Program<H, J, E>, g: Guest<H, J, E>, d: Display, n: nat)
    ensures Keeps(d, Drawn(p, g, d, n))
    decreases n
  {
    if n > 0 && HasWork(g) { RunningKeeps(p, Advance(p, g), Draw(d, NextOpcode(p, g).effect), n - 1); }
  }

  /** A picture is lost to no retry, error, continuation or frame(): until a present reaches the panel,
      what JavaScript submitted or committed stands. */
  lemma PicturesAreKept<H, J, E>(p: Program<H, J, E>, s: Session<H, J, E>, i: Input<E>)
    requires !i.gateShown.OnPanel? && !i.midShown.OnPanel? && !i.endShown.OnPanel?
    ensures Keeps(s.display, Tick(p, s, i).session.display)
  {
    hide GuestTurn;
    var gate := Gate(s.(continued := false), i);
    if gate.open {
      GuestTurnKeeps(p, gate.session, i, {});
      GuestTurnKeeps(p, gate.session, i, i.buttons);
    }
  }

  lemma GuestTurnKeeps<H, J, E>(p: Program<H, J, E>, s: Session<H, J, E>, i: Input<E>, buttons: Mask)
    requires !i.midShown.OnPanel? && !i.endShown.OnPanel?
    ensures Keeps(s.display, GuestTurn(p, s, i, buttons).session.display)
  {
    hide FrameTurn, Steps, Drawn;
    FrameTurnKeeps(p, s, i, buttons);
    var g := Steps(p, s.guest, i.resumeCut);
    var pending := if g.thrown then i.leftover else HasWork(g);
    var d := Close(Drawn(p, s.guest, s.display, i.resumeCut), pending);
    RunningKeeps(p, s.guest, s.display, i.resumeCut);
    FrameTurnKeeps(p, s.(guest := g, display := d, pending := pending), i, buttons);
    var shown := s.(guest := g, display := Presented(d, i.midShown), pending := pending, lastPresent := i.now);
    FrameTurnKeeps(p, shown, i, buttons);
  }

  lemma FrameTurnKeeps<H, J, E>(p: Program<H, J, E>, s: Session<H, J, E>, i: Input<E>, buttons: Mask)
    requires !i.endShown.OnPanel?
    ensures Keeps(s.display, FrameTurn(p, s, i, buttons).session.display)
  {
    hide Steps, Drawn, DrawAll;
    var mask := buttons + s.deferred;
    DrawingKeeps(s.display, p.deliver(s.guest.heap, mask, i.env, s.guest.stopping || s.guest.exiting).effects);
    var q := PumpTurn(p, s, i, buttons);
    RunningKeeps(p, Call(p, q.guest, mask), q.display, i.frameCut);
  }

  /** Back is the guest's last chance to save: no gate, no blocked scope and no continuation holds it
      up. Its turn either calls frame() with it or fails, and frame() meets an unpresented picture
      only where the panel has just refused one. */
  lemma BackReachesFrame<H, J, E>(p: Program<H, J, E>, s: Session<H, J, E>, i: Input<E>)
    requires 13 in i.buttons
    ensures var t := Tick(p, s, i);
      && (t.outcome.Ok? ==> t.dispatched)
      && (t.dispatched ==> t.accepted == Some(i.buttons) && !t.session.continued && t.session.deferred == {})
      && (t.stale ==> i.gateShown.Retained? || i.midShown.Retained?)
  {
    hide PumpTurn, Steps, Drawn, Call;
    PumpsTakeKeys(p, s, i);
  }

  lemma PumpsTakeKeys<H, J, E>(p: Program<H, J, E>, s: Session<H, J, E>, i: Input<E>)
    ensures forall r: Session<H, J, E> ::
      PumpTurn(p, r, i, i.buttons).deferred == {} && PumpTurn(p, r, i, i.buttons).continued == r.continued
  {
  }

  // ------------------------------------------------------------ the session statics

  class AppSession<!H, !J, !E> {
    var guest: Guest<H, J, E>
    var display: Display
    var pending: bool
    var deferredButtons: Mask
    var continuationTurns: nat
    var turnContinued: bool
    var lastPresentUs: int

    ghost function State(): Session<H, J, E>
      reads this
    {
      Session(guest, display, pending, deferredButtons, continuationTurns, turnContinued, lastPresentUs)
    }

    /** A start, once the source is evaluated and its jobs are drained; the evaluation may have submitted
        or committed a picture. */
    constructor (heap: H, drawn: seq<Effect>)
      ensures Fresh(State()) && !HasWork(guest) && guest.trace == []
      ensures display == Close(DrawAll(Display(false, false, false, false), drawn), false)
    {
      guest := Guest(heap, None, [], false, false, false, []);
      display := Close(DrawAll(Display(false, false, false, false), drawn), false);
      pending, deferredButtons, continuationTurns, turnContinued, lastPresentUs := false, {}, 0, false, 0;
    }

    /** app_resume(): the session's statics start over and the resume hook runs outside any drain. */
    method Resume(hook: Delivery<H, J>, hookFailed: bool)
      requires !pending && guest.running.None? && !guest.thrown
      modifies this
      ensures Fresh(State()) && guest.heap == hook.heap && guest.queue == old(guest).queue + hook.posted
      ensures guest.stopping == hookFailed && guest.trace == old(guest).trace
      ensures guest.exiting == (old(guest).exiting || CallExit in hook.effects)
      ensures display == DrawAll(old(display), hook.effects)
    {
      deferredButtons, continuationTurns, turnContinued, lastPresentUs := {}, 0, false, 0;
      guest := guest.(heap := hook.heap, queue := guest.queue + hook.posted, stopping := hookFailed,
                      exiting := guest.exiting || CallExit in hook.effects);
      display := DrawAll(display, hook.effects);
    }

    method EndGuestTurn()
      modifies `display
      ensures display == Close(old(display), pending)
    {
      if !pending { display := display.(building := false); }
    }

    method PresentFrame(shown: Shown, now: int) returns (outcome: Outcome)
      modifies `display, `lastPresentUs
      ensures display == Presented(old(display), shown) && lastPresentUs == now
      ensures outcome == PresentOutcome(shown)
    {
      lastPresentUs := now;
      if shown.OnPanel? { display := display.(submission := false, commit := false, damage := false); }
      outcome := if shown.Broken? then Failed else Ok;
    }

    method RunPumps(p: Program<H, J, E>, mask: Mask, env: E)
      requires guest.exiting ==> guest.stopping
      modifies `guest, `display
      ensures var v := p.deliver(old(guest).heap, mask, env, old(guest).stopping);
        && guest == old(guest).(heap := v.heap, queue := old(guest).queue + v.posted,
                                exiting := old(guest).exiting || CallExit in v.effects,
                                trace := old(guest).trace + [Pumps(mask, env)])
        && display == DrawAll(old(display), v.effects)
    {
      var v := p.deliver(guest.heap, mask, env, guest.stopping);
      guest := guest.(heap := v.heap, queue := guest.queue + v.posted, trace := guest.trace + [Pumps(mask, env)]);
      var k := 0;
      while k < |v.effects|
        invariant 0 <= k <= |v.effects|
        invariant DrawAll(display, v.effects[k..]) == DrawAll(old(display), v.effects)
        invariant guest == old(guest).(heap := v.heap, queue := old(guest).queue + v.posted,
                                       exiting := old(guest).exiting || CallExit in v.effects[..k],
                                       trace := old(guest).trace + [Pumps(mask, env)])
      {
        display := Draw(display, v.effects[k]);
        if v.effects[k].CallExit? { guest := guest.(exiting := true); }
        k := k + 1;
      }
      assert v.effects[..k] == v.effects;
    }

    /** Runs opcodes until the budget cuts them or the work ends. */
    method RunGuest(p: Program<H, J, E>, cut: nat, leftover: bool)
      modifies `guest, `display, `pending
      ensures guest == Steps(p, old(guest), cut) && display == Drawn(p, old(guest), old(display), cut)
      ensures pending == if guest.thrown then leftover else HasWork(guest)
    {
      var n := 0;
      while n < cut && HasWork(guest)
        invariant n <= cut
        invariant Steps(p, guest, cut - n) == Steps(p, old(guest), cut)
        invariant Drawn(p, guest, display, cut - n) == Drawn(p, old(guest), old(display), cut)
      {
        display := Draw(display, NextOpcode(p, guest).effect);
        guest := Advance(p, guest);
        n := n + 1;
      }
      pending := if guest.thrown then leftover else HasWork(guest);
    }

    /** Honour exit(), run the pumps and close their turn. */
    method PumpTail(p: Program<H, J, E>, i: Input<E>, buttons: Mask) returns (mask: Mask)
      modifies this
      ensures State() == PumpTurn(p, old(State()), i, buttons) && mask == buttons + old(deferredButtons)
    {
      hide DrawAll;
      continuationTurns := 0;
      if guest.exiting { guest := guest.(stopping := true, trace := guest.trace + [StopRequested]); }
      mask := buttons + deferredButtons;
      deferredButtons := {};
      RunPumps(p, mask, i.env);
      EndGuestTurn();
    }

    /** Pumps, frame() and present. */
    method FrameTail(p: Program<H, J, E>, i: Input<E>, buttons: Mask) returns (outcome: Outcome)
      modifies this
      ensures var t := FrameTurn(p, old(State()), i, buttons); State() == t.session && outcome == t.outcome
    {
      hide Steps, Drawn, PumpTurn;
      var mask := PumpTail(p, i, buttons);
      if guest.running.Some? { outcome := Failed; return; }
      guest := Call(p, guest, mask);
      RunGuest(p, i.frameCut, i.leftover);
      EndGuestTurn();
      if guest.thrown { outcome := Failed; return; }
      outcome := PresentFrame(i.endShown, i.now);
    }

    /** app_tick past the display gate. */
    method GuestTail(p: Program<H, J, E>, i: Input<E>, buttons: Mask) returns (outcome: Outcome)
      modifies this
      ensures var t := GuestTurn(p, old(State()), i, buttons); State() == t.session && outcome == t.outcome
    {
      hide FrameTurn, Steps, Drawn;
      var leaving := Leaving(buttons);
      if !pending {
        outcome := FrameTail(p, i, buttons);
        return;
      }
      RunGuest(p, i.resumeCut, i.leftover);
      EndGuestTurn();
      if guest.thrown { outcome := Failed; return; }
      if !leaving && pending {
        deferredButtons := deferredButtons + buttons;
        if i.runaway { outcome := TimedOut; return; }
        continuationTurns := continuationTurns + 1;
        turnContinued := true;
        if i.now - lastPresentUs < DISPLAY_PERIOD_US { outcome := Ok; return; }
        outcome := PresentFrame(i.midShown, i.now);
        return;
      }
      if display.submission || display.commit {
        if !leaving {
          deferredButtons := deferredButtons + buttons;
          outcome := PresentFrame(i.midShown, i.now);
          return;
        }
        outcome := PresentFrame(i.midShown, i.now);
        if !outcome.Ok? { return; }
      }
      outcome := FrameTail(p, i, buttons);
    }

    /** The capture scope, the presenter and the display gate. */
    method PassGate(i: Input<E>) returns (outcome: Outcome, open: bool)
      modifies `display, `lastPresentUs
      ensures Gated(State(), outcome, open) == Gate(old(State()), i)
    {
      var leaving := Leaving(i.buttons);
      if !leaving && i.captureSpent { return Ok, false; }
      var priorSubmission := display.submission && !i.animating && !i.systemPending;
      if i.presenterFails { return Failed, false; }
      if i.nativeTicket { display := display.(submission := true); }
      if i.damaged { display := display.(damage := true); }
      outcome, open := Ok, true;
      if NeedsPresent(display) {
        outcome := PresentFrame(i.gateShown, i.now);
        open := outcome.Ok? && (leaving || !(priorSubmission || i.capturing || NeedsPresent(display)));
      }
    }

    /** One host turn, step by step, is `Tick`. */
    method AppTick(p: Program<H, J, E>, i: Input<E>) returns (outcome: Outcome)
      modifies this
      ensures var t := Tick(p, old(State()), i); State() == t.session && outcome == t.outcome
    {
      hide GuestTurn, Gate;
      turnContinued := false;
      var open;
      outcome, open := PassGate(i);
      if !open { return; }
      if !Leaving(i.buttons) && i.blocked {
        outcome := GuestTail(p, i, {});
      } else {
        outcome := GuestTail(p, i, i.buttons);
      }
    }
  }
}
