/**
 The guest's lifetime: main/app_session.c (start, stop, suspend, resume), main/main.c (foreground
 runs, screens, USB diagnostics, the remote control hooks) and main/ui/overlay.c (the home screen's
 overlay) share one static guest slot. Each operation below is written as the source writes it, on
 the statics, and is proved to be one step of a slot with a single owner.
 */
module Lifecycle {
  import opened Options

  datatype Guest = Guest(generation: nat, dormant: bool)

  /** Who owns the one guest slot. */
  datatype Slot = Empty | Foreground(generation: nat) | Kept(generation: nat, id: string) | Overlay(generation: nat)

  datatype Screen = Home | Practice | Code | Tutorial | Wifi

  datatype OverlayState = Off | Blocked | Refused | Stopped | Starting | Running

  /** Where app_start_test ends: it refuses before a guest exists, fails with or without one, or
      starts. */
  datatype Start = LegacyApi | NoRegion | NoGuest | NoSurface | EvalFailed | Started

  /** Where app_suspend ends; everything but Asleep is a failure. */
  datatype Sleep = WorkPending | HookRefused | CancelTimedOut | ReleaseTimedOut | StillQueued | LowMemory | Asleep

  /** What the overlay's budget answers once a turn is charged to it: over its limit, or run healthily for
      long enough; and whether the crash flag could then be cleared. */
  datatype Charge = Charge(over: bool, healthy: bool, cleared: bool)

  /** One overlay frame: the gate before the start, the crash flag, the start, the room left after it; the
      charge the last frame still owes, if any, and how a turn of a running overlay ends. */
  datatype OverlayFrame = OverlayFrame(plausible: bool, flagWritten: bool, start: Start, room: bool,
                                       owes: bool, owed: Charge, unpresented: bool, faulted: bool, kasane: bool,
                                       charge: Charge, cleared: bool)

  /** One foreground turn, and the start of the work it asked for. */
  datatype Turn = Turn(modal: bool, back: bool, resumeHook: bool, sleep: Sleep, tickFails: bool,
                       runRequested: bool, framelessDone: bool, work: Option<Start>, cleared: bool)

  /** `cleared`: whether the crash flag can be cleared, where an event would. */
  datatype Event =
    | Launch(id: string, start: Start, cleared: bool)
    | OpenScreen(next: Screen, cleared: bool)
    | LeaveScreen
    | DismissError
    | EditorRun(start: Start, cleared: bool)
    | ForegroundTurn(turn: Turn)
    | ForceStop(modal: bool, pending: bool, work: Option<Start>, cleared: bool)
    | OverlayTurn(frame: OverlayFrame)
    | OverlayBack(modal: bool, cleared: bool)
    | Arm(choice: nat, cleared: bool)
    | Diagnostic(start: Start, cleared: bool)
    | RemoteStart(id: string, resume: bool, busy: bool, start: Start, cleared: bool)
    | RemoteSuspend(busy: bool, resumeHook: bool, sleep: Sleep)
    | RemoteStop
    | RemoteTap(blocked: bool, turn: Turn)

  const WORK := "local.work"
  const DEFAULT_APP := "local.hello"
  const LAST_GENERATION: nat := 0xFFFF_FFFF

  /** ++generation of a 32-bit counter that skips zero. */
  function NextGeneration(g: nat): nat { if g == LAST_GENERATION then 1 else g + 1 }

  /** Whether a start comes up. Only a foreground source is searched for the legacy API. */
  predicate ComesUp(how: Start, searched: bool) { how.Started? || (how.LegacyApi? && !searched) }

  /** Whether an overlay's start gets as far as its guest: room before, and the crash flag written unless a
      start was already proven this boot. */
  predicate GatesPass(f: OverlayFrame, choice: nat, proven: bool) {
    choice != 0 && f.plausible && (proven || f.flagWritten)
  }

  /** Whether it leaves the overlay up: then a guest, and room after it. */
  predicate OverlayComesUp(f: OverlayFrame, choice: nat, proven: bool) {
    GatesPass(f, choice, proven) && ComesUp(f.start, false) && f.room
  }

  /** Whether a running overlay stands down in this frame. */
  predicate StandsDown(f: OverlayFrame) {
    (f.owes && f.owed.over) || (!f.unpresented && (f.faulted || (!f.kasane && f.charge.over)))
  }

  function OverlayId(choice: nat): string { if choice == 1 then "local.deskclock" else "local.player" }

  /** The screens that run what was typed, and hear how it ended. */
  predicate IsEditor(screen: Screen) { screen == Code || screen == Tutorial }

  /** The id an editor's run goes by. */
  function EditorId(screen: Screen): string { if screen == Tutorial then "local.tutorial" else "local.playground" }

  class Device {
    // main/app_session.c
    var guest: Option<Guest>
    var generation: nat
    var dormantId: Option<string>
    var overlaySession: bool
    var stopRequested: bool
    var currentId: string
    // main/ui/overlay.c
    var sessionUp: bool
    var overlayState: OverlayState
    var choice: nat
    var flagStored: bool
    var proven: bool
    // main/main.c
    var screen: Screen
    var running: bool
    var owner: Screen
    var runStarted: bool
    var nativeGeneration: nat
    var homeError: bool

    /** What the statics agree on between two operations. An overlay that has not proven itself this boot never
        runs without its crash flag. */
    ghost predicate Valid()
      reads this
    {
      && (guest.Some? ==> (running || sessionUp || dormantId.Some?))
      && (running ==> guest.Some? && !guest.value.dormant && dormantId.None? && !sessionUp && !overlaySession)
      && (dormantId.Some? ==> guest.Some? && guest.value.dormant && !sessionUp && !overlaySession)
      && (sessionUp ==> guest.Some? && !guest.value.dormant && overlaySession && choice != 0)
      && (sessionUp <==> overlayState == Running)
      && (guest.Some? ==> guest.value.generation == generation)
      && (sessionUp ==> currentId == OverlayId(choice))
      && (sessionUp ==> proven || flagStored)
    }

    /** An overlay wears the number the remote side holds. */
    ghost predicate Clash()
      reads this
    {
      sessionUp && nativeGeneration != 0 && generation == nativeGeneration
    }

    ghost function Owner(): Slot
      reads this
    {
      if guest.None? then Empty
      else if sessionUp then Overlay(guest.value.generation)
      else if dormantId.Some? then Kept(guest.value.generation, dormantId.value)
      else Foreground(guest.value.generation)
    }

    /** As long as the guest counter has not wrapped, no overlay wears the number the remote side
        was given. */
    ghost predicate Numbered()
      reads this
    {
      && nativeGeneration <= generation <= LAST_GENERATION
      && (sessionUp && guest.Some? ==> nativeGeneration < guest.value.generation)
    }

    /** Boot: a crash flag that still stands blocks a selected overlay. */
    constructor (selected: nat, flag: bool)
      ensures Valid() && Numbered() && Owner() == Empty && screen == Home
      ensures generation == nativeGeneration == 0 && choice == selected && flagStored == flag && !running && !homeError
      ensures overlayState.Blocked? <==> selected != 0 && flag
      ensures overlayState.Starting? <==> selected != 0 && !flag
    {
      guest, generation, dormantId, overlaySession, stopRequested, currentId := None, 0, None, false, false,
        DEFAULT_APP;
      sessionUp, choice, flagStored, proven := false, selected, flag, false;
      overlayState := if selected == 0 then Off else if flag then Blocked else Starting;
      screen, running, owner, runStarted, nativeGeneration, homeError := Home, false, Home, false, 0, false;
    }

    // ---------------------------------------------------------- app_session.c

    /** pocketjs_guest_create(): it overwrites the slot, so it asks for an empty one. */
    method CreateGuest()
      requires guest.None?
      modifies `guest, `generation
      ensures generation == NextGeneration(old(generation)) && guest == Some(Guest(generation, false))
    {
      generation := if generation == LAST_GENERATION then 1 else generation + 1;
      guest := Some(Guest(generation, false));
    }

    method AppStop()
      modifies `guest, `dormantId
      ensures guest.None? && dormantId.None?
    {
      if guest.Some? && guest.value.dormant { guest := Some(guest.value.(dormant := false)); }
      dormantId := None;
      guest := None;
    }

    method AppStartTest(diagnostic: bool, source: bool, how: Start) returns (ok: bool)
      requires guest.None? && dormantId.None?
      modifies `guest, `generation, `dormantId, `overlaySession, `stopRequested
      ensures ok == ComesUp(how, source && !diagnostic && !old(overlaySession))
      ensures ok ==> !stopRequested
      ensures dormantId.None? && overlaySession == (old(overlaySession) && !diagnostic)
      ensures ok ==> generation == NextGeneration(old(generation)) && guest == Some(Guest(generation, false))
      ensures !ok ==> guest.None? && generation in {old(generation), NextGeneration(old(generation))}
    {
      var borrowed := source && !diagnostic;
      if diagnostic { overlaySession := false; }
      if borrowed && !overlaySession && how.LegacyApi? { return false; }
      stopRequested := false;
      if how.NoRegion? || how.NoGuest? {
        AppStop();
        return false;
      }
      CreateGuest();
      if how.NoSurface? || how.EvalFailed? {
        AppStop();
        return false;
      }
      return true;
    }

    /** app_start() and app_start_source(): a foreground start. */
    method AppStart(source: bool, how: Start) returns (ok: bool)
      requires guest.None? && dormantId.None?
      modifies `guest, `generation, `dormantId, `overlaySession, `stopRequested
      ensures ok == ComesUp(how, source) && dormantId.None? && !overlaySession
      ensures ok ==> !stopRequested
      ensures ok ==> generation == NextGeneration(old(generation)) && guest == Some(Guest(generation, false))
      ensures !ok ==> guest.None? && generation in {old(generation), NextGeneration(old(generation))}
    {
      overlaySession := false;
      ok := AppStartTest(false, source, how);
    }

    method AppStartOverlay(how: Start) returns (ok: bool)
      requires guest.None? && dormantId.None?
      modifies `guest, `generation, `dormantId, `overlaySession, `stopRequested
      ensures ok == ComesUp(how, false) && dormantId.None? && overlaySession
      ensures ok ==> !stopRequested
      ensures ok ==> generation == NextGeneration(old(generation)) && guest == Some(Guest(generation, false))
      ensures !ok ==> guest.None? && generation in {old(generation), NextGeneration(old(generation))}
    {
      overlaySession := true;
      ok := AppStartTest(false, true, how);
    }

    predicate CanSuspend(resumeHook: bool)
      reads this
    {
      guest.Some? && !overlaySession && !stopRequested && resumeHook
    }

    /** app_suspend(): on every failure the guest is left awake and no id is kept. */
    method AppSuspend(resumeHook: bool, how: Sleep) returns (ok: bool)
      requires guest.Some? ==> !guest.value.dormant
      requires dormantId.None?
      modifies `guest, `dormantId
      ensures ok == (old(CanSuspend(resumeHook)) && how.Asleep?)
      ensures ok ==> guest == Some(old(guest).value.(dormant := true)) && dormantId == Some(currentId)
      ensures !ok ==> guest == old(guest) && dormantId.None?
    {
      if !CanSuspend(resumeHook) { return false; }
      if how.WorkPending? || how.HookRefused? || how.CancelTimedOut? || how.ReleaseTimedOut? { return false; }
      if how.StillQueued? { return false; }
      guest := Some(guest.value.(dormant := true));
      if how.LowMemory? {
        guest := Some(guest.value.(dormant := false));
        return false;
      }
      dormantId := Some(currentId);
      return true;
    }

    method AppResume() returns (ok: bool)
      modifies `guest, `dormantId, `currentId, `stopRequested
      ensures ok == (old(guest).Some? && old(dormantId).Some? && old(guest).value.dormant)
      ensures ok ==> guest == Some(old(guest).value.(dormant := false)) && dormantId.None?
      ensures ok ==> currentId == old(dormantId).value && !stopRequested
      ensures !ok ==> guest == old(guest) && dormantId == old(dormantId) && currentId == old(currentId)
    {
      if guest.None? || dormantId.None? || !guest.value.dormant { return false; }
      currentId := dormantId.value;
      guest := Some(guest.value.(dormant := false));
      stopRequested := false;
      dormantId := None;
      return true;
    }

    // ---------------------------------------------------------- overlay.c

    method StopWith(next: OverlayState, cleared: bool)
      requires Valid() && next != Running
      modifies `guest, `dormantId, `sessionUp, `flagStored, `overlayState
      ensures Valid() && !sessionUp && overlayState == next && flagStored == (old(flagStored) && !cleared)
      ensures Owner() == if old(sessionUp) then Empty else old(Owner())
    {
      if sessionUp {
        AppStop();
        sessionUp := false;
      }
      if flagStored && cleared { flagStored := false; }
      overlayState := next;
    }

    /** overlay_release(): whatever else takes the guest ends the overlay first. While the choice is
        being turned off the state is left for overlay_armed_set() to change. */
    method OverlayRelease(cleared: bool)
      requires sessionUp ==> guest.Some? && dormantId.None?
      modifies `guest, `dormantId, `sessionUp, `flagStored, `overlayState
      ensures !sessionUp && flagStored == (old(flagStored) && !cleared)
      ensures old(sessionUp) ==> guest.None? && dormantId.None?
      ensures !old(sessionUp) ==> guest == old(guest) && dormantId == old(dormantId)
      ensures overlayState == if old(sessionUp) && choice != 0 && old(overlayState) == Running then Starting
        else old(overlayState)
    {
      if sessionUp {
        AppStop();
        sessionUp := false;
        if choice != 0 && overlayState == Running { overlayState := Starting; }
      }
      if flagStored && cleared { flagStored := false; }
    }

    method OverlayYield(cleared: bool)
      requires Valid()
      modifies `guest, `dormantId, `sessionUp, `flagStored, `overlayState
      ensures Valid() && !sessionUp
      ensures Owner() == if old(sessionUp) then Empty else old(Owner())
      ensures overlayState == if old(sessionUp) then Stopped else old(overlayState)
      ensures flagStored == (old(flagStored) && !(old(sessionUp) && cleared))
    {
      if overlayState != Running && !sessionUp { return; }
      StopWith(Stopped, cleared);
    }

    method OverlayStart(f: OverlayFrame)
      requires Valid() && Owner() == Empty && overlayState == Starting
      modifies this
      ensures Valid() && running == old(running) && screen == old(screen) && nativeGeneration == old(nativeGeneration)
      ensures Owner() == if OverlayComesUp(f, old(choice), old(proven)) then Overlay(NextGeneration(old(generation)))
        else Empty
      ensures generation in {old(generation), NextGeneration(old(generation))}
      ensures currentId == if GatesPass(f, old(choice), old(proven)) then OverlayId(choice) else old(currentId)
      ensures choice == old(choice) && proven == old(proven) && homeError == old(homeError)
      ensures overlayState == if choice == 0 then Starting else if sessionUp then Running else Refused
      ensures flagStored == if GatesPass(f, old(choice), old(proven)) then
          (old(flagStored) || !proven) && (sessionUp || !f.cleared)
        else old(flagStored)
    {
      if choice == 0 { return; }
      if !f.plausible { overlayState := Refused; return; }
      if !proven {
        if !f.flagWritten { overlayState := Refused; return; }
        flagStored := true;
      }
      currentId := if choice == 1 then "local.deskclock" else "local.player";
      var ok := AppStartOverlay(f.start);
      if !ok {
        if f.cleared { flagStored := false; }
        overlayState := Refused;
        return;
      }
      sessionUp := true;
      if !f.room {
        AppStop();
        sessionUp := false;
        if flagStored && f.cleared { flagStored := false; }
        overlayState := Refused;
        return;
      }
      overlayState := Running;
    }

    /** overlay_tick(): only ever called with no foreground guest and no kept one. A turn is charged at once, or
        with the frame composited from it; the budget decides before the next turn, and a healthy overlay is
        proven for this boot even where its flag cannot be cleared. */
    method OverlayTick(f: OverlayFrame)
      requires Valid() && !running && dormantId.None?
      modifies this
      ensures Valid() && !running && screen == old(screen) && nativeGeneration == old(nativeGeneration)
      ensures Owner() ==
        if old(overlayState) == Starting && OverlayComesUp(f, old(choice), old(proven)) then
          Overlay(NextGeneration(old(generation)))
        else if old(overlayState) == Running && !StandsDown(f) then old(Owner())
        else Empty
      ensures generation in {old(generation), NextGeneration(old(generation))}
      ensures choice == old(choice) && homeError == old(homeError)
      ensures currentId == if old(overlayState) == Starting && GatesPass(f, old(choice), old(proven))
        then OverlayId(choice) else old(currentId)
      ensures overlayState == if old(overlayState) == Starting && choice != 0 then
        (if sessionUp then Running else Refused)
        else if old(overlayState) == Running && StandsDown(f) then Stopped else old(overlayState)
      ensures proven == (old(proven) || (old(overlayState) == Running && old(flagStored) && !(f.owes && f.owed.over) &&
        ((f.owes && f.owed.healthy) ||
          (!(f.unpresented || f.faulted || f.kasane || f.charge.over) && f.charge.healthy))))
      ensures flagStored == (
        match old(overlayState)
        case Starting =>
          if GatesPass(f, choice, old(proven)) then (old(flagStored) || !old(proven)) && (sessionUp || !f.cleared)
          else old(flagStored)
        case Running =>
          && old(flagStored)
          && !(f.owes && (f.owed.over || f.owed.healthy) && f.owed.cleared)
          && ((f.owes && f.owed.over) || f.unpresented ||
              (if f.faulted then !f.cleared
               else f.kasane || !((f.charge.over || f.charge.healthy) && f.charge.cleared)))
        case _ => old(flagStored))
    {
      if overlayState == Starting { OverlayStart(f); return; }
      if overlayState != Running { return; }
      if f.owes {
        if f.owed.over { StopWith(Stopped, f.owed.cleared); return; }
        if flagStored && f.owed.healthy {
          proven := true;
          if f.owed.cleared { flagStored := false; }
        }
      }
      if f.unpresented { return; }
      if f.faulted { StopWith(Stopped, f.cleared); return; }
      if f.kasane { return; }
      if f.charge.over { StopWith(Stopped, f.charge.cleared); return; }
      if flagStored && f.charge.healthy {
        proven := true;
        if f.charge.cleared { flagStored := false; }
      }
    }

    /** overlay_armed_set() from the Settings row of the home screen. */
    method OverlayArmedSet(value: nat, cleared: bool)
      requires Valid()
      modifies this
      ensures Valid() && running == old(running) && screen == old(screen)
      ensures generation == old(generation) && nativeGeneration == old(nativeGeneration)
      ensures var same := value != 0 && value == old(choice) && old(overlayState) in {Running, Starting};
        && Owner() == (if old(sessionUp) && value <= 2 && value != old(choice) then Empty else old(Owner()))
        && choice == (if value <= 2 then value else old(choice))
        && overlayState == (
            if value > 2 || same then old(overlayState)
            else if value == 0 then Off
            else if flagStored then Blocked
            else Starting)
        && flagStored == (old(flagStored) &&
            !(cleared && value <= 2 && (value == 0 || (old(choice) != 0 && value != old(choice)))))
        && proven == (old(proven) && value != 0)
        && currentId == old(currentId) && homeError == old(homeError)
    {
      if value > 2 { return; }
      if value != 0 && value == choice && (overlayState == Running || overlayState == Starting) { return; }
      var was := choice;
      choice := value;
      if was != 0 && was != value { OverlayRelease(cleared); }
      if choice == 0 {
        OverlayRelease(cleared);
        overlayState := Off;
        if cleared { flagStored := false; }
        proven := false;
        return;
      }
      overlayState := if flagStored then Blocked else Starting;
    }

    // ---------------------------------------------------------- main.c

    method Enter(next: Screen, cleared: bool)
      requires Valid()
      modifies `guest, `dormantId, `sessionUp, `flagStored, `overlayState, `screen
      ensures Valid() && screen == next
      ensures Owner() == if old(sessionUp) && next != Home then Empty else old(Owner())
      ensures overlayState == if old(sessionUp) && next != Home then Starting else old(overlayState)
      ensures flagStored == (old(flagStored) && !(next != Home && cleared))
    {
      if next != Home { OverlayRelease(cleared); }
      screen := next;
    }

    /** begin_run() from overlay_release() on: the overlay ends, and a new guest takes the slot or none does. */
    method TakeSlot(id: string, source: bool, how: Start, cleared: bool)
      requires Valid() && !running && dormantId.None? && owner == screen
      modifies `guest, `generation, `dormantId, `overlaySession, `stopRequested, `currentId
      modifies `sessionUp, `flagStored, `overlayState, `running, `runStarted, `homeError
      ensures Valid()
      ensures Owner() == if ComesUp(how, source) then Foreground(NextGeneration(old(generation))) else Empty
      ensures generation in {old(generation), NextGeneration(old(generation))}
      ensures currentId == id && flagStored == (old(flagStored) && !cleared)
      ensures running ==> runStarted && !stopRequested
      ensures homeError == (old(homeError) || (!running && !IsEditor(screen)))
      ensures overlayState == if old(sessionUp) then Starting else old(overlayState)
    {
      hide ComesUp, OverlayId, NextGeneration;
      OverlayRelease(cleared);
      currentId := id;
      runStarted := AppStart(source, how);
      running := runStarted;
      if !runStarted {
        AppStop();
        if !IsEditor(owner) { homeError := true; }
      }
    }

    /** begin_run(): a kept app is resumed by opening it again; any other start ends it, and the
        overlay, before the slot is taken. Either way the guest goes by the id that was opened. */
    method BeginRun(id: string, source: bool, how: Start, cleared: bool)
      requires Valid() && !running
      modifies `guest, `generation, `dormantId, `overlaySession, `stopRequested, `currentId
      modifies `sessionUp, `flagStored, `overlayState, `running, `owner, `runStarted, `homeError
      ensures Valid()
      ensures Owner() ==
        if old(dormantId) == Some(id) then Foreground(old(generation))
        else if ComesUp(how, source) then Foreground(NextGeneration(old(generation)))
        else Empty
      ensures generation in {old(generation), NextGeneration(old(generation))}
      ensures currentId == id && owner == old(screen)
      ensures flagStored == (old(flagStored) && (old(dormantId) == Some(id) || !cleared))
      ensures running ==> runStarted && !stopRequested
      ensures homeError == (old(homeError) || (!running && !IsEditor(screen)))
      ensures overlayState == if old(sessionUp) then Starting else old(overlayState)
    {
      hide ComesUp, OverlayId, NextGeneration;
      owner := screen;
      if dormantId.Some? {
        if dormantId == Some(id) {
          var resumed := AppResume();
          if resumed {
            runStarted, running := true, true;
            return;
          }
        }
        AppStop();
      }
      TakeSlot(id, source, how, cleared);
    }

    /** end_run(): the session ends, its screen hears of a failed turn, and the work it asked for, if any, takes
        the screen over. */
    method EndRun(failed: bool, work: Option<Start>, cleared: bool)
      requires Valid() && running
      modifies `guest, `generation, `dormantId, `overlaySession, `stopRequested, `currentId
      modifies `sessionUp, `flagStored, `overlayState, `running, `owner, `runStarted, `homeError
      ensures Valid()
      ensures Owner() == if work.Some? && ComesUp(work.value, true) then Foreground(NextGeneration(old(generation)))
        else Empty
      ensures generation in {old(generation), NextGeneration(old(generation))} &&
        (work.None? ==> generation == old(generation))
      ensures currentId == if work.Some? then WORK else old(currentId)
      ensures homeError == (old(homeError) || (failed && !IsEditor(old(owner))) ||
        (work.Some? && !running && !IsEditor(screen)))
      ensures flagStored == (old(flagStored) && !(work.Some? && cleared))
      ensures overlayState == old(overlayState)
    {
      AppStop();
      running := false;
      if failed && !IsEditor(owner) { homeError := true; }
      if work.Some? { BeginRun(WORK, true, work.value, cleared); }
    }

    /** Whether Back in this turn puts the app to sleep. */
    ghost predicate Sleeps(t: Turn)
      reads this
    {
      t.back && !t.modal && owner == Home && CanSuspend(t.resumeHook) && currentId != WORK && t.sleep.Asleep?
    }

    /** Whether this turn ends the session. */
    ghost predicate Ends(t: Turn)
      reads this
    {
      !t.modal && !Sleeps(t) && (t.back || t.tickFails || t.runRequested || t.framelessDone)
    }

    /** tick_run(): Back puts an app that can be kept to sleep, and ends any other. */
    method TickRun(t: Turn)
      requires Valid() && running
      modifies `guest, `generation, `dormantId, `overlaySession, `stopRequested, `currentId
      modifies `sessionUp, `flagStored, `overlayState, `running, `owner, `runStarted, `homeError
      ensures Valid()
      ensures Owner() ==
          if old(Sleeps(t)) then Kept(old(generation), old(currentId))
          else if !old(Ends(t)) then old(Owner())
          else if t.work.Some? && ComesUp(t.work.value, true) then Foreground(NextGeneration(old(generation)))
          else Empty
      ensures generation in {old(generation), NextGeneration(old(generation))}
      ensures currentId == if old(Ends(t)) && t.work.Some? then WORK else old(currentId)
      ensures !old(Ends(t)) ==> owner == old(owner) && stopRequested == old(stopRequested)
      ensures !old(Ends(t)) ==> homeError == old(homeError)
      ensures flagStored == (old(flagStored) && !(old(Ends(t)) && t.work.Some? && t.cleared))
      ensures overlayState == old(overlayState)
    {
      if t.modal { return; }
      if t.back && owner == Home && CanSuspend(t.resumeHook) && currentId != WORK {
        var asleep := AppSuspend(t.resumeHook, t.sleep);
        if asleep { running := false; return; }
      }
      if t.back { stopRequested := true; }
      if t.back || t.tickFails || t.runRequested || t.framelessDone { EndRun(t.tickFails, t.work, t.cleared); }
    }

    /** Whether a remote start is refused: busy, away from home, or resuming what is not kept. */
    ghost predicate Refuses(id: string, resume: bool, busy: bool)
      reads this
    {
      running || screen != Home || busy || (resume && dormantId != Some(id))
    }

    /** native_start(): a request refused changes nothing; one that is not fails only where the start itself
        fails, and then leaves the slot empty. */
    method NativeStart(id: string, resume: bool, busy: bool, how: Start, cleared: bool) returns (ok: bool)
      requires Valid()
      modifies this
      ensures Valid() && screen == old(screen)
      ensures var refused := old(Refuses(id, resume, busy));
        && ok == (!refused && (resume || ComesUp(how, id != DEFAULT_APP)))
        && (!ok ==> Owner() == (if refused then old(Owner()) else Empty) && nativeGeneration == old(nativeGeneration))
        && currentId == (if refused then old(currentId) else id)
        && homeError == (if refused then old(homeError) else !ok)
        && flagStored == (old(flagStored) && (refused || resume || !cleared))
        && overlayState == (if !refused && old(sessionUp) then Starting else old(overlayState))
      ensures ok ==> nativeGeneration == generation && owner == Home && !stopRequested
      ensures ok && resume ==> old(Owner()) == Kept(generation, id) && Owner() == Foreground(generation)
      ensures ok && !resume ==> Owner() == Foreground(NextGeneration(old(generation)))
      ensures generation in {old(generation), NextGeneration(old(generation))}
      ensures choice == old(choice) && proven == old(proven)
    {
      if running || screen != Home || busy { return false; }
      if resume {
        if dormantId != Some(id) { return false; }
      } else if dormantId.Some? {
        AppStop();
      }
      homeError := false;
      BeginRun(id, id != DEFAULT_APP, how, cleared);
      if running && runStarted { nativeGeneration := guest.value.generation; }
      ok := running && runStarted;
    }

    /** native_stop(): refuses a guest the remote side did not start, unless an overlay wears its
        number again -- then, and only then, the overlay is left believing in a guest that is gone. */
    method NativeStop() returns (ok: bool)
      requires Valid()
      modifies this
      ensures Valid() <==> !old(Clash())
      ensures sessionUp == old(sessionUp) && overlayState == old(overlayState) && choice == old(choice)
      ensures flagStored == old(flagStored) && proven == old(proven) && currentId == old(currentId)
      ensures ok == (old(guest).None? || (nativeGeneration != 0 && old(generation) == nativeGeneration))
      ensures ok ==> guest.None? && !running && screen == Home && dormantId.None?
      ensures !ok ==> Owner() == old(Owner()) && running == old(running) && screen == old(screen)
      ensures generation == old(generation) && nativeGeneration == old(nativeGeneration)
    {
      if guest.Some? && (nativeGeneration == 0 || guest.value.generation != nativeGeneration) { return false; }
      AppStop();
      running := false;
      screen := Home;
      return guest.None?;
    }

    /** native_suspend(): a guest that could not be put to sleep follows native_stop(). */
    method NativeSuspend(busy: bool, resumeHook: bool, how: Sleep) returns (ok: bool)
      requires Valid()
      modifies this
      ensures Valid() && generation == old(generation) && nativeGeneration == old(nativeGeneration)
      ensures var asked := old(running && CanSuspend(resumeHook)) && !busy;
        && ok == (asked && how.Asleep?)
        && Owner() == (
            if ok then Kept(generation, currentId)
            else if asked && nativeGeneration != 0 && generation == nativeGeneration then Empty
            else old(Owner()))
      ensures screen == if old(Owner()) != Owner() && !ok then Home else old(screen)
      ensures currentId == old(currentId) && flagStored == old(flagStored)
      ensures overlayState == old(overlayState) && choice == old(choice) && proven == old(proven)
    {
      if !running || busy { return false; }
      if !CanSuspend(resumeHook) { return false; }
      ok := AppSuspend(resumeHook, how);
      if !ok {
        var _ := NativeStop();
        return false;
      }
      running := false;
    }

    /** A USB diagnostic: it starts a guest of its own, so a kept one and the overlay end first. */
    method StartDiagnostic(how: Start, cleared: bool)
      requires Valid()
      modifies `guest, `generation, `dormantId, `overlaySession, `stopRequested, `currentId
      modifies `sessionUp, `flagStored, `overlayState, `running, `owner, `runStarted, `homeError
      ensures Valid()
      ensures var taken := !old(running) && screen == Home;
        && Owner() == (
            if !taken then old(Owner())
            else if ComesUp(how, false) then Foreground(NextGeneration(old(generation)))
            else Empty)
        && currentId == (if taken then DEFAULT_APP else old(currentId))
        && homeError == (old(homeError) || (taken && !running))
        && flagStored == (old(flagStored) && !(taken && cleared))
        && overlayState == (if taken && old(sessionUp) then Starting else old(overlayState))
      ensures generation in {old(generation), NextGeneration(old(generation))}
    {
      hide ComesUp, OverlayId, NextGeneration;
      if running || screen != Home { return; }
      if dormantId.Some? { AppStop(); }
      OverlayRelease(cleared);
      owner := Home;
      currentId := DEFAULT_APP;
      runStarted := AppStartTest(true, false, how);
      running := runStarted;
      if !running {
        AppStop();
        homeError := true;
      }
    }

    // ---------------------------------------------------------- ui_task()

    /** The menu hears keys: home, with nothing over it. */
    ghost predicate AtMenu()
      reads this
    {
      !running && screen == Home && !homeError && overlayState != Running
    }

    /** The app an event opens, whether or not it then comes up. */
    ghost function Opens(e: Event): Option<string>
      reads this
    {
      match e
      case Launch(id, _, _) => if AtMenu() then Some(id) else None
      case EditorRun(_, _) => if !running && IsEditor(screen) then Some(EditorId(screen)) else None
      case ForegroundTurn(t) => if running && Ends(t) && t.work.Some? then Some(WORK) else None
      case ForceStop(_, _, work, _) => if running && work.Some? then Some(WORK) else None
      case OverlayTurn(f) =>
        if !running && screen == Home && dormantId.None? && overlayState == Starting && GatesPass(f, choice, proven)
        then Some(OverlayId(choice)) else None
      case Diagnostic(_, _) => if !running && screen == Home then Some(DEFAULT_APP) else None
      case RemoteStart(id, resume, busy, _, _) => if !Refuses(id, resume, busy) then Some(id) else None
      case RemoteTap(blocked, t) =>
        if running && generation == nativeGeneration && !blocked && Ends(t) && t.work.Some? then Some(WORK) else None
      case _ => None
    }

    /** Who owns the slot after a foreground turn. */
    ghost function AfterTurn(t: Turn): Slot
      reads this
    {
      if Sleeps(t) then Kept(generation, currentId)
      else if !Ends(t) then Owner()
      else if t.work.Some? && ComesUp(t.work.value, true) then Foreground(NextGeneration(generation))
      else Empty
    }

    /** Who owns the slot after each event. */
    ghost function NextOwner(e: Event): Slot
      reads this
    {
      var made := Foreground(NextGeneration(generation));
      match e
      case Launch(id, how, _) =>
        if Opens(e).None? then Owner()
        else if dormantId == Some(id) then Foreground(generation)
        else if ComesUp(how, id != DEFAULT_APP) then made else Empty
      case EditorRun(how, _) =>
        if Opens(e).None? then Owner()
        else if dormantId == Some(EditorId(screen)) then Foreground(generation)
        else if ComesUp(how, true) then made else Empty
      case ForegroundTurn(t) => if running then AfterTurn(t) else Owner()
      case ForceStop(modal, pending, work, _) =>
        if running then (if work.Some? && ComesUp(work.value, true) then made else Empty)
        else if sessionUp && screen == Home && !homeError && (!modal || pending) then Empty else Owner()
      case OverlayTurn(f) =>
        if running || screen != Home || dormantId.Some? then Owner()
        else if overlayState == Starting && OverlayComesUp(f, choice, proven) then Overlay(NextGeneration(generation))
        else if overlayState == Running && !StandsDown(f) then Owner() else Empty
      case OverlayBack(modal, _) => if !running && screen == Home && sessionUp && !modal then Empty else Owner()
      case Diagnostic(how, _) =>
        if running || screen != Home then Owner() else if ComesUp(how, false) then made else Empty
      case RemoteStart(id, resume, busy, how, _) =>
        if Refuses(id, resume, busy) then Owner()
        else if resume then Foreground(generation)
        else if ComesUp(how, id != DEFAULT_APP) then made else Empty
      case RemoteSuspend(busy, resumeHook, how) =>
        if !running || busy || !CanSuspend(resumeHook) then Owner()
        else if how.Asleep? then Kept(generation, currentId)
        else if nativeGeneration != 0 && generation == nativeGeneration then Empty else Owner()
      case RemoteStop => if nativeGeneration != 0 && generation == nativeGeneration then Empty else Owner()
      case RemoteTap(blocked, t) =>
        if running && generation == nativeGeneration && !blocked then AfterTurn(t) else Owner()
      case _ => Owner()
    }

    /** The screen after each event: only the menu opens one, and only the editor, a stop or the remote side
        returns from one. */
    ghost function NextScreen(e: Event): Screen
      reads this
    {
      match e
      case OpenScreen(next, _) => if AtMenu() then next else screen
      case LeaveScreen => if running then screen else Home
      case ForceStop(modal, pending, _, _) =>
        if running then screen
        else if screen == Home && !homeError && pending && !(sessionUp && !modal) then Wifi else Home
      case RemoteSuspend(_, _, _) => if NextOwner(e) != Owner() && NextOwner(e).Empty? then Home else screen
      case RemoteStop =>
        if guest.None? || (nativeGeneration != 0 && generation == nativeGeneration) then Home else screen
      case _ => screen
    }

    /** The events that clear the crash flag of a blocked overlay: turning it off, and also choosing the other
        one, opening another screen and starting anything but the kept app. */
    ghost predicate Forgets(e: Event)
      reads this
    {
      match e
      case Arm(value, cleared) => cleared && AtMenu() && value <= 2 && value != choice
      case OpenScreen(next, cleared) => cleared && AtMenu() && next != Home
      case ForceStop(_, pending, _, cleared) =>
        cleared && (Opens(e).Some? || (!running && screen == Home && !homeError && pending))
      case Launch(id, _, cleared) => cleared && Opens(e).Some? && dormantId != Some(id)
      case EditorRun(_, cleared) => cleared && Opens(e).Some? && dormantId != Some(EditorId(screen))
      case RemoteStart(_, resume, _, _, cleared) => cleared && Opens(e).Some? && !resume
      case Diagnostic(_, cleared) => cleared && Opens(e).Some?
      case ForegroundTurn(t) => t.cleared && Opens(e).Some?
      case RemoteTap(_, t) => t.cleared && Opens(e).Some?
      case _ => false
    }

    /** What one event does to the slot: the next owner, the id it goes by and the screen, the invariant kept
        unless a remote
        stop meets a clashing overlay, a blocked overlay's flag kept unless the event forgets it, and guests
        numbered honestly until the counter wraps. */
    twostate predicate Stepped(e: Event)
      reads this
    {
      && (Valid() <==> !(e.RemoteStop? && old(Clash())))
      && Owner() == old(NextOwner(e)) && screen == old(NextScreen(e))
      && currentId == (if old(Opens(e)).Some? then old(Opens(e)).value else old(currentId))
      && (e.DismissError? && old(!running && screen == Home && overlayState != Running) ==> !homeError)
      && (old(overlayState == Blocked && choice != 0) ==>
          && (overlayState == Blocked || (e.Arm? && old(AtMenu())))
          && flagStored == (old(flagStored) && !old(Forgets(e))))
      && (old(Numbered() && generation < LAST_GENERATION) ==> Numbered() && generation <= old(generation) + 1)
    }

    /** A key, under the conditions ui_task() puts on it. */
    method HandleKey(e: Event)
      requires Valid() && (e.Launch? || e.OpenScreen? || e.LeaveScreen? || e.DismissError? || e.EditorRun? || e.Arm? ||
        e.OverlayBack?)
      modifies this
      ensures Stepped(e)
    {
      hide ComesUp, OverlayId, OverlayComesUp, GatesPass, StandsDown, CanSuspend;
      match e
      case Launch(id, how, cleared) =>
        if !running && screen == Home && !homeError && overlayState != Running {
          BeginRun(id, id != DEFAULT_APP, how, cleared);
        }
      case OpenScreen(next, cleared) =>
        if !running && screen == Home && !homeError && overlayState != Running { Enter(next, cleared); }
      case LeaveScreen =>
        if !running { Enter(Home, true); }
      case DismissError =>
        if !running && screen == Home && overlayState != Running { homeError := false; }
      case EditorRun(how, cleared) =>
        if !running && IsEditor(screen) {
          BeginRun(if screen == Tutorial then "local.tutorial" else "local.playground", true, how, cleared);
        }
      case OverlayBack(modal, cleared) =>
        if !running && screen == Home && overlayState == Running && !modal { OverlayYield(cleared); }
      case Arm(value, cleared) =>
        if !running && screen == Home && !homeError && overlayState != Running { OverlayArmedSet(value, cleared); }
    }

    /** A pass of ui_task() and what a host may ask of it over USB. */
    method HandlePass(e: Event)
      requires Valid() && (e.ForegroundTurn? || e.ForceStop? || e.OverlayTurn? || e.Diagnostic?)
      modifies this
      ensures Stepped(e)
    {
      hide ComesUp, OverlayId, OverlayComesUp, GatesPass, StandsDown, CanSuspend;
      match e
      case ForegroundTurn(t) =>
        if running { TickRun(t); }
      case ForceStop(modal, pending, work, cleared) =>
        if running {
          EndRun(false, work, cleared);
        } else if screen != Home {
          Enter(Home, cleared);
        } else if homeError {
          homeError := false;
        } else if overlayState == Running && !modal {
          OverlayYield(cleared);
        } else if pending {
          Enter(Wifi, cleared);
        }
      case OverlayTurn(f) =>
        if !running && screen == Home && dormantId.None? { OverlayTick(f); }
      case Diagnostic(how, cleared) => StartDiagnostic(how, cleared);
    }

    /** A request of the remote side, in app_control_pump(). */
    method HandleRemote(e: Event)
      requires Valid() && (e.RemoteStart? || e.RemoteSuspend? || e.RemoteStop? || e.RemoteTap?)
      modifies this
      ensures Stepped(e)
    {
      hide ComesUp, OverlayId, OverlayComesUp, GatesPass, StandsDown, CanSuspend;
      match e
      case RemoteStart(id, resume, busy, how, cleared) =>
        var _ := NativeStart(id, resume, busy, how, cleared);
      case RemoteSuspend(busy, resumeHook, how) =>
        var _ := NativeSuspend(busy, resumeHook, how);
      case RemoteStop =>
        var _ := NativeStop();
      case RemoteTap(blocked, t) =>
        if running && generation == nativeGeneration && !blocked { TickRun(t); }
    }

    /** One event of the ui task. */
    method Handle(e: Event)
      requires Valid()
      modifies this
      ensures Stepped(e)
    {
      hide Stepped;
      match e
      case RemoteStart(_, _, _, _, _) => HandleRemote(e);
      case RemoteSuspend(_, _, _) => HandleRemote(e);
      case RemoteStop => HandleRemote(e);
      case RemoteTap(_, _) => HandleRemote(e);
      case ForegroundTurn(_) => HandlePass(e);
      case ForceStop(_, _, _, _) => HandlePass(e);
      case OverlayTurn(_) => HandlePass(e);
      case Diagnostic(_, _) => HandlePass(e);
      case _ => HandleKey(e);
    }

    /** Over any sequence of events the slot has at most one guest and exactly one owner of it, unless and
        until a remote stop meets an overlay that wears the remote side's number; from a state that numbers
        guests honestly that takes more starts than the 32-bit counter has numbers left. */
    method Run(events: seq<Event>) returns (handled: nat, clash: bool)
      requires Valid()
      modifies this
      ensures Valid() <==> !clash
      ensures if clash then 0 < handled <= |events| && events[handled - 1].RemoteStop? else handled == |events|
      ensures !clash ==> (guest.Some? <==> running || dormantId.Some? || sessionUp)
      ensures !clash ==> !(running && dormantId.Some?) && !(running && sessionUp) && !(sessionUp && dormantId.Some?)
      ensures !clash ==> (sessionUp ==> proven || flagStored)
      ensures old(Numbered()) && old(generation) + |events| <= LAST_GENERATION ==> !clash && Numbered()
    {
      handled, clash := 0, false;
      while handled < |events|
        invariant 0 <= handled <= |events| && Valid() && !clash
        invariant old(Numbered()) && old(generation) + |events| <= LAST_GENERATION ==>
          Numbered() && generation + (|events| - handled) <= LAST_GENERATION
      {
        clash := events[handled].RemoteStop? && sessionUp && nativeGeneration != 0 && generation == nativeGeneration;
        Handle(events[handled]);
        handled := handled + 1;
        if clash { return; }
      }
    }
  }

  /** The counter does come to its last number, from boot on, while the remote side still holds the number of
      the guest it started first: one app after the other is opened and ended at home. */
  method AllNumbersGivenOut() returns (d: Device)
    ensures fresh(d) && d.Valid() && d.Numbered() && d.Owner() == Empty && d.screen == Home && !d.running &&
      d.dormantId.None?
    ensures d.generation == LAST_GENERATION && d.nativeGeneration == 1
    ensures d.overlayState == Starting && d.choice == 1
  {
    d := new Device(1, false);
    var ok := d.NativeStart(DEFAULT_APP, false, false, Started, true);
    ok := d.NativeStop();
    while d.generation < LAST_GENERATION
      invariant fresh(d) && d.Valid() && d.Owner() == Empty && d.screen == Home && !d.running && d.dormantId.None?
      invariant 1 == d.nativeGeneration <= d.generation <= LAST_GENERATION
      invariant d.overlayState == Starting && d.choice == 1
      decreases LAST_GENERATION - d.generation
    {
      d.BeginRun(DEFAULT_APP, false, Started, true);
      d.EndRun(false, None, true);
    }
  }

  /** The clash does happen: then one overlay start and one remote stop leave an overlay without a guest. */
  method OverlayLosesItsGuest() returns (d: Device)
    ensures fresh(d) && !d.Valid() && d.sessionUp && d.guest.None?
  {
    d := AllNumbersGivenOut();
    var quiet := Charge(false, false, true);
    d.OverlayTick(OverlayFrame(true, true, Started, true, false, quiet, false, false, false, quiet, true));
    var _ := d.NativeStop();
  }

  /** An app opened at home and left with Back after any turns that do not end it is kept under its own id... */
  method OpenAndLeave(d: Device, id: string, source: bool, how: Start, turns: seq<Turn>, last: Turn, cleared: bool)
    requires d.Valid() && !d.running && d.screen == Home && d.dormantId.None?
    requires id != WORK && ComesUp(how, source)
    requires forall k :: 0 <= k < |turns| ==>
      turns[k].modal || !(turns[k].back || turns[k].tickFails || turns[k].runRequested || turns[k].framelessDone)
    requires last.back && !last.modal && last.resumeHook && last.sleep.Asleep?
    modifies d
    ensures d.Valid() && d.screen == Home && !d.running
    ensures d.Owner() == Kept(NextGeneration(old(d.generation)), id)
  {
    d.BeginRun(id, source, how, cleared);
    for k := 0 to |turns|
      invariant d.Valid() && d.running && d.screen == Home
      invariant d.currentId == id && d.owner == Home && !d.stopRequested
      invariant d.Owner() == Foreground(NextGeneration(old(d.generation)))
    {
      d.TickRun(turns[k]);
    }
    d.TickRun(last);
  }

  /** ... and opening that id again, from the menu or remotely, wakes that very guest, while any other app that
      is opened ends it. */
  method OpenLeaveOpen(d: Device, id: string, source: bool, how: Start, turns: seq<Turn>, last: Turn, cleared: bool,
                       next: string, remote: bool, again: Start)
    requires d.Valid() && !d.running && d.screen == Home && d.dormantId.None?
    requires id != WORK && ComesUp(how, source)
    requires forall k :: 0 <= k < |turns| ==>
      turns[k].modal || !(turns[k].back || turns[k].tickFails || turns[k].runRequested || turns[k].framelessDone)
    requires last.back && !last.modal && last.resumeHook && last.sleep.Asleep?
    modifies d
    ensures d.Valid() && d.currentId == next
    ensures next == id ==> d.running && d.Owner() == Foreground(NextGeneration(old(d.generation)))
    ensures next != id ==> d.Owner() == if ComesUp(again, next != DEFAULT_APP)
      then Foreground(NextGeneration(NextGeneration(old(d.generation)))) else Empty
  {
    OpenAndLeave(d, id, source, how, turns, last, cleared);
    if remote {
      var _ := d.NativeStart(next, next == id, false, again, cleared);
    } else {
      d.BeginRun(next, next != DEFAULT_APP, again, cleared);
    }
  }

  /** "Until somebody turns it off" does not hold of a blocked overlay: a visit to the Wi-Fi screen clears its
      flag, and choosing it once more starts it. */
  method BlockedIsForgotten() returns (d: Device)
    ensures fresh(d) && d.Valid() && d.Owner() == Overlay(1)
  {
    d := new Device(1, true);
    assert d.overlayState == Blocked && d.flagStored;
    d.Enter(Wifi, true);
    assert d.overlayState == Blocked && !d.flagStored;
    d.Enter(Home, true);
    d.OverlayArmedSet(1, true);
    var quiet := Charge(false, false, true);
    d.OverlayTick(OverlayFrame(true, true, Started, true, false, quiet, false, false, false, quiet, true));
  }
}
