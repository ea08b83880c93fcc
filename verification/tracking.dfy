/** The tracking-process supervisor of `macAddressController.js`: the module-level
    `trackingProcess` handle, the `startTracking`/`stopTracking` handlers, the
    child's 'close'/'exit' listeners and the five-second SIGKILL fallback.

    Every handler and listener is a step of a pure state machine. A step takes
    the supervisor state and one event and gives the next state together with
    the effects it causes: a spawned child, a signal, an armed timer, an HTTP
    reply. `StepAsWritten` is the code as it stands. `Step` keys the listeners
    and the timer to the process they were registered for. The safety
    invariant `Safe` holds along every run of `Step` and fails on short runs of
    `StepAsWritten`. */
module Tracking {
  import opened Wrappers

  /** Identity of a spawned `python track_apps.py <mac>` child. */
  type ProcessId = nat

  datatype Signal = SigInt | SigKill

  datatype Body = Message(text: string) | Error(text: string)

  datatype Reply = Reply(status: nat, body: Body)

  datatype Effect =
    | Spawn(proc: ProcessId, macAddress: string)
    | Kill(proc: ProcessId, signal: Signal)
    | ArmFallback(proc: ProcessId)
    | Respond(reply: Reply)

  /** `trackingProcess`, and the stop requests whose 'exit' listener waits on the
      process they signalled (one entry per pending request). */
  datatype Supervisor = Supervisor(handle: Option<ProcessId>, waiting: seq<ProcessId>)

  datatype Event =
    | StartRequest(macAddress: string, newProc: ProcessId)
    | StopRequest(interruptThrows: bool)
    | ProcessExited(proc: ProcessId)
    | FallbackFired(armedFor: ProcessId, killThrows: bool)

  datatype Outcome = Outcome(next: Supervisor, effects: seq<Effect>)

  const Idle := Supervisor(None, [])

  const AlreadyActive := Reply(400, Message("Tracking already active"))
  const Started := Reply(200, Message("Tracking started"))
  const NotActive := Reply(400, Message("Tracking is not active"))
  const StopFailed := Reply(500, Error("Error stopping tracking process"))
  const Stopped := Reply(200, Message("Tracking stopped"))

  predicate Spawns(effects: seq<Effect>)
  {
    exists i :: 0 <= i < |effects| && effects[i].Spawn?
  }

  /** The pending stop requests waiting on `p`, answered when `p` exits. */
  function StoppedReplies(waiting: seq<ProcessId>, p: ProcessId): (r: seq<Effect>)
    ensures forall i :: 0 <= i < |r| ==> r[i] == Respond(Stopped)
    decreases |waiting|
  {
    if |waiting| == 0 then []
    else (if waiting[0] == p then [Respond(Stopped)] else []) + StoppedReplies(waiting[1..], p)
  }

  function Without(waiting: seq<ProcessId>, p: ProcessId): (r: seq<ProcessId>)
    ensures p !in r
    ensures forall q :: q != p ==> (q in r <==> q in waiting)
    decreases |waiting|
  {
    if |waiting| == 0 then []
    else (if waiting[0] == p then [] else [waiting[0]]) + Without(waiting[1..], p)
  }

  /** `startTracking` (lines 29-54): reject while a handle is held, otherwise
      spawn, hold the new handle and reply at once. */
  function Start(s: Supervisor, mac: string, newProc: ProcessId): (r: Outcome)
    ensures s.handle.Some? ==> r == Outcome(s, [Respond(AlreadyActive)]) && !Spawns(r.effects)
    ensures s.handle.None? ==> r.next.handle == Some(newProc) && r.next.waiting == s.waiting
    ensures s.handle.None? ==> r.effects == [Spawn(newProc, mac), Respond(Started)]
  {
    if s.handle.Some? then Outcome(s, [Respond(AlreadyActive)])
    else Outcome(s.(handle := Some(newProc)), [Spawn(newProc, mac), Respond(Started)])
  }

  /** `stopTracking` (lines 56-98): reject while idle; a throwing SIGINT is a 500
      that keeps the handle; otherwise signal, wait for 'exit' and arm the
      fallback, replying only when the process exits. */
  function Stop(s: Supervisor, interruptThrows: bool): (r: Outcome)
    ensures s.handle.None? ==> r == Outcome(s, [Respond(NotActive)])
    ensures s.handle.Some? && interruptThrows ==> r == Outcome(s, [Respond(StopFailed)])
    ensures s.handle.Some? && !interruptThrows ==>
              r.next.handle == s.handle
              && r.next.waiting == s.waiting + [s.handle.value]
              && r.effects == [Kill(s.handle.value, SigInt), ArmFallback(s.handle.value)]
    ensures !Spawns(r.effects)
  {
    match s.handle
    case None => Outcome(s, [Respond(NotActive)])
    case Some(p) =>
      if interruptThrows then Outcome(s, [Respond(StopFailed)])
      else Outcome(s.(waiting := s.waiting + [p]), [Kill(p, SigInt), ArmFallback(p)])
  }

  /** The code as written: the 'close' listener (lines 48-51), the 'exit'
      listener (lines 73-79) and the timer (lines 82-95) all act on whatever
      `trackingProcess` holds when they run. */
  function StepAsWritten(s: Supervisor, e: Event): (r: Outcome)
    ensures e.StartRequest? ==> r == Start(s, e.macAddress, e.newProc)
    ensures e.StopRequest? ==> r == Stop(s, e.interruptThrows)
    ensures e.ProcessExited? || e.FallbackFired? ==> r.next.handle.None? && !Spawns(r.effects)
    ensures e.FallbackFired? && s.handle.Some? && !e.killThrows ==>
              r.effects == [Kill(s.handle.value, SigKill)]
  {
    match e
    case StartRequest(mac, p) => Start(s, mac, p)
    case StopRequest(throws) => Stop(s, throws)
    case ProcessExited(p) =>
      Outcome(Supervisor(None, Without(s.waiting, p)), StoppedReplies(s.waiting, p))
    case FallbackFired(_, throws) =>
      match s.handle
      case None => Outcome(s, [])
      case Some(q) => Outcome(s.(handle := None), if throws then [] else [Kill(q, SigKill)])
  }

  /** The intended supervisor: the exit of a process clears the handle only if
      it is that process, and a timer kills only the process it was armed for. */
  function Step(s: Supervisor, e: Event): (r: Outcome)
    ensures e.StartRequest? ==> r == Start(s, e.macAddress, e.newProc)
    ensures e.StopRequest? ==> r == Stop(s, e.interruptThrows)
    ensures e.ProcessExited? ==>
              r.next.handle == (if s.handle == Some(e.proc) then None else s.handle)
    ensures e.FallbackFired? ==>
              r.next.handle == (if s.handle == Some(e.armedFor) then None else s.handle)
    ensures e.FallbackFired? && s.handle == Some(e.armedFor) && !e.killThrows ==>
              r.effects == [Kill(e.armedFor, SigKill)]
    ensures forall i :: 0 <= i < |r.effects| && r.effects[i].Kill? && r.effects[i].signal == SigKill ==>
              e.FallbackFired? && r.effects[i].proc == e.armedFor
  {
    match e
    case StartRequest(mac, p) => Start(s, mac, p)
    case StopRequest(throws) => Stop(s, throws)
    case ProcessExited(p) =>
      var h := if s.handle == Some(p) then None else s.handle;
      Outcome(Supervisor(h, Without(s.waiting, p)), StoppedReplies(s.waiting, p))
    case FallbackFired(a, throws) =>
      if s.handle == Some(a) then Outcome(s.(handle := None), if throws then [] else [Kill(a, SigKill)])
      else Outcome(s, [])
  }

  // ---------------------------------------------------------------------------
  // The supervisor inside its environment

  /** The supervisor together with what the operating system and the timers know:
      the children alive, every id ever spawned, the children a SIGINT was sent
      to, and the fallback timers not yet fired. */
  datatype World = World(
    sup: Supervisor,
    live: set<ProcessId>,
    spawned: set<ProcessId>,
    stopping: set<ProcessId>,
    armed: multiset<ProcessId>)

  const Init := World(Idle, {}, {}, {}, multiset{})

  /** Events the environment can deliver: a new child gets an unused id, only a
      live child exits, and only an armed timer fires. */
  predicate Admissible(w: World, e: Event)
  {
    match e
    case StartRequest(_, p) => p !in w.spawned
    case StopRequest(_) => true
    case ProcessExited(p) => p in w.live
    case FallbackFired(a, _) => a in w.armed
  }

  function SpawnedBy(effects: seq<Effect>): set<ProcessId>
    decreases |effects|
  {
    if |effects| == 0 then {}
    else (if effects[0].Spawn? then {effects[0].proc} else {}) + SpawnedBy(effects[1..])
  }

  function InterruptedBy(effects: seq<Effect>): set<ProcessId>
    decreases |effects|
  {
    if |effects| == 0 then {}
    else (if effects[0].Kill? && effects[0].signal == SigInt then {effects[0].proc} else {})
         + InterruptedBy(effects[1..])
  }

  function ArmedBy(effects: seq<Effect>): multiset<ProcessId>
    decreases |effects|
  {
    if |effects| == 0 then multiset{}
    else (if effects[0].ArmFallback? then multiset{effects[0].proc} else multiset{}) + ArmedBy(effects[1..])
  }

  /** The world after event `e`, given the supervisor's step for it. */
  function Apply(w: World, e: Event, st: Outcome): World
  {
    var exited := if e.ProcessExited? then {e.proc} else {};
    var fired := if e.FallbackFired? then multiset{e.armedFor} else multiset{};
    World(st.next,
          (w.live + SpawnedBy(st.effects)) - exited,
          w.spawned + SpawnedBy(st.effects),
          w.stopping + InterruptedBy(st.effects),
          (w.armed - fired) + ArmedBy(st.effects))
  }

  function Next(w: World, e: Event): World
  {
    Apply(w, e, Step(w.sup, e))
  }

  function NextAsWritten(w: World, e: Event): World
  {
    Apply(w, e, StepAsWritten(w.sup, e))
  }

  /** No orphan: every live child is the held handle or has been asked to stop;
      the handle names a live child; every armed timer belongs to a child that
      was asked to stop; every live child was spawned. */
  ghost predicate Safe(w: World)
  {
    && (forall p :: p in w.live ==> w.sup.handle == Some(p) || p in w.stopping)
    && (w.sup.handle.Some? ==> w.sup.handle.value in w.live)
    && (forall a :: a in w.armed ==> a in w.stopping)
    && w.live <= w.spawned
  }

  /** A SIGKILL reaches only a child that was asked to stop. */
  ghost predicate KillsOnlyStopping(w: World, st: Outcome)
  {
    forall i :: 0 <= i < |st.effects| && st.effects[i].Kill? && st.effects[i].signal == SigKill ==>
      st.effects[i].proc in w.stopping
  }

  lemma ArmedByStop(effects: seq<Effect>, p: ProcessId)
    requires effects == [Kill(p, SigInt), ArmFallback(p)]
    ensures ArmedBy(effects) == multiset{p}
    ensures InterruptedBy(effects) == {p}
    ensures SpawnedBy(effects) == {}
  {
    assert effects[1..] == [ArmFallback(p)];
    assert effects[1..][1..] == [];
    assert ArmedBy(effects[1..][1..]) == multiset{};
    assert ArmedBy(effects[1..]) == multiset{p};
    assert SpawnedBy(effects[1..]) == {} && InterruptedBy(effects[1..]) == {};
  }

  /** Replies and SIGKILLs spawn nothing, interrupt nothing and arm nothing. */
  lemma {:induction false} Passive(effects: seq<Effect>)
    requires forall i :: 0 <= i < |effects| ==>
               effects[i].Respond? || (effects[i].Kill? && effects[i].signal == SigKill)
    ensures ArmedBy(effects) == multiset{}
    ensures SpawnedBy(effects) == {} && InterruptedBy(effects) == {}
    decreases |effects|
  {
    if |effects| > 0 {
      Passive(effects[1..]);
    }
  }

  lemma NoArming(effects: seq<Effect>)
    requires forall i :: 0 <= i < |effects| ==> !effects[i].ArmFallback?
    ensures ArmedBy(effects) == multiset{}
    decreases |effects|
  {
    if |effects| > 0 {
      NoArming(effects[1..]);
    }
  }

  lemma StartEffects(mac: string, p: ProcessId)
    ensures SpawnedBy([Spawn(p, mac), Respond(Started)]) == {p}
    ensures InterruptedBy([Spawn(p, mac), Respond(Started)]) == {}
  {
    var effects := [Spawn(p, mac), Respond(Started)];
    assert effects[1..] == [Respond(Started)];
    Passive(effects[1..]);
  }

  /** The intended supervisor keeps `Safe` on every admissible event, and it
      sends SIGKILL only to children that were asked to stop. */
  lemma {:induction false} NextPreservesSafety(w: World, e: Event)
    requires Safe(w) && Admissible(w, e)
    ensures Safe(Next(w, e))
    ensures KillsOnlyStopping(w, Step(w.sup, e))
  {
    match e
    case StartRequest(mac, p) => StartKeepsSafe(w, mac, p);
    case StopRequest(throws) => StopKeepsSafe(w, throws);
    case ProcessExited(p) => ExitKeepsSafe(w, p);
    case FallbackFired(a, throws) => FallbackKeepsSafe(w, a, throws);
  }

  /** `startTracking` in the world: a new live child, or nothing at all. */
  lemma StartWorld(w: World, mac: string, p: ProcessId)
    ensures Apply(w, StartRequest(mac, p), Start(w.sup, mac, p))
            == if w.sup.handle.None? then w.(sup := w.sup.(handle := Some(p)), live := w.live + {p}, spawned := w.spawned + {p})
               else w
  {
    if w.sup.handle.None? {
      StartEffects(mac, p);
      NoArming([Spawn(p, mac), Respond(Started)]);
    } else {
      Passive([Respond(AlreadyActive)]);
    }
  }

  /** `stopTracking` in the world: the held child is asked to stop and its timer
      armed, or nothing at all. */
  lemma StopWorld(w: World, throws: bool)
    ensures Apply(w, StopRequest(throws), Stop(w.sup, throws))
            == if w.sup.handle.Some? && !throws then
                 w.(sup := w.sup.(waiting := w.sup.waiting + [w.sup.handle.value]),
                    stopping := w.stopping + {w.sup.handle.value},
                    armed := w.armed + multiset{w.sup.handle.value})
               else w
  {
    if w.sup.handle.Some? && !throws {
      StopSignals(w);
    } else {
      Passive(Stop(w.sup, throws).effects);
    }
  }

  lemma StopSignals(w: World)
    requires w.sup.handle.Some?
    ensures Apply(w, StopRequest(false), Stop(w.sup, false))
            == w.(sup := w.sup.(waiting := w.sup.waiting + [w.sup.handle.value]),
                  stopping := w.stopping + {w.sup.handle.value},
                  armed := w.armed + multiset{w.sup.handle.value})
  {
    var p := w.sup.handle.value;
    var st := Stop(w.sup, false);
    assert st.effects == [Kill(p, SigInt), ArmFallback(p)];
    ArmedByStop(st.effects, p);
  }

  lemma StartKeepsSafe(w: World, mac: string, p: ProcessId)
    requires Safe(w) && p !in w.spawned
    ensures Safe(Next(w, StartRequest(mac, p)))
    ensures KillsOnlyStopping(w, Step(w.sup, StartRequest(mac, p)))
  {
    StartWorld(w, mac, p);
  }

  lemma StopKeepsSafe(w: World, throws: bool)
    requires Safe(w)
    ensures Safe(Next(w, StopRequest(throws)))
    ensures KillsOnlyStopping(w, Step(w.sup, StopRequest(throws)))
  {
    StopWorld(w, throws);
  }

  lemma ExitKeepsSafe(w: World, p: ProcessId)
    requires Safe(w) && p in w.live
    ensures Safe(Next(w, ProcessExited(p)))
    ensures KillsOnlyStopping(w, Step(w.sup, ProcessExited(p)))
  {
    var st := Step(w.sup, ProcessExited(p));
    Passive(st.effects);
    assert Next(w, ProcessExited(p)) == w.(sup := st.next, live := w.live - {p});
  }

  lemma FallbackKeepsSafe(w: World, a: ProcessId, throws: bool)
    requires Safe(w) && a in w.armed
    ensures Safe(Next(w, FallbackFired(a, throws)))
    ensures KillsOnlyStopping(w, Step(w.sup, FallbackFired(a, throws)))
  {
    var st := Step(w.sup, FallbackFired(a, throws));
    Passive(st.effects);
    assert Next(w, FallbackFired(a, throws)) == w.(sup := st.next, armed := w.armed - multiset{a});
  }

  /** `Safe` holds on every world reachable from `Init` by admissible events. */
  lemma {:induction false} RunSafe(events: seq<Event>)
    requires AdmissibleRun(Init, events)
    ensures Safe(Run(Init, events))
  {
    RunSafeFrom(Init, events);
  }

  lemma {:induction false} RunSafeFrom(w: World, events: seq<Event>)
    requires Safe(w) && AdmissibleRun(w, events)
    ensures Safe(Run(w, events))
    decreases |events|
  {
    if |events| > 0 {
      NextPreservesSafety(w, events[0]);
      RunSafeFrom(Next(w, events[0]), events[1..]);
    }
  }

  predicate AdmissibleRun(w: World, events: seq<Event>)
    decreases |events|
  {
    |events| == 0 || (Admissible(w, events[0]) && AdmissibleRun(Next(w, events[0]), events[1..]))
  }

  function Run(w: World, events: seq<Event>): World
    decreases |events|
  {
    if |events| == 0 then w else Run(Next(w, events[0]), events[1..])
  }

  /** Stopping an active supervisor ends with a null handle once the fallback
      fires, whether or not the child reacted to SIGINT and whether or not the
      SIGKILL throws. */
  lemma StopThenFallbackIdles(s: Supervisor, killThrows: bool)
    requires s.handle.Some?
    ensures var st := Step(s, StopRequest(false));
            ArmFallback(s.handle.value) in st.effects
            && Step(st.next, FallbackFired(s.handle.value, killThrows)).next.handle.None?
  {
  }

  // ---------------------------------------------------------------------------
  // The code as written breaks `Safe`

  /** `startTracking` on an idle supervisor, in the world. */
  lemma AsWrittenStart(w: World, mac: string, p: ProcessId)
    requires w.sup.handle.None?
    ensures NextAsWritten(w, StartRequest(mac, p))
            == w.(sup := w.sup.(handle := Some(p)), live := w.live + {p}, spawned := w.spawned + {p})
  {
    StartWorld(w, mac, p);
  }

  /** A successful `stopTracking`, in the world. */
  lemma AsWrittenStop(w: World)
    requires w.sup.handle.Some?
    ensures var p := w.sup.handle.value;
            NextAsWritten(w, StopRequest(false))
            == w.(sup := w.sup.(waiting := w.sup.waiting + [p]),
                  stopping := w.stopping + {p},
                  armed := w.armed + multiset{p})
  {
    StopWorld(w, false);
  }

  /** The 'close' listener as written, in the world. */
  lemma AsWrittenExit(w: World, p: ProcessId)
    ensures var w' := NextAsWritten(w, ProcessExited(p));
            w'.sup == Supervisor(None, Without(w.sup.waiting, p))
            && w'.live == w.live - {p} && w'.stopping == w.stopping
            && w'.armed == w.armed && w'.spawned == w.spawned
  {
    var st := StepAsWritten(w.sup, ProcessExited(p));
    Passive(st.effects);
  }

  /** The timer as written, in the world: it kills whatever the handle holds. */
  lemma AsWrittenFallback(w: World, a: ProcessId)
    requires w.sup.handle.Some?
    ensures StepAsWritten(w.sup, FallbackFired(a, false)).effects == [Kill(w.sup.handle.value, SigKill)]
    ensures var w' := NextAsWritten(w, FallbackFired(a, false));
            w'.sup == w.sup.(handle := None) && w'.live == w.live && w'.stopping == w.stopping
            && w'.armed == w.armed - multiset{a} && w'.spawned == w.spawned
  {
    var st := StepAsWritten(w.sup, FallbackFired(a, false));
    Passive(st.effects);
  }

  // Worlds along the two runs below: child 1 started, child 1 asked to stop,
  // then either child 1 exited or its timer fired, then child 2 started.

  const Running1 := World(Supervisor(Some(1), []), {1}, {1}, {}, multiset{})
  const Stopping1 := World(Supervisor(Some(1), [1]), {1}, {1}, {1}, multiset{1})
  const Exited1 := World(Supervisor(None, []), {}, {1}, {1}, multiset{1})
  const Running2 := World(Supervisor(Some(2), []), {2}, {1, 2}, {1}, multiset{1})
  const Killed1 := World(Supervisor(None, [1]), {1}, {1}, {1}, multiset{})
  const Running2Late := World(Supervisor(Some(2), [1]), {1, 2}, {1, 2}, {1}, multiset{})
  const Killed2 := World(Supervisor(None, []), {2}, {1, 2}, {1}, multiset{})
  const Orphaned2 := World(Supervisor(None, []), {2}, {1, 2}, {1}, multiset{})

  lemma RunStartsOne()
    ensures NextAsWritten(Init, StartRequest("AA_BB", 1)) == Running1
  {
    AsWrittenStart(Init, "AA_BB", 1);
  }

  lemma RunStopsOne()
    ensures NextAsWritten(Running1, StopRequest(false)) == Stopping1
  {
    AsWrittenStop(Running1);
  }

  lemma RunOneExits()
    ensures NextAsWritten(Stopping1, ProcessExited(1)) == Exited1
  {
    AsWrittenExit(Stopping1, 1);
  }

  lemma RunStartsTwo()
    ensures NextAsWritten(Exited1, StartRequest("AA_BB", 2)) == Running2
  {
    AsWrittenStart(Exited1, "AA_BB", 2);
  }

  lemma RunTimerKillsOne()
    ensures NextAsWritten(Stopping1, FallbackFired(1, false)) == Killed1
  {
    AsWrittenFallback(Stopping1, 1);
  }

  lemma RunStartsTwoLate()
    ensures NextAsWritten(Killed1, StartRequest("AA_BB", 2)) == Running2Late
  {
    AsWrittenStart(Killed1, "AA_BB", 2);
  }

  lemma RunOneExitsLate()
    ensures NextAsWritten(Running2Late, ProcessExited(1)) == Orphaned2
  {
    AsWrittenExit(Running2Late, 1);
  }

  lemma RunTimerKillsTwo()
    ensures StepAsWritten(Running2.sup, FallbackFired(1, false)).effects == [Kill(2, SigKill)]
    ensures NextAsWritten(Running2, FallbackFired(1, false)) == Killed2
  {
    AsWrittenFallback(Running2, 1);
  }

  /** Stop child 1, let it exit on SIGINT, start child 2 inside the five-second
      window: the timer armed for child 1 then sends SIGKILL to child 2, which
      nobody asked to stop, and drops its handle while it is still alive. */
  lemma FallbackKillsNewProcess()
    ensures var w1 := NextAsWritten(Init, StartRequest("AA_BB", 1));
            var w2 := NextAsWritten(w1, StopRequest(false));
            var w3 := NextAsWritten(w2, ProcessExited(1));
            var w4 := NextAsWritten(w3, StartRequest("AA_BB", 2));
            && Admissible(w4, FallbackFired(1, false))
            && StepAsWritten(w4.sup, FallbackFired(1, false)).effects == [Kill(2, SigKill)]
            && !KillsOnlyStopping(w4, StepAsWritten(w4.sup, FallbackFired(1, false)))
            && !Safe(NextAsWritten(w4, FallbackFired(1, false)))
  {
    RunStartsOne();
    RunStopsOne();
    RunOneExits();
    RunStartsTwo();
    RunTimerKillsTwo();
    assert 2 in Killed2.live && 2 !in Killed2.stopping;
    assert [Kill(2, SigKill)][0] == Kill(2, SigKill);
  }

  /** Stop child 1 and let the fallback clear the handle, start child 2, then
      child 1 finally exits: its 'close' listener clears the handle of child 2,
      which keeps running untracked, and a later stop request is refused with
      "Tracking is not active". */
  lemma ExitClearsNewHandle()
    ensures var w1 := NextAsWritten(Init, StartRequest("AA_BB", 1));
            var w2 := NextAsWritten(w1, StopRequest(false));
            var w3 := NextAsWritten(w2, FallbackFired(1, false));
            var w4 := NextAsWritten(w3, StartRequest("AA_BB", 2));
            var w5 := NextAsWritten(w4, ProcessExited(1));
            && Admissible(w4, ProcessExited(1))
            && 2 in w5.live
            && !Safe(w5)
            && StepAsWritten(w5.sup, StopRequest(false)).effects == [Respond(NotActive)]
  {
    RunStartsOne();
    RunStopsOne();
    RunTimerKillsOne();
    RunStartsTwoLate();
    RunOneExitsLate();
    assert 2 in Orphaned2.live && 2 !in Orphaned2.stopping;
  }
}
