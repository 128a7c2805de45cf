/** The worker process behind a browser client and the commands sent to it
    (src/client.ts: _start, close, _prepare, _dispatch, _resolvePendingForWorkerExit,
    _resetVaultRedactionForWorker). Workers are numbered by generation. Each awaited promise
    splits a method into the events before and after it. */
module WorkerLifecycle {
  import opened Common

  /** Exited: the `exit` event; Draining, Resetting, Cleaned: the stages of the `close` cleanup. */
  datatype Phase = Starting | Ready | Exited | Draining | Resetting | Cleaned

  /** preserves: some close() asked for its pending commands to be left alone. */
  datatype Worker = Worker(phase: Phase, preserves: bool, resets: nat) {
    predicate Alive() { phase.Starting? || phase.Ready? }
  }

  datatype Outcome = Replied(worker: nat) | SendFailed | WorkerExited | TimedOut | Aborted
  datatype Timer = Armed | Fired | Cleared
  datatype Command = Command(child: Option<nat>, outcome: Option<Outcome>, aborting: bool, timer: Timer)

  /** The preparation in flight, if any, and what it awaits. Every caller of _prepare shares it. */
  datatype Start = Idle | AwaitingBarrier(barrier: Option<nat>) | AwaitingReady(worker: nat)

  datatype State = State(
    workers: seq<Worker>, process: Option<nat>, barrier: Option<nat>, owner: Option<nat>,
    start: Start, closed: bool, commands: seq<Command>, pending: map<nat, Option<nat>>)
  {
    predicate Running() {
      process.Some? && process.value < |workers| && workers[process.value].Alive()
    }
    predicate IsClean(w: Option<nat>) {
      w.Some? ==> w.value < |workers| && workers[w.value].phase.Cleaned?
    }
  }

  const INITIAL := State([], None, None, None, Idle, false, [], map[])

  datatype Event =
    | BeginStart
    | ResumeStart
    | ReadyLine(worker: nat)
    | StartTimeout
    | Exit(worker: nat)
    | CloseEvent(worker: nat)
    | Drained(worker: nat)
    | CleanupDone(worker: nat)
    | Close(child: Option<nat>, preserve: bool, restart: bool)
    | CloseReturns(worker: nat)
    | Dispatch(sent: bool)
    | Reply(worker: nat, id: nat)
    | Timeout(id: nat)
    | TimeoutDone(id: nat)
    | Abort(id: nat)
    | AbortDone(id: nat)

  function SetPhase(s: State, w: nat, phase: Phase): State
    requires w < |s.workers|
  {
    s.(workers := s.workers[w := s.workers[w].(phase := phase)])
  }

  /** done(): the first result settles the command and removes it from the pending map. */
  function Settle(s: State, id: nat, outcome: Outcome): State
    requires id < |s.commands|
  {
    if s.commands[id].outcome.Some? then s
    else s.(commands := s.commands[id := s.commands[id].(outcome := Some(outcome))], pending := s.pending - {id})
  }

  /** What close() does before it awaits the worker's close promise. */
  function Closed(s: State, child: Option<nat>, preserve: bool, restart: bool): State {
    var target := if child.Some? then child else s.process;
    var t := s.(closed := s.closed || !restart,
                process := if child.None? || s.process == child then None else s.process);
    if target.Some? && target.value < |s.workers| && preserve then
      t.(workers := t.workers[target.value := t.workers[target.value].(preserves := true)])
    else t
  }

  /** Retire the redaction ownership of a worker and run the reset hook, at most once. */
  function ResetRedaction(s: State, w: nat): State
    requires w < |s.workers|
  {
    if s.owner != Some(w) then s
    else s.(owner := None, workers := s.workers[w := s.workers[w].(resets := s.workers[w].resets + 1)])
  }

  /** The worker's exit settles this command: it is pending there and not aborting. */
  predicate ExitSettles(s: State, w: nat, id: nat)
    requires id < |s.commands|
  {
    id in s.pending && s.pending[id] == Some(w) && !s.commands[id].aborting
  }

  /** The exit reported to the first n commands. */
  function ResolveFirst(s: State, w: nat, n: nat): State
    requires n <= |s.commands|
  {
    s.(commands := seq(|s.commands|, i requires 0 <= i < |s.commands| =>
         if i < n && ExitSettles(s, w, i) then s.commands[i].(outcome := Some(WorkerExited)) else s.commands[i]),
       pending := map i | i in s.pending && !(i < n && ExitSettles(s, w, i)) :: s.pending[i])
  }

  /** The exit reported to every command of the worker; an aborting command ignores it. */
  function ResolvePending(s: State, w: nat): State {
    ResolveFirst(s, w, |s.commands|)
  }

  function Spawned(s: State): State {
    var w := |s.workers|;
    s.(workers := s.workers + [Worker(Starting, false, 0)], process := Some(w), barrier := Some(w),
       owner := Some(w), start := AwaitingReady(w))
  }

  predicate Enabled(s: State, e: Event) {
    match e
    case BeginStart => true
    case ResumeStart => s.start.AwaitingBarrier? && s.IsClean(s.start.barrier)
    case ReadyLine(w) => w < |s.workers| && s.workers[w].phase.Starting?
    case StartTimeout => s.start.AwaitingReady?
    case Exit(w) => w < |s.workers| && s.workers[w].Alive()
    case CloseEvent(w) => w < |s.workers| && s.workers[w].phase.Exited?
    case Drained(w) => w < |s.workers| && s.workers[w].phase.Draining?
    case CleanupDone(w) => w < |s.workers| && s.workers[w].phase.Resetting?
    case Close(child, _, _) => child.Some? ==> child.value < |s.workers|
    case CloseReturns(w) => w < |s.workers| && s.workers[w].phase.Cleaned?
    case Dispatch(sent) => sent ==> s.Running()
    case Reply(w, id) => w < |s.workers| && (s.workers[w].Alive() || s.workers[w].phase.Exited?) && id < |s.commands|
    case Timeout(id) => id < |s.commands| && s.commands[id].outcome.None? && s.commands[id].timer.Armed?
    case TimeoutDone(id) => id < |s.commands| && s.commands[id].timer.Fired? && s.IsClean(s.commands[id].child)
    case Abort(id) => id < |s.commands| && s.commands[id].outcome.None? && !s.commands[id].aborting
    case AbortDone(id) => id < |s.commands| && s.commands[id].aborting && s.IsClean(s.commands[id].child)
  }

  function Next(s: State, e: Event): State
    requires Enabled(s, e)
  {
    match e
    case BeginStart =>
      if !s.start.Idle? || s.Running() || s.closed then s else s.(start := AwaitingBarrier(s.barrier))
    case ResumeStart =>
      if s.Running() || s.closed then s.(start := Idle) else Spawned(s)
    case ReadyLine(w) =>
      SetPhase(s, w, Ready).(start := if s.start == AwaitingReady(w) then Idle else s.start)
    case StartTimeout =>
      s.(start := Idle, process := if s.process == Some(s.start.worker) then None else s.process)
    case Exit(w) =>
      SetPhase(s, w, Exited).(process := if s.process == Some(w) then None else s.process)
    case CloseEvent(w) =>
      SetPhase(s, w, Draining).(start := if s.start == AwaitingReady(w) then Idle else s.start)
    case Drained(w) =>
      SetPhase(ResetRedaction(if s.workers[w].preserves then s else ResolvePending(s, w), w), w, Resetting)
    case CleanupDone(w) => SetPhase(s, w, Cleaned)
    case Close(child, preserve, restart) => Closed(s, child, preserve, restart)
    case CloseReturns(w) => ResetRedaction(s, w)
    case Dispatch(sent) =>
      var id := |s.commands|;
      var t := s.(commands := s.commands + [Command(s.process, None, false, Armed)], pending := s.pending[id := s.process]);
      if sent then t else Settle(t, id, SendFailed)
    case Reply(w, id) =>
      if id in s.pending && s.pending[id] == Some(w) && !s.commands[id].aborting then Settle(s, id, Replied(w)) else s
    case Timeout(id) =>
      Closed(s.(commands := s.commands[id := s.commands[id].(timer := Fired)]), s.commands[id].child, true, true)
    case TimeoutDone(id) => Settle(s, id, TimedOut)
    case Abort(id) =>
      var c := s.commands[id];
      Closed(s.(commands := s.commands[id := c.(aborting := true, timer := if c.timer.Armed? then Cleared else c.timer)]),
             c.child, false, true)
    case AbortDone(id) => Settle(s, id, Aborted)
  }

  // ---- the invariant ----

  ghost predicate OneWorker(s: State) {
    var n := |s.workers|;
    // every worker but the last is completely cleaned up, and the barrier is the last one's
    && (forall w :: 0 <= w < n - 1 ==> s.workers[w].phase.Cleaned?)
    && s.barrier == (if n == 0 then None else Some(n - 1))
    && (s.process.Some? ==> n > 0 && s.process.value == n - 1 && s.workers[n - 1].Alive())
    && (s.start.AwaitingBarrier? ==> s.start.barrier == s.barrier)
    && (s.start.AwaitingReady? ==>
          n > 0 && s.start.worker == n - 1 && s.workers[n - 1].phase in {Starting, Exited})
  }

  /** The redaction set is owned by the last worker until its cleanup, then reset once. */
  ghost predicate Owned(s: State) {
    var n := |s.workers|;
    && s.owner == (if n > 0 && !s.workers[n - 1].phase.Resetting? && !s.workers[n - 1].phase.Cleaned?
                   then Some(n - 1) else None)
    && forall w :: 0 <= w < n ==>
         s.workers[w].resets == if s.workers[w].phase.Resetting? || s.workers[w].phase.Cleaned? then 1 else 0
  }

  /** A command is pending exactly while unsettled; without a timer it is aborting; and a reply it
      was settled with came from its worker. */
  ghost predicate CommandOk(s: State, id: nat)
    requires id < |s.commands|
  {
    var c := s.commands[id];
    && (c.outcome.None? <==> id in s.pending)
    && (id in s.pending ==> s.pending[id] == c.child && c.child.Some? && c.child.value < |s.workers|)
    && (c.outcome.None? && c.timer.Cleared? ==> c.aborting)
    && (c.outcome.Some? && c.outcome.value.Replied? ==> c.child == Some(c.outcome.value.worker))
  }

  ghost predicate CommandsOk(s: State) {
    && (forall id :: 0 <= id < |s.commands| ==> CommandOk(s, id))
    && (forall id :: id in s.pending ==> id < |s.commands|)
  }

  ghost predicate Inv(s: State) {
    OneWorker(s) && Owned(s) && CommandsOk(s)
  }

  /** Neither the commands nor the pending map changed, and no worker was forgotten. */
  ghost predicate SameCommands(s: State, t: State) {
    t.commands == s.commands && t.pending == s.pending && |s.workers| <= |t.workers|
  }

  lemma SameKeeps(s: State, t: State)
    requires CommandsOk(s) && SameCommands(s, t)
    ensures CommandsOk(t)
  {
    forall id | 0 <= id < |t.commands| ensures CommandOk(t, id) { assert CommandOk(s, id); }
  }

  lemma SettleKeeps(s: State, id: nat, outcome: Outcome)
    requires CommandsOk(s) && id < |s.commands|
    requires outcome.Replied? ==> s.commands[id].child == Some(outcome.worker)
    ensures CommandsOk(Settle(s, id, outcome))
  {
    var t := Settle(s, id, outcome);
    forall j | 0 <= j < |t.commands| ensures CommandOk(t, j) { assert CommandOk(s, j); }
  }

  lemma ResolveKeeps(s: State, w: nat)
    requires CommandsOk(s)
    ensures CommandsOk(ResolvePending(s, w))
  {
    var t := ResolvePending(s, w);
    forall j | 0 <= j < |t.commands| ensures CommandOk(t, j) { assert CommandOk(s, j); }
  }

  /** A command changed its timer or began to abort. */
  lemma MarkKeeps(s: State, id: nat, c: Command)
    requires CommandsOk(s) && id < |s.commands| && c.child == s.commands[id].child && c.outcome == s.commands[id].outcome
    requires c.timer.Cleared? ==> c.aborting || c.outcome.Some?
    ensures CommandsOk(s.(commands := s.commands[id := c]))
  {
    var t := s.(commands := s.commands[id := c]);
    forall j | 0 <= j < |t.commands| ensures CommandOk(t, j) { assert CommandOk(s, j); }
  }

  lemma DispatchKeeps(s: State, sent: bool)
    requires CommandsOk(s) && Enabled(s, Dispatch(sent))
    ensures CommandsOk(Next(s, Dispatch(sent)))
  {
    var t := Next(s, Dispatch(sent));
    var id := |s.commands|;
    assert id !in s.pending;
    forall j | 0 <= j < |t.commands| ensures CommandOk(t, j) {
      if j < id { assert CommandOk(s, j); }
    }
  }

  lemma TimeoutKeeps(s: State, id: nat)
    requires CommandsOk(s) && Enabled(s, Timeout(id))
    ensures CommandsOk(Next(s, Timeout(id)))
  {
    hide CommandsOk;
    MarkKeeps(s, id, s.commands[id].(timer := Fired));
    SameKeeps(s.(commands := s.commands[id := s.commands[id].(timer := Fired)]), Next(s, Timeout(id)));
  }

  lemma AbortKeeps(s: State, id: nat)
    requires CommandsOk(s) && Enabled(s, Abort(id))
    ensures CommandsOk(Next(s, Abort(id)))
  {
    hide CommandsOk;
    var c := s.commands[id];
    var c' := c.(aborting := true, timer := if c.timer.Armed? then Cleared else c.timer);
    MarkKeeps(s, id, c');
    SameKeeps(s.(commands := s.commands[id := c']), Next(s, Abort(id)));
  }

  lemma CommandsKeep(s: State, e: Event)
    requires CommandsOk(s) && Enabled(s, e)
    ensures CommandsOk(Next(s, e))
  {
    hide CommandsOk, ResolvePending, Settle;
    var t := Next(s, e);
    match e
    case Drained(w) =>
      ResolveKeeps(s, w);
      ResolveFrame(s, w);
      SameKeeps(if s.workers[w].preserves then s else ResolvePending(s, w), t);
    case Dispatch(sent) => DispatchKeeps(s, sent);
    case Reply(w, id) => ReplyKeeps(s, w, id);
    case Timeout(id) =>
      TimeoutKeeps(s, id);
    case TimeoutDone(id) => SettleKeeps(s, id, TimedOut);
    case Abort(id) =>
      AbortKeeps(s, id);
    case AbortDone(id) => SettleKeeps(s, id, Aborted);
    case _ => SameKeeps(s, t);
  }

  lemma ReplyKeeps(s: State, w: nat, id: nat)
    requires CommandsOk(s) && Enabled(s, Reply(w, id))
    ensures CommandsOk(Next(s, Reply(w, id)))
  {
    assert CommandOk(s, id);
    if id in s.pending && s.pending[id] == Some(w) { SettleKeeps(s, id, Replied(w)); }
  }

  /** Nothing about workers changed. */
  ghost predicate SameWorkers(s: State, t: State) {
    t.workers == s.workers && t.process == s.process && t.barrier == s.barrier && t.owner == s.owner && t.start == s.start
  }

  lemma ResolveFrame(s: State, w: nat)
    ensures SameWorkers(s, ResolvePending(s, w)) && |ResolvePending(s, w).commands| == |s.commands|
  {
  }

  lemma SettleFrame(s: State, id: nat, outcome: Outcome)
    requires id < |s.commands|
    ensures SameWorkers(s, Settle(s, id, outcome))
  {
  }

  ghost predicate WorkersOk(s: State) {
    OneWorker(s) && Owned(s)
  }

  lemma ClosedKeeps(s: State, child: Option<nat>, preserve: bool, restart: bool)
    requires WorkersOk(s)
    ensures WorkersOk(Closed(s, child, preserve, restart))
  {
  }

  lemma DrainedKeeps(s: State, w: nat)
    requires WorkersOk(s) && w < |s.workers| && s.workers[w].phase.Draining?
    ensures WorkersOk(SetPhase(ResetRedaction(s, w), w, Resetting))
  {
  }

  lemma SameWorkersKeeps(s: State, t: State)
    requires WorkersOk(s) && SameWorkers(s, t)
    ensures WorkersOk(t)
  {
  }

  lemma StartsKeep(s: State, e: Event)
    requires WorkersOk(s) && Enabled(s, e) && (e.BeginStart? || e.ResumeStart? || e.StartTimeout?)
    ensures WorkersOk(Next(s, e))
  {
  }

  lemma PhasesKeep(s: State, e: Event)
    requires WorkersOk(s) && Enabled(s, e)
    requires e.ReadyLine? || e.Exit? || e.CloseEvent? || e.CleanupDone? || e.CloseReturns?
    ensures WorkersOk(Next(s, e))
  {
  }

  lemma WorkersKeep(s: State, e: Event)
    requires WorkersOk(s) && Enabled(s, e)
    ensures WorkersOk(Next(s, e))
  {
    hide WorkersOk, ResolvePending, Settle, Closed, SetPhase, ResetRedaction, Spawned;
    var t := Next(s, e);
    match e
    case Drained(w) =>
      var r := if s.workers[w].preserves then s else ResolvePending(s, w);
      ResolveFrame(s, w);
      SameWorkersKeeps(s, r);
      DrainedKeeps(r, w);
    case Close(child, preserve, restart) => ClosedKeeps(s, child, preserve, restart);
    case Timeout(id) =>
      var u := s.(commands := s.commands[id := s.commands[id].(timer := Fired)]);
      SameWorkersKeeps(s, u);
      ClosedKeeps(u, u.commands[id].child, true, true);
    case Abort(id) =>
      var c := s.commands[id];
      var u := s.(commands := s.commands[id := c.(aborting := true, timer := if c.timer.Armed? then Cleared else c.timer)]);
      SameWorkersKeeps(s, u);
      ClosedKeeps(u, c.child, false, true);
    case Dispatch(sent) =>
      var u := s.(commands := s.commands + [Command(s.process, None, false, Armed)], pending := s.pending[|s.commands| := s.process]);
      SettleFrame(u, |s.commands|, SendFailed);
      SameWorkersKeeps(s, t);
    case Reply(w, id) =>
      SettleFrame(s, id, Replied(w));
      SameWorkersKeeps(s, t);
    case TimeoutDone(id) =>
      SettleFrame(s, id, TimedOut);
      SameWorkersKeeps(s, t);
    case AbortDone(id) =>
      SettleFrame(s, id, Aborted);
      SameWorkersKeeps(s, t);
    case _ =>
      if e.BeginStart? || e.ResumeStart? || e.StartTimeout? { StartsKeep(s, e); } else { PhasesKeep(s, e); }
  }

  lemma EventKeeps(s: State, e: Event)
    requires Inv(s) && Enabled(s, e)
    ensures Inv(Next(s, e))
  {
    hide CommandsOk, OneWorker, Owned, Enabled, Next;
    CommandsKeep(s, e);
    WorkersKeep(s, e);
  }

  // ---- every run ----

  ghost predicate IsRun(s: State, es: seq<Event>, ss: seq<State>) {
    && |ss| == |es| + 1 && ss[0] == s
    && forall k :: 0 <= k < |es| ==> Enabled(ss[k], es[k]) && ss[k + 1] == Next(ss[k], es[k])
  }

  lemma {:induction false} RunKeeps(s: State, es: seq<Event>, ss: seq<State>, k: nat)
    requires Inv(s) && IsRun(s, es, ss) && k < |ss|
    ensures Inv(ss[k])
  {
    if k > 0 {
      RunKeeps(s, es, ss, k - 1);
      hide Inv, Next, Enabled;
      EventKeeps(ss[k - 1], es[k - 1]);
    }
  }

  /** At most one worker is ever between its spawn and the end of its close cleanup. */
  lemma AtMostOneWorker(es: seq<Event>, ss: seq<State>, k: nat, v: nat, w: nat)
    requires IsRun(INITIAL, es, ss) && k < |ss| && v < |ss[k].workers| && w < |ss[k].workers|
    requires !ss[k].workers[v].phase.Cleaned? && !ss[k].workers[w].phase.Cleaned?
    ensures v == w
  {
    RunKeeps(INITIAL, es, ss, k);
  }

  /** A replacement is spawned only after every earlier worker was cleaned up, its redaction
      set reset exactly once, and the ownership of the set given up. */
  lemma SpawnAfterCleanup(es: seq<Event>, ss: seq<State>, k: nat)
    requires IsRun(INITIAL, es, ss) && k < |es| && |ss[k].workers| < |ss[k + 1].workers|
    ensures forall w :: 0 <= w < |ss[k].workers| ==>
      ss[k].workers[w].phase.Cleaned? && ss[k].workers[w].resets == 1
    ensures ss[k].owner == None && !ss[k].closed
  {
    RunKeeps(INITIAL, es, ss, k);
    OnlyResumeSpawns(ss[k], es[k]);
  }

  lemma OnlyResumeSpawns(s: State, e: Event)
    requires Inv(s) && Enabled(s, e) && |s.workers| < |Next(s, e).workers|
    ensures forall w :: 0 <= w < |s.workers| ==> s.workers[w].phase.Cleaned? && s.workers[w].resets == 1
    ensures s.owner == None && !s.closed
  {
    hide CommandsOk, ResolvePending, Settle;
    match e
    case Drained(w) => ResolveFrame(s, w);
    case Dispatch(sent) =>
      SettleFrame(s.(commands := s.commands + [Command(s.process, None, false, Armed)],
                     pending := s.pending[|s.commands| := s.process]), |s.commands|, SendFailed);
    case Reply(w, id) => SettleFrame(s, id, Replied(w));
    case TimeoutDone(id) => SettleFrame(s, id, TimedOut);
    case AbortDone(id) => SettleFrame(s, id, Aborted);
    case _ =>
  }

  /** A command settles once: its outcome never changes again. */
  lemma SettlesOnce(s: State, e: Event, id: nat)
    requires Inv(s) && Enabled(s, e) && id < |s.commands| && s.commands[id].outcome.Some?
    ensures id < |Next(s, e).commands| && Next(s, e).commands[id].outcome == s.commands[id].outcome
  {
    assert CommandOk(s, id);
  }

  /** In every run a command is in the pending map exactly while unsettled, and a reply it was
      settled with came from the worker it was sent to. */
  lemma PendingIffUnsettled(es: seq<Event>, ss: seq<State>, k: nat, id: nat)
    requires IsRun(INITIAL, es, ss) && k < |ss| && id < |ss[k].commands|
    ensures id in ss[k].pending <==> ss[k].commands[id].outcome.None?
    ensures forall w: nat :: ss[k].commands[id].outcome == Some(Replied(w)) ==> ss[k].commands[id].child == Some(w)
  {
    RunKeeps(INITIAL, es, ss, k);
    assert CommandOk(ss[k], id);
  }

  /** A worker's exit settles exactly those of its pending commands that are not aborting,
      and none at all if a close asked to preserve them. */
  lemma ExitSettlesIff(s: State, w: nat, id: nat)
    requires Inv(s) && Enabled(s, Drained(w)) && id < |s.commands|
    requires s.commands[id].outcome.None? && s.commands[id].child == Some(w)
    ensures Next(s, Drained(w)).commands[id].outcome.Some? <==> !s.workers[w].preserves && !s.commands[id].aborting
  {
    assert CommandOk(s, id);
  }

  /** The worker's exit has been dealt with. */
  predicate Past(s: State, w: nat) {
    w < |s.workers| && (s.workers[w].phase.Resetting? || s.workers[w].phase.Cleaned?)
  }

  /** Its worker is past the exit and the command still is not settled. */
  predicate Outlives(s: State, id: nat) {
    && id < |s.commands| && s.commands[id].outcome.None?
    && s.commands[id].child.Some? && Past(s, s.commands[id].child.value)
  }

  lemma PastStays(s: State, e: Event, w: nat)
    requires Inv(s) && Enabled(s, e) && Past(s, w)
    ensures Past(Next(s, e), w)
  {
    hide CommandsOk, ResolvePending, Settle;
    match e
    case Drained(v) => ResolveFrame(s, v);
    case Dispatch(sent) =>
      SettleFrame(s.(commands := s.commands + [Command(s.process, None, false, Armed)],
                     pending := s.pending[|s.commands| := s.process]), |s.commands|, SendFailed);
    case Reply(v, id) => SettleFrame(s, id, Replied(v));
    case TimeoutDone(id) => SettleFrame(s, id, TimedOut);
    case AbortDone(id) => SettleFrame(s, id, Aborted);
    case _ =>
  }

  /** A command that outlives its worker is settled by the end of its own timeout or of its own
      abort, and by nothing else. */
  lemma OutlivesUntilOwnEnd(s: State, e: Event, id: nat)
    requires Inv(s) && Enabled(s, e) && Outlives(s, id)
    ensures var t := Next(s, e);
      match e
      case TimeoutDone(j) => if j == id then t.commands[id].outcome == Some(TimedOut) else Outlives(t, id)
      case AbortDone(j) => if j == id then t.commands[id].outcome == Some(Aborted) else Outlives(t, id)
      case _ => Outlives(t, id)
  {
    assert CommandOk(s, id);
    PastStays(s, e, s.commands[id].child.value);
    if e != TimeoutDone(id) && e != AbortDone(id) { StaysUnsettled(s, e, id); }
  }

  lemma StaysUnsettled(s: State, e: Event, id: nat)
    requires Inv(s) && Enabled(s, e) && Outlives(s, id) && e != TimeoutDone(id) && e != AbortDone(id)
    ensures var t := Next(s, e); id < |t.commands| && t.commands[id].outcome.None? && t.commands[id].child == s.commands[id].child
  {
    assert CommandOk(s, id);
  }

  /** Lifted to runs: without either of its own events the command stays unsettled. */
  lemma {:induction false} OutlivesThroughRun(s: State, es: seq<Event>, ss: seq<State>, id: nat, k: nat)
    requires Inv(s) && IsRun(s, es, ss) && k < |ss| && Outlives(s, id)
    requires forall i :: 0 <= i < k ==> es[i] != TimeoutDone(id) && es[i] != AbortDone(id)
    ensures Outlives(ss[k], id)
  {
    if k > 0 {
      OutlivesThroughRun(s, es, ss, id, k - 1);
      RunKeeps(s, es, ss, k - 1);
      hide Inv, Next, Enabled, Outlives;
      OutlivesUntilOwnEnd(ss[k - 1], es[k - 1], id);
    }
  }

  ghost predicate Reachable(t: State) {
    exists es, ss :: IsRun(INITIAL, es, ss) && ss[|es|] == t
  }

  lemma Reaches(s: State, e: Event, t: State)
    requires Reachable(s) && Enabled(s, e) && Next(s, e) == t
    ensures Reachable(t)
  {
    hide Enabled, Next;
    var es, ss :| IsRun(INITIAL, es, ss) && ss[|es|] == s;
    assert IsRun(INITIAL, es + [e], ss + [t]) && (ss + [t])[|es + [e]|] == t;
  }

  /** One worker, ready, and the commands sent to it. */
  function OneReady(commands: seq<Command>, pending: map<nat, Option<nat>>): State {
    State([Worker(Ready, false, 0)], Some(0), Some(0), Some(0), Idle, false, commands, pending)
  }

  const SENT := Command(Some(0), None, false, Armed)

  lemma WorkerGetsReady()
    ensures Reachable(OneReady([], map[]))
  {
    var none: seq<Event> := [];
    assert IsRun(INITIAL, none, [INITIAL]) && [INITIAL][|none|] == INITIAL;
    assert Reachable(INITIAL);
    hide Reachable;
    var s1 := INITIAL.(start := AwaitingBarrier(None));
    var s2 := State([Worker(Starting, false, 0)], Some(0), Some(0), Some(0), AwaitingReady(0), false, [], map[]);
    Reaches(INITIAL, BeginStart, s1);
    Reaches(s1, ResumeStart, s2);
    Reaches(s2, ReadyLine(0), OneReady([], map[]));
  }

  lemma TwoAreSent()
    ensures Reachable(OneReady([SENT, SENT], map[0 := Some(0), 1 := Some(0)]))
  {
    WorkerGetsReady();
    hide Reachable;
    Reaches(OneReady([], map[]), Dispatch(true), OneReady([SENT], map[0 := Some(0)]));
    Reaches(OneReady([SENT], map[0 := Some(0)]), Dispatch(true), OneReady([SENT, SENT], map[0 := Some(0), 1 := Some(0)]));
  }

  /** The timer of command 0 has fired, so its worker is being closed, with command 1 on it. */
  function Closing(phase: Phase, resets: nat): State {
    State([Worker(phase, true, resets)], None, Some(0), if resets == 0 then Some(0) else None, Idle, false,
          [SENT.(timer := Fired), SENT], map[0 := Some(0), 1 := Some(0)])
  }

  lemma WorkerIsClosed()
    ensures Reachable(Closing(Draining, 0))
  {
    TwoAreSent();
    hide Reachable;
    Reaches(OneReady([SENT, SENT], map[0 := Some(0), 1 := Some(0)]), Timeout(0), Closing(Ready, 0));
    Reaches(Closing(Ready, 0), Exit(0), Closing(Exited, 0));
    Reaches(Closing(Exited, 0), CloseEvent(0), Closing(Draining, 0));
  }

  /** The first of two commands times out. When its worker is gone and the timeout is over, the
      second is still unsettled, neither aborting nor timed out. */
  lemma TimeoutStrandsOthers() returns (t: State)
    ensures Reachable(t) && |t.commands| == 2 && t.commands[0].outcome == Some(TimedOut)
    ensures Outlives(t, 1) && t.commands[1].timer.Armed? && !t.commands[1].aborting && t.IsClean(t.commands[1].child)
  {
    WorkerIsClosed();
    hide Reachable;
    var s := Closing(Cleaned, 1);
    t := Next(s, TimeoutDone(0));
    Reaches(Closing(Draining, 0), Drained(0), Closing(Resetting, 1));
    Reaches(Closing(Resetting, 1), CleanupDone(0), s);
    Reaches(s, TimeoutDone(0), t);
  }

  // ---- every command can settle ----

  function Rank(p: Phase): nat {
    match p
    case Starting => 4 case Ready => 4 case Exited => 3 case Draining => 2 case Resetting => 1 case Cleaned => 0
  }

  function Advance(s: State, w: nat): Event
    requires w < |s.workers|
  {
    match s.workers[w].phase
    case Starting => Exit(w)
    case Ready => Exit(w)
    case Exited => CloseEvent(w)
    case Draining => Drained(w)
    case _ => CleanupDone(w)
  }

  /** The cleanup of a worker that is made to exit runs to its end, and only settles commands. */
  lemma {:induction false} CleanupFinishes(s: State, w: nat) returns (es: seq<Event>, ss: seq<State>)
    requires Inv(s) && w < |s.workers|
    ensures IsRun(s, es, ss) && Inv(ss[|es|]) && ss[|es|].IsClean(Some(w))
    ensures OnlySettled(s, ss[|es|])
    decreases Rank(s.workers[w].phase)
  {
    if s.workers[w].phase.Cleaned? {
      es, ss := [], [s];
    } else {
      var e := Advance(s, w);
      AdvanceKeepsCommands(s, w);
      EventKeeps(s, e);
      hide Inv, Next, Enabled, Advance;
      var es', ss' := CleanupFinishes(Next(s, e), w);
      es, ss := [e] + es', [s] + ss';
    }
  }

  /** Commands keep all but their outcome, and an outcome once set. */
  ghost predicate OnlySettled(s: State, t: State) {
    && |t.commands| == |s.commands|
    && forall id :: 0 <= id < |s.commands| ==>
         && t.commands[id] == s.commands[id].(outcome := t.commands[id].outcome)
         && (s.commands[id].outcome.Some? ==> t.commands[id] == s.commands[id])
  }

  lemma ResolveOnlySettles(s: State, w: nat)
    requires CommandsOk(s)
    ensures OnlySettled(s, ResolvePending(s, w))
  {
    var t := ResolvePending(s, w);
    forall id | 0 <= id < |s.commands| ensures
      && t.commands[id] == s.commands[id].(outcome := t.commands[id].outcome)
      && (s.commands[id].outcome.Some? ==> t.commands[id] == s.commands[id])
    {
      assert CommandOk(s, id);
    }
  }

  lemma AdvanceKeepsCommands(s: State, w: nat)
    requires Inv(s) && w < |s.workers| && !s.workers[w].phase.Cleaned?
    ensures Enabled(s, Advance(s, w))
    ensures var t := Next(s, Advance(s, w));
      OnlySettled(s, t) && w < |t.workers| && Rank(t.workers[w].phase) < Rank(s.workers[w].phase)
  {
    ResolveOnlySettles(s, w);
    ResolveFrame(s, w);
    hide ResolvePending, CommandsOk;
  }

  /** Every unsettled command of every reachable state can still settle: by its timer, or by the
      end of the abort in progress, once its worker has been made to exit and cleaned up. */
  lemma EveryCommandCanSettle(s: State, id: nat) returns (es: seq<Event>, ss: seq<State>)
    requires Inv(s) && id < |s.commands|
    ensures IsRun(s, es, ss) && |ss| == |es| + 1 && id < |ss[|es|].commands| && ss[|es|].commands[id].outcome.Some?
  {
    if s.commands[id].outcome.Some? {
      return [], [s];
    }
    assert CommandOk(s, id);
    hide Inv, Next, IsRun;
    if s.commands[id].timer.Armed? {
      EventKeeps(s, Timeout(id));
      TimeoutFires(s, id);
      var es', ss' := CleanupSettles(Next(s, Timeout(id)), id);
      RunBefore(s, Timeout(id), es', ss');
      es, ss := [Timeout(id)] + es', [s] + ss';
    } else {
      es, ss := CleanupSettles(s, id);
    }
  }

  lemma RunBefore(s: State, e: Event, es: seq<Event>, ss: seq<State>)
    requires Enabled(s, e) && IsRun(Next(s, e), es, ss)
    ensures IsRun(s, [e] + es, [s] + ss) && ([s] + ss)[|[e] + es|] == ss[|es|]
  {
    hide Enabled, Next;
  }

  lemma TimeoutFires(s: State, id: nat)
    requires Inv(s) && Enabled(s, Timeout(id))
    ensures var t := Next(s, Timeout(id));
      id < |t.commands| && t.commands[id].outcome.None? && t.commands[id].timer.Fired?
  {
  }

  /** A fired timer or an abort in progress settles its command after the worker's cleanup. */
  lemma CleanupSettles(s: State, id: nat) returns (es: seq<Event>, ss: seq<State>)
    requires Inv(s) && id < |s.commands| && s.commands[id].outcome.None?
    requires s.commands[id].timer.Fired? || s.commands[id].aborting
    ensures IsRun(s, es, ss) && |ss| == |es| + 1 && id < |ss[|es|].commands| && ss[|es|].commands[id].outcome.Some?
  {
    assert CommandOk(s, id);
    es, ss := CleanupFinishes(s, s.commands[id].child.value);
    var u := ss[|es|];
    if u.commands[id].outcome.None? {
      var last := if u.commands[id].timer.Fired? then TimeoutDone(id) else AbortDone(id);
      es, ss := es + [last], ss + [Next(u, last)];
    }
  }

  // ---- every run that helps a command settles it ----

  /** An event of the command's own timeout or abort, or, once one of them has closed its worker, of
      the worker's exit and cleanup. */
  ghost predicate Helps(s: State, e: Event, id: nat)
    requires id < |s.commands|
  {
    var c := s.commands[id];
    && c.outcome.None?
    && match e
       case Timeout(i) => i == id && !c.aborting
       case TimeoutDone(i) => i == id
       case AbortDone(i) => i == id
       case Exit(w) => c.child == Some(w) && (c.timer.Fired? || c.aborting)
       case CloseEvent(w) => c.child == Some(w) && (c.timer.Fired? || c.aborting)
       case Drained(w) => c.child == Some(w) && (c.timer.Fired? || c.aborting)
       case CleanupDone(w) => c.child == Some(w) && (c.timer.Fired? || c.aborting)
       case _ => false
  }

  /** How many such events a command still needs at most. */
  ghost function Need(s: State, id: nat): nat
    requires id < |s.commands|
  {
    var c := s.commands[id];
    if c.outcome.Some? then 0
    else 1 + RankOf(s, c.child) + if c.timer.Armed? && !c.aborting then 1 else 0
  }

  ghost function RankOf(s: State, child: Option<nat>): nat {
    if child.Some? && child.value < |s.workers| then Rank(s.workers[child.value].phase) else 0
  }

  /** No event takes a worker back. */
  lemma RankNeverRises(s: State, e: Event, w: nat)
    requires Inv(s) && Enabled(s, e) && w < |s.workers|
    ensures RankOf(Next(s, e), Some(w)) <= RankOf(s, Some(w))
    ensures e in {Exit(w), CloseEvent(w), Drained(w), CleanupDone(w)} ==> RankOf(Next(s, e), Some(w)) < RankOf(s, Some(w))
  {
    hide CommandsOk, OneWorker, Owned, ResolvePending, Settle;
    match e
    case Drained(v) => ResolveFrame(s, v);
    case Dispatch(sent) =>
      SettleFrame(s.(commands := s.commands + [Command(s.process, None, false, Armed)],
                     pending := s.pending[|s.commands| := s.process]), |s.commands|, SendFailed);
    case Reply(v, id) => SettleFrame(s, id, Replied(v));
    case TimeoutDone(id) => SettleFrame(s, id, TimedOut);
    case AbortDone(id) => SettleFrame(s, id, Aborted);
    case _ =>
  }

  /** An unsettled command keeps its worker, and its timer is not armed again. */
  lemma CommandMoves(s: State, e: Event, id: nat)
    requires Inv(s) && Enabled(s, e) && id < |s.commands|
    ensures var c := s.commands[id];
      && id < |Next(s, e).commands|
      && var d := Next(s, e).commands[id];
      && d.child == c.child && (c.outcome.Some? ==> d.outcome.Some?)
      && (d.timer.Armed? && !d.aborting ==> c.timer.Armed? && !c.aborting)
  {
    assert CommandOk(s, id);
    hide CommandsOk, OneWorker, Owned;
  }

  lemma OwnEventMoves(s: State, e: Event, id: nat)
    requires Enabled(s, e) && id < |s.commands| && e in {Timeout(id), TimeoutDone(id), AbortDone(id)}
    ensures id < |Next(s, e).commands|
    ensures var d := Next(s, e).commands[id]; if e.Timeout? then d.timer.Fired? else d.outcome.Some?
  {
  }

  /** What a command needs never grows, and each event that helps it uses some of it up. */
  lemma NeedIsUsed(s: State, e: Event, id: nat)
    requires Inv(s) && Enabled(s, e) && id < |s.commands|
    ensures id < |Next(s, e).commands| && Need(Next(s, e), id) <= Need(s, id)
    ensures Helps(s, e, id) ==> Need(Next(s, e), id) < Need(s, id)
  {
    CommandMoves(s, e, id);
    var c := s.commands[id];
    assert CommandOk(s, id);
    if c.outcome.None? {
      RankNeverRises(s, e, c.child.value);
      if e in {Timeout(id), TimeoutDone(id), AbortDone(id)} { OwnEventMoves(s, e, id); }
      hide Inv, Next, Rank, RankOf;
      assert e == Timeout(id) ==> c.timer.Armed?;
    }
  }

  /** While a command is unsettled some event that helps it can happen. */
  lemma SomeHelps(s: State, id: nat) returns (e: Event)
    requires Inv(s) && id < |s.commands| && s.commands[id].outcome.None?
    ensures Enabled(s, e) && Helps(s, e, id)
  {
    assert CommandOk(s, id);
    var c := s.commands[id];
    var w := c.child.value;
    if c.timer.Armed? && !c.aborting {
      e := Timeout(id);
    } else if !s.workers[w].phase.Cleaned? {
      e := Advance(s, w);
    } else {
      e := if c.timer.Fired? then TimeoutDone(id) else AbortDone(id);
    }
  }

  /** The events of a run that help the command. */
  ghost function Helped(es: seq<Event>, ss: seq<State>, id: nat): nat
    requires |ss| == |es| + 1 && forall k :: 0 <= k < |ss| ==> id < |ss[k].commands|
  {
    if es == [] then 0 else (if Helps(ss[0], es[0], id) then 1 else 0) + Helped(es[1..], ss[1..], id)
  }

  lemma {:induction false} CommandsStay(s: State, es: seq<Event>, ss: seq<State>, id: nat, k: nat)
    requires Inv(s) && IsRun(s, es, ss) && id < |s.commands| && k < |ss|
    ensures id < |ss[k].commands|
  {
    if k > 0 {
      CommandsStay(s, es, ss, id, k - 1);
      RunKeeps(s, es, ss, k - 1);
      hide Inv, Next, Enabled;
      NeedIsUsed(ss[k - 1], es[k - 1], id);
    }
  }

  lemma {:induction false} NeedPaysForHelp(s: State, es: seq<Event>, ss: seq<State>, id: nat)
    requires Inv(s) && IsRun(s, es, ss) && forall k :: 0 <= k < |ss| ==> id < |ss[k].commands|
    ensures Helped(es, ss, id) + Need(ss[|es|], id) <= Need(s, id)
    decreases |es|
  {
    if es != [] {
      EventKeeps(s, es[0]);
      NeedIsUsed(s, es[0], id);
      hide Inv, Next, Enabled, Need, Helps;
      assert IsRun(ss[1], es[1..], ss[1..]);
      assert ss[1..][|es[1..]|] == ss[|es|];
      NeedPaysForHelp(ss[1], es[1..], ss[1..], id);
    }
  }

  lemma NeedIsSmall(s: State, id: nat)
    requires id < |s.commands|
    ensures Need(s, id) <= 6 && (Need(s, id) == 0 <==> s.commands[id].outcome.Some?)
  {
  }

  /** At most six events of a run, whatever else happens in it, help a command. A run that ends
      with none of them possible has settled it, and so has one with as many as it needed. */
  lemma EveryHelpingRunSettles(s: State, es: seq<Event>, ss: seq<State>, id: nat)
    requires Inv(s) && IsRun(s, es, ss) && id < |s.commands|
    ensures forall k :: 0 <= k < |ss| ==> id < |ss[k].commands|
    ensures Helped(es, ss, id) <= Need(s, id) <= 6
    ensures var t := ss[|es|];
      (forall e :: Enabled(t, e) ==> !Helps(t, e, id)) || Helped(es, ss, id) == Need(s, id) ==> t.commands[id].outcome.Some?
  {
    forall k | 0 <= k < |ss| ensures id < |ss[k].commands| { CommandsStay(s, es, ss, id, k); }
    NeedPaysForHelp(s, es, ss, id);
    RunKeeps(s, es, ss, |es|);
    NeedIsSmall(s, id);
    NeedIsSmall(ss[|es|], id);
    hide Inv, Next, Enabled, Need, Helps, Helped;
    if ss[|es|].commands[id].outcome.None? { var e := SomeHelps(ss[|es|], id); }
  }

  lemma ResolveNone(s: State, w: nat)
    ensures ResolveFirst(s, w, 0) == s
  {
    var t := ResolveFirst(s, w, 0);
    assert t.commands == s.commands && t.pending == s.pending;
  }

  lemma ResolveNext(s: State, w: nat, n: nat)
    requires n < |s.commands|
    ensures var t := ResolveFirst(s, w, n);
      && t.commands[n] == s.commands[n] && (ExitSettles(t, w, n) <==> ExitSettles(s, w, n))
      && ResolveFirst(s, w, n + 1) ==
         if ExitSettles(s, w, n)
         then t.(commands := t.commands[n := t.commands[n].(outcome := Some(WorkerExited))], pending := t.pending - {n})
         else t
  {
    var t, u := ResolveFirst(s, w, n), ResolveFirst(s, w, n + 1);
    if ExitSettles(s, w, n) {
      assert u.commands == t.commands[n := t.commands[n].(outcome := Some(WorkerExited))];
      assert u.pending == t.pending - {n};
    } else {
      assert u.commands == t.commands;
      assert u.pending == t.pending;
    }
  }

  lemma TimerKeeps(s: State, id: nat)
    requires Inv(s) && id < |s.commands|
    ensures Inv(s.(commands := s.commands[id := s.commands[id].(timer := Fired)]))
  {
    MarkKeeps(s, id, s.commands[id].(timer := Fired));
    SameWorkersKeeps(s, s.(commands := s.commands[id := s.commands[id].(timer := Fired)]));
  }

  lemma AbortMarkKeeps(s: State, id: nat)
    requires Inv(s) && id < |s.commands|
    ensures var c := s.commands[id];
      Inv(s.(commands := s.commands[id := c.(aborting := true, timer := if c.timer.Armed? then Cleared else c.timer)]))
  {
    var c := s.commands[id].(aborting := true, timer := if s.commands[id].timer.Armed? then Cleared else s.commands[id].timer);
    MarkKeeps(s, id, c);
    SameWorkersKeeps(s, s.(commands := s.commands[id := c]));
  }

  // ---- the client object ----

  class WorkerHost {
    var workers: seq<Worker>
    var process: Option<nat>
    var workerCloseBarrier: Option<nat>
    var vaultRedactionOwner: Option<nat>
    var start: Start
    var closed: bool
    var commands: seq<Command>
    var pending: map<nat, Option<nat>>

    ghost function Model(): State
      reads this
    {
      State(workers, process, workerCloseBarrier, vaultRedactionOwner, start, closed, commands, pending)
    }

    ghost predicate Valid()
      reads this
    {
      Inv(Model())
    }

    constructor ()
      ensures Valid() && Model() == INITIAL
    {
      workers, process, workerCloseBarrier, vaultRedactionOwner := [], None, None, None;
      start, closed, commands, pending := Idle, false, [], map[];
    }

    method IsRunning() returns (r: bool)
      ensures r == Model().Running()
      ensures r <==> process.Some? && process.value < |workers| && workers[process.value].phase in {Starting, Ready}
    {
      r := process.Some? && process.value < |workers| && workers[process.value].Alive();
    }

    /** _prepare, and _start up to its wait for the barrier: a caller that comes while a
        preparation is in flight shares it. */
    method BeginStarting()
      requires Valid()
      modifies this`start
      ensures Valid() && Model() == Next(old(Model()), BeginStart)
      ensures start == if old(start).Idle? && !old(Model().Running()) && !closed then AwaitingBarrier(workerCloseBarrier) else old(start)
    {
      EventKeeps(Model(), BeginStart);
      if !start.Idle? { return; }
      var running := IsRunning();
      if running || closed { return; }
      start := AwaitingBarrier(workerCloseBarrier);
    }

    /** _start after the barrier: look again, then spawn. */
    method SpawnWorker()
      requires Valid() && start.AwaitingBarrier? && Model().IsClean(start.barrier)
      modifies this`workers, this`process, this`workerCloseBarrier, this`vaultRedactionOwner, this`start
      ensures Valid() && Model() == Next(old(Model()), ResumeStart)
      ensures old(Model().Running()) || closed ==>
        && start.Idle? && workers == old(workers) && process == old(process)
        && workerCloseBarrier == old(workerCloseBarrier) && vaultRedactionOwner == old(vaultRedactionOwner)
      ensures !old(Model().Running()) && !closed ==> var child := |old(workers)|;
        && workers == old(workers) + [Worker(Starting, false, 0)] && start == AwaitingReady(child)
        && process == workerCloseBarrier == vaultRedactionOwner == Some(child)
    {
      EventKeeps(Model(), ResumeStart);
      var running := IsRunning();
      if running || closed {
        start := Idle;
        return;
      }
      var child := |workers|;
      workers := workers + [Worker(Starting, false, 0)];
      process, workerCloseBarrier, vaultRedactionOwner := Some(child), Some(child), Some(child);
      start := AwaitingReady(child);
    }

    /** The ready line of the handshake; it ends the start that waits for it. */
    method HandleReady(child: nat)
      requires Valid() && child < |workers| && workers[child].phase.Starting?
      modifies this`workers, this`start
      ensures Valid() && Model() == Next(old(Model()), ReadyLine(child))
      ensures workers == old(workers)[child := old(workers)[child].(phase := Ready)]
      ensures start == if old(start) == AwaitingReady(child) then Idle else old(start)
    {
      EventKeeps(Model(), ReadyLine(child));
      workers := workers[child := workers[child].(phase := Ready)];
      if start == AwaitingReady(child) { start := Idle; }
    }

    /** The handshake took too long: the worker is detached, and killed. */
    method AbandonStart()
      requires Valid() && start.AwaitingReady?
      modifies this`process, this`start
      ensures Valid() && Model() == Next(old(Model()), StartTimeout)
      ensures start.Idle? && process == if old(process) == Some(old(start).worker) then None else old(process)
    {
      EventKeeps(Model(), StartTimeout);
      if process == Some(start.worker) { process := None; }
      start := Idle;
    }

    /** The `exit` listener. */
    method HandleExit(child: nat)
      requires Valid() && child < |workers| && workers[child].phase in {Starting, Ready}
      modifies this`workers, this`process
      ensures Valid() && Model() == Next(old(Model()), Exit(child))
      ensures workers == old(workers)[child := old(workers)[child].(phase := Exited)]
      ensures process == if old(process) == Some(child) then None else old(process)
    {
      EventKeeps(Model(), Exit(child));
      workers := workers[child := workers[child].(phase := Exited)];
      if process == Some(child) { process := None; }
    }

    /** The `close` listener up to its wait for the RPC tasks: a start that waits for the worker fails. */
    method HandleClose(child: nat)
      requires Valid() && child < |workers| && workers[child].phase.Exited?
      modifies this`workers, this`start
      ensures Valid() && Model() == Next(old(Model()), CloseEvent(child))
      ensures workers == old(workers)[child := old(workers)[child].(phase := Draining)]
      ensures start == if old(start) == AwaitingReady(child) then Idle else old(start)
    {
      EventKeeps(Model(), CloseEvent(child));
      workers := workers[child := workers[child].(phase := Draining)];
      if start == AwaitingReady(child) { start := Idle; }
    }

    /** The commands that the exit of the worker settles: pending on it and not aborting. */
    ghost predicate Lost(child: nat, id: nat)
      reads this
    {
      id < |commands| && id in pending && pending[id] == Some(child) && !commands[id].aborting
    }

    /** _resolvePendingForWorkerExit: settle the worker's commands, in the order they were sent. */
    method ResolvePendingForWorkerExit(child: nat)
      requires Valid()
      modifies this`commands, this`pending
      ensures Model() == ResolvePending(old(Model()), child)
      ensures |commands| == |old(commands)|
      ensures forall id :: 0 <= id < |commands| ==>
        commands[id] == if old(Lost(child, id)) then old(commands)[id].(outcome := Some(WorkerExited)) else old(commands)[id]
      ensures forall id :: id in pending <==> id in old(pending) && !old(Lost(child, id))
      ensures forall id :: id in pending ==> pending[id] == old(pending)[id]
    {
      ghost var before := Model();
      ResolveNone(before, child);
      for id := 0 to |commands|
        invariant Model() == ResolveFirst(before, child, id) && |commands| == |before.commands|
      {
        ResolveNext(before, child, id);
        if id in pending && pending[id] == Some(child) && !commands[id].aborting {
          commands := commands[id := commands[id].(outcome := Some(WorkerExited))];
          pending := pending - {id};
        }
      }
    }

    /** _resetVaultRedactionForWorker */
    method ResetVaultRedaction(child: nat)
      requires child < |workers|
      modifies this`workers, this`vaultRedactionOwner
      ensures Model() == ResetRedaction(old(Model()), child)
      ensures vaultRedactionOwner == if old(vaultRedactionOwner) == Some(child) then None else old(vaultRedactionOwner)
      ensures workers == if old(vaultRedactionOwner) != Some(child) then old(workers)
        else old(workers)[child := old(workers)[child].(resets := old(workers)[child].resets + 1)]
    {
      if vaultRedactionOwner != Some(child) { return; }
      vaultRedactionOwner := None;
      workers := workers[child := workers[child].(resets := workers[child].resets + 1)];
    }

    /** The `close` listener once the RPC tasks are drained. */
    method CleanUpAfterDrain(child: nat)
      requires Valid() && child < |workers| && workers[child].phase.Draining?
      modifies this`workers, this`vaultRedactionOwner, this`commands, this`pending
      ensures Valid() && Model() == Next(old(Model()), Drained(child))
      ensures vaultRedactionOwner == None
      ensures workers == old(workers)[child := Worker(Resetting, old(workers)[child].preserves, 1)]
      ensures old(workers)[child].preserves ==> commands == old(commands) && pending == old(pending)
      ensures !old(workers)[child].preserves ==>
        && |commands| == |old(commands)|
        && (forall id :: 0 <= id < |commands| ==>
              commands[id] == if old(Lost(child, id)) then old(commands)[id].(outcome := Some(WorkerExited)) else old(commands)[id])
        && (forall id :: id in pending <==> id in old(pending) && !old(Lost(child, id)))
    {
      EventKeeps(Model(), Drained(child));
      ResolveFrame(Model(), child);
      if !workers[child].preserves {
        ResolvePendingForWorkerExit(child);
      }
      ResetVaultRedaction(child);
      workers := workers[child := workers[child].(phase := Resetting)];
    }

    /** The end of the cleanup: the worker's close promise resolves. */
    method ResolveWorkerClose(child: nat)
      requires Valid() && child < |workers| && workers[child].phase.Resetting?
      modifies this`workers
      ensures Valid() && Model() == Next(old(Model()), CleanupDone(child))
      ensures workers == old(workers)[child := old(workers)[child].(phase := Cleaned)]
    {
      EventKeeps(Model(), CleanupDone(child));
      workers := workers[child := workers[child].(phase := Cleaned)];
    }

    /** close() up to its wait for the worker. */
    method CloseWorker(requestedChild: Option<nat>, preservePending: bool, restart: bool)
      requires Valid() && (requestedChild.Some? ==> requestedChild.value < |workers|)
      modifies this`workers, this`process, this`closed
      ensures Valid() && Model() == Next(old(Model()), Close(requestedChild, preservePending, restart))
      ensures Model() == Closed(old(Model()), requestedChild, preservePending, restart)
      ensures closed == (old(closed) || !restart)
      ensures process == if requestedChild.None? || requestedChild == old(process) then None else old(process)
      ensures |workers| == |old(workers)|
      ensures forall w :: 0 <= w < |workers| ==>
        workers[w] == if preservePending && (requestedChild == Some(w) || (requestedChild.None? && old(process) == Some(w)))
        then old(workers)[w].(preserves := true) else old(workers)[w]
    {
      EventKeeps(Model(), Close(requestedChild, preservePending, restart));
      if !restart { closed := true; }
      var child := if requestedChild.Some? then requestedChild else process;
      var closesActiveWorker := requestedChild.None? || process == child;
      if closesActiveWorker { process := None; }
      if child.None? { return; }
      if preservePending && child.value < |workers| {
        workers := workers[child.value := workers[child.value].(preserves := true)];
      }
    }

    /** The end of close(), after its wait: nothing is left to reset. */
    method FinishClose(child: nat)
      requires Valid() && child < |workers| && workers[child].phase.Cleaned?
      modifies this`workers, this`vaultRedactionOwner
      ensures Valid() && Model() == Next(old(Model()), CloseReturns(child))
      ensures workers == old(workers) && vaultRedactionOwner == old(vaultRedactionOwner)
    {
      EventKeeps(Model(), CloseReturns(child));
      ResetVaultRedaction(child);
    }

    /** done(): settle a command unless it is settled. */
    method Done(id: nat, outcome: Outcome)
      requires id < |commands|
      modifies this`commands, this`pending
      ensures Model() == Settle(old(Model()), id, outcome)
      ensures old(commands)[id].outcome.Some? ==> commands == old(commands) && pending == old(pending)
      ensures old(commands)[id].outcome.None? ==>
        commands == old(commands)[id := old(commands)[id].(outcome := Some(outcome))] && pending == old(pending) - {id}
    {
      if commands[id].outcome.Some? { return; }
      commands := commands[id := commands[id].(outcome := Some(outcome))];
      pending := pending - {id};
    }

    /** _dispatch up to its wait; the write to the worker may throw. */
    method SendCommand(sent: bool) returns (id: nat)
      requires Valid() && (sent ==> Model().Running())
      modifies this`commands, this`pending
      ensures Valid() && Model() == Next(old(Model()), Dispatch(sent)) && id == |old(commands)|
      ensures commands == old(commands) + [Command(process, if sent then None else Some(SendFailed), false, Armed)]
      ensures pending == if sent then old(pending)[id := process] else old(pending)
    {
      EventKeeps(Model(), Dispatch(sent));
      id := |commands|;
      assert id !in pending;
      commands := commands + [Command(process, None, false, Armed)];
      pending := pending[id := process];
      if !sent {
        Done(id, SendFailed);
        assert pending == old(pending);
      }
    }

    /** A result line of a worker: it settles a command that is pending on this worker and does not
        abort, and changes nothing else. */
    method HandleReply(child: nat, id: nat)
      requires Valid() && child < |workers| && workers[child].phase in {Starting, Ready, Exited} && id < |commands|
      modifies this`commands, this`pending
      ensures Valid() && Model() == Next(old(Model()), Reply(child, id))
      ensures |commands| == |old(commands)|
      ensures old(Lost(child, id)) ==> commands[id] == old(commands)[id].(outcome := Some(Replied(child))) && id !in pending
      ensures !old(Lost(child, id)) ==> commands[id] == old(commands)[id] && (id in pending <==> id in old(pending))
      ensures forall i :: 0 <= i < |commands| && i != id ==> commands[i] == old(commands)[i]
      ensures forall i :: i != id ==> (i in pending <==> i in old(pending))
      ensures forall i :: i in pending ==> pending[i] == old(pending)[i]
    {
      EventKeeps(Model(), Reply(child, id));
      assert CommandOk(Model(), id);
      if id in pending && pending[id] == Some(child) && !commands[id].aborting {
        Done(id, Replied(child));
      }
    }

    /** The timer of a command: close its worker, leaving other commands pending. */
    method HandleTimeout(id: nat)
      requires Valid() && id < |commands| && commands[id].outcome.None? && commands[id].timer.Armed?
      modifies this
      ensures Valid() && Model() == Next(old(Model()), Timeout(id))
      ensures commands == old(commands)[id := old(commands)[id].(timer := Fired)] && pending == old(pending)
      ensures commands[id].child.Some? && commands[id].child.value < |workers|
      ensures workers == old(workers)[commands[id].child.value := old(workers)[commands[id].child.value].(preserves := true)]
      ensures process == if old(process) == commands[id].child then None else old(process)
      ensures closed == old(closed) && start == old(start)
      ensures workerCloseBarrier == old(workerCloseBarrier) && vaultRedactionOwner == old(vaultRedactionOwner)
    {
      EventKeeps(Model(), Timeout(id));
      assert CommandOk(Model(), id);
      commands := commands[id := commands[id].(timer := Fired)];
      TimerKeeps(old(Model()), id);
      CloseWorker(commands[id].child, true, true);
    }

    /** The wait for the closed worker is over: the command has timed out. */
    method FinishTimeout(id: nat)
      requires Valid() && id < |commands| && commands[id].timer.Fired? && Model().IsClean(commands[id].child)
      modifies this`commands, this`pending
      ensures Valid() && Model() == Next(old(Model()), TimeoutDone(id))
      ensures commands == if old(commands)[id].outcome.Some? then old(commands)
        else old(commands)[id := old(commands)[id].(outcome := Some(TimedOut))]
      ensures pending == old(pending) - {id}
    {
      EventKeeps(Model(), TimeoutDone(id));
      assert CommandOk(Model(), id);
      Done(id, TimedOut);
    }

    /** The abort listener: replies are ignored from here on, and the worker is stopped. */
    method HandleAbort(id: nat)
      requires Valid() && id < |commands| && commands[id].outcome.None? && !commands[id].aborting
      modifies this
      ensures Valid() && Model() == Next(old(Model()), Abort(id))
      ensures pending == old(pending) && workers == old(workers)
      ensures commands == old(commands)[id := old(commands)[id].(aborting := true,
        timer := if old(commands)[id].timer.Armed? then Cleared else old(commands)[id].timer)]
      ensures process == if old(process) == commands[id].child then None else old(process)
      ensures closed == old(closed) && start == old(start)
      ensures workerCloseBarrier == old(workerCloseBarrier) && vaultRedactionOwner == old(vaultRedactionOwner)
    {
      EventKeeps(Model(), Abort(id));
      assert CommandOk(Model(), id);
      commands := commands[id := commands[id].(aborting := true,
        timer := if commands[id].timer.Armed? then Cleared else commands[id].timer)];
      AbortMarkKeeps(old(Model()), id);
      CloseWorker(commands[id].child, false, true);
    }

    /** The worker of the aborted command is gone: the command ends as aborted. */
    method FinishAbort(id: nat)
      requires Valid() && id < |commands| && commands[id].aborting && Model().IsClean(commands[id].child)
      modifies this`commands, this`pending
      ensures Valid() && Model() == Next(old(Model()), AbortDone(id))
      ensures commands == if old(commands)[id].outcome.Some? then old(commands)
        else old(commands)[id := old(commands)[id].(outcome := Some(Aborted))]
      ensures pending == old(pending) - {id}
    {
      EventKeeps(Model(), AbortDone(id));
      assert CommandOk(Model(), id);
      Done(id, Aborted);
    }
  }
}
