/** The job queue of one browser (src/client.ts, _enqueue and _enqueueExclusive).

    Jobs are numbered in the order they were enqueued. A job waits for the
    promises captured when it was enqueued: the tail of its lane and the
    exclusive gate, or, for an exclusive job, the gate and the tail of every
    lane then present. A lane's chained promise and an exclusive job's gate
    both settle when the job settles, whether it resolves or rejects. */
module Lanes {

  type Lane = string

  datatype Kind = Shared(lane: Lane) | Exclusive
  datatype Status = Waiting | Running | Resolved | Rejected {
    predicate Started() { !Waiting? }
    predicate Settled() { Resolved? || Rejected? }
  }
  datatype Job = Job(kind: Kind, deps: set<nat>, status: Status)
  datatype Gate = Open | HeldBy(job: nat)

  /** queues maps a lane to the job whose chained promise is its tail. */
  datatype State = State(jobs: seq<Job>, queues: map<Lane, nat>, gate: Gate) {
    ghost predicate Settled(i: nat) { i < |jobs| && jobs[i].status.Settled() }
    ghost predicate Started(i: nat) { i < |jobs| && jobs[i].status.Started() }

    /** Two jobs that must never overlap: same lane, or one of them exclusive. */
    ghost predicate Conflict(i: nat, j: nat)
      requires i < |jobs| && j < |jobs|
    {
      jobs[i].kind.Exclusive? || jobs[j].kind.Exclusive? || jobs[i].kind == jobs[j].kind
    }
  }

  const INITIAL := State([], map[], Open)

  datatype Event =
    | Enqueue(lane: Lane)
    | EnqueueExclusive
    | Start(job: nat)
    | Finish(job: nat, ok: bool)
    | DropLane(lane: Lane)

  // ---- what each event does ----

  function GateDeps(s: State): set<nat> {
    if s.gate.HeldBy? then {s.gate.job} else {}
  }

  function Enqueued(s: State, lane: Lane): State {
    var tail := if lane in s.queues then {s.queues[lane]} else {};
    State(s.jobs + [Job(Shared(lane), tail + GateDeps(s), Waiting)], s.queues[lane := |s.jobs|], s.gate)
  }

  function EnqueuedExclusive(s: State): State {
    State(s.jobs + [Job(Exclusive, s.queues.Values + GateDeps(s), Waiting)], s.queues, HeldBy(|s.jobs|))
  }

  function WithStatus(s: State, i: nat, status: Status): State
    requires i < |s.jobs|
  {
    s.(jobs := s.jobs[i := s.jobs[i].(status := status)])
  }

  predicate Enabled(s: State, e: Event) {
    match e
    case Enqueue(_) => true
    case EnqueueExclusive => true
    case Start(i) =>
      i < |s.jobs| && s.jobs[i].status.Waiting?
      && forall d :: d in s.jobs[i].deps ==> d < |s.jobs| && s.jobs[d].status.Settled()
    case Finish(i, _) => i < |s.jobs| && s.jobs[i].status.Running?
    case DropLane(lane) =>
      lane in s.queues && s.queues[lane] < |s.jobs| && s.jobs[s.queues[lane]].status.Settled()
  }

  function Next(s: State, e: Event): State
    requires Enabled(s, e)
  {
    match e
    case Enqueue(lane) => Enqueued(s, lane)
    case EnqueueExclusive => EnqueuedExclusive(s)
    case Start(i) => WithStatus(s, i, Running)
    case Finish(i, ok) => WithStatus(s, i, if ok then Resolved else Rejected)
    case DropLane(lane) => s.(queues := s.queues - {lane})
  }

  /** One interleaving: the states ss passed through by the events es from state s. */
  ghost predicate IsRun(s: State, es: seq<Event>, ss: seq<State>) {
    && |ss| == |es| + 1 && ss[0] == s
    && forall k :: 0 <= k < |es| ==> Enabled(ss[k], es[k]) && ss[k + 1] == Next(ss[k], es[k])
  }

  // ---- the invariant ----

  /** An earlier conflicting job is settled, or the captured dependencies lead to it. */
  ghost predicate Covered(s: State, i: nat, j: nat)
    requires i < |s.jobs| && j < |s.jobs|
  {
    || s.Settled(i)
    || exists d :: d in s.jobs[j].deps && i <= d < |s.jobs| && (d == i || s.Conflict(i, d))
  }

  /** Dependencies point to earlier enqueues of jobs that must not overlap this one. */
  ghost predicate DepsEarlier(s: State) {
    forall j, d :: 0 <= j < |s.jobs| && d in s.jobs[j].deps ==> d < j && s.Conflict(d, j)
  }

  /** A job starts only after all it depends on has settled. */
  ghost predicate StartedAfterDeps(s: State) {
    forall j, d :: 0 <= j < |s.jobs| && s.Started(j) && d in s.jobs[j].deps ==> s.Settled(d)
  }

  ghost predicate AllCovered(s: State) {
    forall i, j {:trigger Covered(s, i, j)} :: 0 <= i < j < |s.jobs| && s.Conflict(i, j) ==> Covered(s, i, j)
  }

  /** A lane's tail is its last job; an absent lane has no unfinished job. */
  ghost predicate QueuesHoldTails(s: State) {
    && (forall lane :: lane in s.queues ==> s.queues[lane] < |s.jobs| && s.jobs[s.queues[lane]].kind == Shared(lane))
    && (forall i :: 0 <= i < |s.jobs| && s.jobs[i].kind.Shared? ==>
          if s.jobs[i].kind.lane in s.queues then i <= s.queues[s.jobs[i].kind.lane] else s.Settled(i))
  }

  /** The gate is the last exclusive job. */
  ghost predicate GateIsLast(s: State) {
    && (s.gate.HeldBy? ==> s.gate.job < |s.jobs| && s.jobs[s.gate.job].kind.Exclusive?)
    && (forall i :: 0 <= i < |s.jobs| && s.jobs[i].kind.Exclusive? ==> s.gate.HeldBy? && i <= s.gate.job)
  }

  ghost predicate Inv(s: State) {
    DepsEarlier(s) && StartedAfterDeps(s) && AllCovered(s) && QueuesHoldTails(s) && GateIsLast(s)
  }

  /** A started job has every earlier conflicting job settled behind it. */
  ghost predicate Ordered(s: State) {
    forall i, j :: 0 <= i < j < |s.jobs| && s.Conflict(i, j) && s.Started(j) ==> s.Settled(i)
  }

  lemma {:induction false} OrderedFrom(s: State, i: nat, j: nat)
    requires Inv(s) && i < j < |s.jobs| && s.Conflict(i, j) && s.Started(j)
    ensures s.Settled(i)
    decreases j
  {
    assert Covered(s, i, j);
    if !s.Settled(i) {
      var d :| d in s.jobs[j].deps && i <= d < |s.jobs| && (d == i || s.Conflict(i, d));
      assert s.Settled(d);
      if d != i { OrderedFrom(s, i, d); }
    }
  }

  lemma InvImpliesOrdered(s: State)
    requires Inv(s)
    ensures Ordered(s)
  {
    forall i, j | 0 <= i < j < |s.jobs| && s.Conflict(i, j) && s.Started(j) ensures s.Settled(i) {
      OrderedFrom(s, i, j);
    }
  }

  // ---- every event keeps the invariant ----

  /** Appending a waiting job whose dependencies conflict with it and lead to every earlier conflict. */
  lemma AppendKeeps(s: State, t: State, job: Job)
    requires Inv(s) && t.jobs == s.jobs + [job] && job.status.Waiting?
    requires forall d :: d in job.deps ==> d < |s.jobs| && t.Conflict(d, |s.jobs|)
    requires forall i :: 0 <= i < |s.jobs| && t.Conflict(i, |s.jobs|) ==> Covered(t, i, |s.jobs|)
    ensures DepsEarlier(t) && StartedAfterDeps(t) && AllCovered(t)
  {
    assert forall i :: 0 <= i < |s.jobs| ==> t.jobs[i] == s.jobs[i];
    forall j, d | 0 <= j < |t.jobs| && t.Started(j) && d in t.jobs[j].deps ensures t.Settled(d) {
      assert s.Started(j) && s.Settled(d);
    }
    forall i, j | 0 <= i < j < |t.jobs| && t.Conflict(i, j) ensures Covered(t, i, j) {
      if j < |s.jobs| { assert Covered(s, i, j); }
    }
  }

  lemma EnqueueKeeps(s: State, lane: Lane)
    requires Inv(s)
    ensures Inv(Enqueued(s, lane))
  {
    var t, n := Enqueued(s, lane), |s.jobs|;
    forall i | 0 <= i < n && t.Conflict(i, n) ensures Covered(t, i, n) {
      assert t.jobs[i] == s.jobs[i];
      if s.jobs[i].kind.Exclusive? {
        assert s.gate.job in t.jobs[n].deps;
      } else if lane in s.queues {
        assert s.queues[lane] in t.jobs[n].deps;
      }
    }
    AppendKeeps(s, t, t.jobs[n]);
    assert forall i :: 0 <= i < n ==> t.jobs[i] == s.jobs[i];
  }

  lemma EnqueueExclusiveKeeps(s: State)
    requires Inv(s)
    ensures Inv(EnqueuedExclusive(s))
  {
    var t, n := EnqueuedExclusive(s), |s.jobs|;
    forall i | 0 <= i < n ensures Covered(t, i, n) {
      assert t.jobs[i] == s.jobs[i];
      if s.jobs[i].kind.Exclusive? {
        assert s.gate.job in t.jobs[n].deps;
      } else if s.jobs[i].kind.lane in s.queues {
        assert s.queues[s.jobs[i].kind.lane] in t.jobs[n].deps;
      }
    }
    AppendKeeps(s, t, t.jobs[n]);
    assert forall i :: 0 <= i < n ==> t.jobs[i] == s.jobs[i];
  }

  lemma StatusKeeps(s: State, i: nat, status: Status)
    requires Inv(s) && i < |s.jobs| && !s.jobs[i].status.Settled() && status.Started()
    requires forall d :: d in s.jobs[i].deps ==> s.Settled(d)
    ensures Inv(WithStatus(s, i, status))
  {
    var t := WithStatus(s, i, status);
    assert forall k :: 0 <= k < |s.jobs| ==> t.jobs[k].kind == s.jobs[k].kind && t.jobs[k].deps == s.jobs[k].deps;
    assert forall k: nat :: s.Settled(k) ==> t.Settled(k);
    forall k, j | 0 <= k < j < |t.jobs| && t.Conflict(k, j) ensures Covered(t, k, j) {
      assert Covered(s, k, j);
    }
  }

  lemma DropKeeps(s: State, lane: Lane)
    requires Inv(s) && Enabled(s, DropLane(lane))
    ensures Inv(Next(s, DropLane(lane)))
  {
    var t := Next(s, DropLane(lane));
    InvImpliesOrdered(s);
    var tail := s.queues[lane];
    forall i | 0 <= i < |s.jobs| && s.jobs[i].kind == Shared(lane) ensures s.Settled(i) {
      if i < tail { assert s.Conflict(i, tail) && s.Started(tail); }
    }
    forall i, j | 0 <= i < j < |t.jobs| && t.Conflict(i, j) ensures Covered(t, i, j) {
      assert Covered(s, i, j);
    }
  }

  lemma StepKeeps(s: State, e: Event)
    requires Inv(s) && Enabled(s, e)
    ensures Inv(Next(s, e))
  {
    match e
    case Enqueue(lane) => EnqueueKeeps(s, lane);
    case EnqueueExclusive => EnqueueExclusiveKeeps(s);
    case Start(i) => StatusKeeps(s, i, Running);
    case Finish(i, ok) => StatusKeeps(s, i, if ok then Resolved else Rejected);
    case DropLane(lane) => DropKeeps(s, lane);
  }

  lemma {:induction false} RunKeeps(s: State, es: seq<Event>, ss: seq<State>, k: nat)
    requires Inv(s) && IsRun(s, es, ss) && k < |ss|
    ensures Inv(ss[k])
  {
    if k > 0 {
      RunKeeps(s, es, ss, k - 1);
      StepKeeps(ss[k - 1], es[k - 1]);
    }
  }

  // ---- what every run guarantees ----

  /** The jobs asked for, in order: what _enqueue and _enqueueExclusive were called with. */
  function Asked(es: seq<Event>): seq<Kind> {
    if es == [] then []
    else
      var front, last := Asked(es[..|es| - 1]), es[|es| - 1];
      match last
      case Enqueue(lane) => front + [Shared(lane)]
      case EnqueueExclusive => front + [Exclusive]
      case _ => front
  }

  /** Only a job that was asked for is added, one for each call and in their order, and jobs keep
      their kind and their dependencies. */
  lemma StepAdds(s: State, e: Event)
    requires Inv(s) && Enabled(s, e)
    ensures var t := Next(s, e);
      && |t.jobs| == |s.jobs| + (if e.Enqueue? || e.EnqueueExclusive? then 1 else 0)
      && (forall i :: 0 <= i < |s.jobs| ==> t.jobs[i].kind == s.jobs[i].kind && t.jobs[i].deps == s.jobs[i].deps)
      && (e.Enqueue? ==> t.jobs[|s.jobs|].kind == Shared(e.lane))
      && (e.EnqueueExclusive? ==> t.jobs[|s.jobs|].kind == Exclusive)
  {
  }

  /** In every run job i is the i-th one asked for. */
  lemma {:induction false} JobsAreAsked(es: seq<Event>, ss: seq<State>, k: nat)
    requires IsRun(INITIAL, es, ss) && k < |ss|
    ensures |ss[k].jobs| == |Asked(es[..k])|
    ensures forall i :: 0 <= i < |ss[k].jobs| ==> ss[k].jobs[i].kind == Asked(es[..k])[i]
  {
    if k > 0 {
      JobsAreAsked(es, ss, k - 1);
      RunKeeps(INITIAL, es, ss, k - 1);
      hide Inv, Next, Enabled;
      StepAdds(ss[k - 1], es[k - 1]);
      assert es[..k][..k - 1] == es[..k - 1];
    }
  }

  /** An exclusive job overlaps nothing: all earlier jobs have settled and no later one has started. */
  lemma ExclusiveRunsAlone(es: seq<Event>, ss: seq<State>, k: nat, x: nat)
    requires IsRun(INITIAL, es, ss) && k < |ss| && x < |Asked(es[..k])| && Asked(es[..k])[x].Exclusive?
    ensures |ss[k].jobs| == |Asked(es[..k])|
    ensures ss[k].jobs[x].status.Running? ==>
      && (forall i :: 0 <= i < x ==> ss[k].Settled(i))
      && (forall j :: x < j < |ss[k].jobs| ==> !ss[k].Started(j))
  {
    JobsAreAsked(es, ss, k);
    RunKeeps(INITIAL, es, ss, k);
    InvImpliesOrdered(ss[k]);
    if ss[k].jobs[x].status.Running? {
      forall i | 0 <= i < x ensures ss[k].Settled(i) {
        assert ss[k].Conflict(i, x) && ss[k].Started(x);
      }
      forall j | x < j < |ss[k].jobs| ensures !ss[k].Started(j) {
        assert ss[k].Conflict(x, j) && !ss[k].Settled(x);
      }
    }
  }

  /** The jobs of one lane run one at a time and start in the order they were enqueued. */
  lemma LaneIsFifo(es: seq<Event>, ss: seq<State>, k: nat, lane: Lane, i: nat, j: nat)
    requires IsRun(INITIAL, es, ss) && k < |ss| && i < j < |Asked(es[..k])|
    requires Asked(es[..k])[i] == Shared(lane) && Asked(es[..k])[j] == Shared(lane)
    ensures |ss[k].jobs| == |Asked(es[..k])|
    ensures ss[k].Started(j) ==> ss[k].Settled(i)
  {
    JobsAreAsked(es, ss, k);
    RunKeeps(INITIAL, es, ss, k);
    InvImpliesOrdered(ss[k]);
    assert ss[k].Conflict(i, j);
  }

  /** A lane that is missing from the queue map has no unfinished job. */
  lemma AbsentLaneIsDrained(es: seq<Event>, ss: seq<State>, k: nat, lane: Lane, i: nat)
    requires IsRun(INITIAL, es, ss) && k < |ss| && i < |Asked(es[..k])| && Asked(es[..k])[i] == Shared(lane)
    requires lane !in ss[k].queues
    ensures ss[k].Settled(i)
  {
    JobsAreAsked(es, ss, k);
    RunKeeps(INITIAL, es, ss, k);
  }

  /** Job j waits, directly or through other jobs, for job i. */
  ghost predicate WaitsFor(s: State, j: nat, i: nat)
    requires j < |s.jobs|
    decreases j
  {
    i in s.jobs[j].deps || exists d :: d in s.jobs[j].deps && d < j && WaitsFor(s, d, i)
  }

  lemma {:induction false} NoWaitAcross(s: State, i: nat, j: nat)
    requires Inv(s) && i < |s.jobs| && j < |s.jobs|
    requires s.jobs[i].kind.Shared? && s.jobs[j].kind.Shared? && s.jobs[i].kind != s.jobs[j].kind
    requires forall x :: i < x < j ==> s.jobs[x].kind.Shared?
    ensures !WaitsFor(s, j, i)
    decreases j
  {
    assert !s.Conflict(i, j);
    forall d | d in s.jobs[j].deps && d < j ensures !WaitsFor(s, d, i) {
      assert s.Conflict(d, j);
      if i < d {
        NoWaitAcross(s, i, d);
      } else {
        WaitsForEarlier(s, d, i);
      }
    }
  }

  lemma {:induction false} WaitsForEarlier(s: State, j: nat, i: nat)
    requires Inv(s) && j < |s.jobs|
    ensures WaitsFor(s, j, i) ==> i < j
    decreases j
  {
    if WaitsFor(s, j, i) && i !in s.jobs[j].deps {
      var d :| d in s.jobs[j].deps && d < j && WaitsFor(s, d, i);
      WaitsForEarlier(s, d, i);
    }
  }

  /** Two lanes with no exclusive job enqueued between them never wait for each other. */
  lemma LanesAreIndependent(es: seq<Event>, ss: seq<State>, k: nat, i: nat, j: nat)
    requires IsRun(INITIAL, es, ss) && k < |ss| && i < |Asked(es[..k])| && j < |Asked(es[..k])|
    requires Asked(es[..k])[i].Shared? && Asked(es[..k])[j].Shared? && Asked(es[..k])[i] != Asked(es[..k])[j]
    requires forall x :: i < x < j ==> Asked(es[..k])[x].Shared?
    ensures j < |ss[k].jobs| && !WaitsFor(ss[k], j, i)
  {
    JobsAreAsked(es, ss, k);
    RunKeeps(INITIAL, es, ss, k);
    NoWaitAcross(ss[k], i, j);
  }

  /** Waiting is complete: a job waits for every earlier unfinished job it must not overlap. */
  lemma {:induction false} ConflictsAreAwaited(s: State, i: nat, j: nat)
    requires Inv(s) && i < j < |s.jobs| && s.Conflict(i, j) && !s.Settled(i)
    ensures WaitsFor(s, j, i)
    decreases j
  {
    assert Covered(s, i, j);
    var d :| d in s.jobs[j].deps && i <= d < |s.jobs| && (d == i || s.Conflict(i, d));
    if d != i { ConflictsAreAwaited(s, i, d); }
  }

  // ---- progress ----

  ghost function Work(jobs: seq<Job>): nat {
    if jobs == [] then 0
    else Work(jobs[..|jobs| - 1]) + match jobs[|jobs| - 1].status
      case Waiting => 2 case Running => 1 case _ => 0
  }

  lemma {:induction false} WorkOf(jobs: seq<Job>, i: nat, status: Status)
    requires i < |jobs| && ((jobs[i].status.Waiting? && status.Running?) || (jobs[i].status.Running? && status.Settled()))
    ensures Work(jobs[i := jobs[i].(status := status)]) == Work(jobs) - 1
    decreases |jobs|
  {
    var jobs' := jobs[i := jobs[i].(status := status)];
    var n := |jobs| - 1;
    if i < n {
      WorkOf(jobs[..n], i, status);
      assert jobs'[..n] == jobs[..n][i := jobs[i].(status := status)];
    } else {
      assert jobs'[..n] == jobs[..n];
    }
  }

  lemma {:induction false} FirstUnsettled(s: State, n: nat) returns (i: nat)
    requires n < |s.jobs| && !s.Settled(n)
    ensures i < |s.jobs| && !s.Settled(i) && forall k :: 0 <= k < i ==> s.Settled(k)
  {
    if k :| 0 <= k < n && !s.Settled(k) {
      i := FirstUnsettled(s, k);
    } else {
      i := n;
    }
  }

  /** No reachable state is stuck: while a job is unfinished, some job is running or may start. */
  lemma NeverStuck(s: State, n: nat) returns (e: Event)
    requires Inv(s) && n < |s.jobs| && !s.Settled(n)
    ensures (e.Start? || e == Finish(if e.Finish? then e.job else 0, true)) && Enabled(s, e)
    ensures Work(Next(s, e).jobs) < Work(s.jobs)
  {
    var i := FirstUnsettled(s, n);
    if s.jobs[i].status.Running? {
      e := Finish(i, true);
      WorkOf(s.jobs, i, Resolved);
    } else {
      e := Start(i);
      forall d | d in s.jobs[i].deps ensures d < |s.jobs| && s.jobs[d].status.Settled() {
        assert d < i && s.Settled(d);
      }
      WorkOf(s.jobs, i, Running);
    }
  }

  /** If jobs that start finish, the queue drains: from every state of the invariant
      some run of starts and finishes settles every job. */
  lemma {:induction false} Drains(s: State) returns (es: seq<Event>, ss: seq<State>)
    requires Inv(s)
    ensures IsRun(s, es, ss) && forall k :: 0 <= k < |es| ==> es[k].Start? || es[k].Finish?
    ensures var t := ss[|ss| - 1]; |t.jobs| == |s.jobs| && forall i :: 0 <= i < |t.jobs| ==> t.Settled(i)
    decreases Work(s.jobs)
  {
    if n :| 0 <= n < |s.jobs| && !s.Settled(n) {
      var e := NeverStuck(s, n);
      StepKeeps(s, e);
      var es', ss' := Drains(Next(s, e));
      es, ss := [e] + es', [s] + ss';
    } else {
      es, ss := [], [s];
    }
  }

  /** Without new jobs every event uses up some of the remaining work or drops a lane. */
  lemma WorkIsUsed(s: State, e: Event)
    requires Inv(s) && Enabled(s, e) && !e.Enqueue? && !e.EnqueueExclusive?
    ensures Work(Next(s, e).jobs) + |Next(s, e).queues| == Work(s.jobs) + |s.queues| - 1
  {
    match e
    case Start(i) => WorkOf(s.jobs, i, Running);
    case Finish(i, ok) => WorkOf(s.jobs, i, if ok then Resolved else Rejected);
    case DropLane(lane) =>
      var t := s.queues - {lane};
      assert t.Keys == s.queues.Keys - {lane} && |t| == |t.Keys| && |s.queues| == |s.queues.Keys|;
  }

  /** Every run without new jobs is finite, and one that goes on as long as some job can start or
      finish settles every job, whichever order it takes and whether jobs resolve or reject. */
  lemma {:induction false} EveryMaximalRunDrains(s: State, es: seq<Event>, ss: seq<State>)
    requires Inv(s) && IsRun(s, es, ss) && forall k :: 0 <= k < |es| ==> !es[k].Enqueue? && !es[k].EnqueueExclusive?
    ensures |es| <= Work(s.jobs) + |s.queues|
    ensures var t := ss[|es|];
      (forall e: Event :: e.Start? || e.Finish? ==> !Enabled(t, e)) ==>
        |t.jobs| == |s.jobs| && forall i :: 0 <= i < |t.jobs| ==> t.Settled(i)
    decreases |es|
  {
    if es == [] {
      if n :| 0 <= n < |s.jobs| && !s.Settled(n) { var e := NeverStuck(s, n); }
    } else {
      StepKeeps(s, es[0]);
      WorkIsUsed(s, es[0]);
      hide Inv, Enabled, Work;
      assert IsRun(ss[1], es[1..], ss[1..]);
      EveryMaximalRunDrains(ss[1], es[1..], ss[1..]);
    }
  }

  // ---- the queue object ----

  class LaneQueue {
    var jobs: seq<Job>
    var queues: map<Lane, nat>
    var exclusiveGate: Gate

    ghost function Model(): State
      reads this
    {
      State(jobs, queues, exclusiveGate)
    }

    ghost predicate Valid()
      reads this
    {
      Inv(Model())
    }

    constructor ()
      ensures Valid() && Model() == INITIAL
    {
      jobs, queues, exclusiveGate := [], map[], Open;
    }

    /** Chain a job behind its lane's tail and the current gate. */
    method EnqueueJob(lane: Lane) returns (task: nat)
      requires Valid()
      modifies this
      ensures Valid() && Model() == Next(old(Model()), Enqueue(lane)) && task == |old(jobs)|
      ensures |jobs| == task + 1 && jobs[..task] == old(jobs)
      ensures jobs[task].kind == Shared(lane) && jobs[task].status.Waiting?
      ensures forall d :: d in jobs[task].deps <==>
        (lane in old(queues) && old(queues)[lane] == d) || old(exclusiveGate) == HeldBy(d)
      ensures queues == old(queues)[lane := task] && exclusiveGate == old(exclusiveGate)
    {
      StepKeeps(Model(), Enqueue(lane));
      var deps := if lane in queues then {queues[lane]} else {};
      if exclusiveGate.HeldBy? {
        deps := deps + {exclusiveGate.job};
      }
      assert deps == (if lane in queues then {queues[lane]} else {}) + GateDeps(Model());
      task := |jobs|;
      jobs := jobs + [Job(Shared(lane), deps, Waiting)];
      queues := queues[lane := task];
    }

    /** Chain a job behind the prior gate and every lane, and close the gate behind it. */
    method EnqueueExclusiveJob() returns (task: nat)
      requires Valid()
      modifies this
      ensures Valid() && Model() == Next(old(Model()), EnqueueExclusive) && task == |old(jobs)|
      ensures |jobs| == task + 1 && jobs[..task] == old(jobs)
      ensures jobs[task].kind == Exclusive && jobs[task].status.Waiting?
      ensures forall d :: d in jobs[task].deps <==>
        (exists lane :: lane in old(queues) && old(queues)[lane] == d) || old(exclusiveGate) == HeldBy(d)
      ensures queues == old(queues) && exclusiveGate == HeldBy(task)
    {
      StepKeeps(Model(), EnqueueExclusive);
      var deps := queues.Values;
      if exclusiveGate.HeldBy? {
        deps := deps + {exclusiveGate.job};
      }
      assert deps == queues.Values + GateDeps(Model());
      task := |jobs|;
      jobs := jobs + [Job(Exclusive, deps, Waiting)];
      exclusiveGate := HeldBy(task);
    }

    method StartJob(i: nat)
      requires Valid() && i < |jobs| && jobs[i].status.Waiting?
      requires forall d :: d in jobs[i].deps ==> d < |jobs| && (jobs[d].status.Resolved? || jobs[d].status.Rejected?)
      modifies this
      ensures Valid() && Model() == Next(old(Model()), Start(i))
      ensures jobs == old(jobs)[i := old(jobs)[i].(status := Running)]
      ensures queues == old(queues) && exclusiveGate == old(exclusiveGate)
    {
      StepKeeps(Model(), Start(i));
      jobs := jobs[i := jobs[i].(status := Running)];
    }

    /** Settle a job; its lane's chained promise and its gate settle with it either way. */
    method FinishJob(i: nat, ok: bool)
      requires Valid() && i < |jobs| && jobs[i].status.Running?
      modifies this
      ensures Valid() && Model() == Next(old(Model()), Finish(i, ok))
      ensures jobs == old(jobs)[i := old(jobs)[i].(status := if ok then Resolved else Rejected)]
      ensures queues == old(queues) && exclusiveGate == old(exclusiveGate)
    {
      StepKeeps(Model(), Finish(i, ok));
      jobs := jobs[i := jobs[i].(status := if ok then Resolved else Rejected)];
    }

    /** The callback of the chained promise `tail`: forget the lane if it is still its tail. */
    method DropIfTail(lane: Lane, tail: nat)
      requires Valid() && tail < |jobs| && (jobs[tail].status.Resolved? || jobs[tail].status.Rejected?)
      modifies this
      ensures Valid()
      ensures Model() == if lane in old(queues) && old(queues)[lane] == tail
        then Next(old(Model()), DropLane(lane)) else old(Model())
      ensures jobs == old(jobs) && exclusiveGate == old(exclusiveGate)
      ensures forall l :: l in queues <==> l in old(queues) && !(l == lane && old(queues)[l] == tail)
      ensures forall l :: l in queues ==> queues[l] == old(queues)[l]
    {
      if lane in queues && queues[lane] == tail {
        StepKeeps(Model(), DropLane(lane));
        queues := queues - {lane};
      }
    }
  }
}
