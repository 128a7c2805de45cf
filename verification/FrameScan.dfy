/** The credential frame scan under a time budget (src/credential-target-scan.ts).

    Times are milliseconds. Work that was started settles when it likes, with a value or an error,
    or never: during the probe that waits for it, during a later probe, or after the scan is over.
    Between two steps of the scan the clock may move on by an arbitrary lag. */
module FrameScan {
  import opened Common

  /** An origin is useful if it is not empty, a detection if it is a handle and not null. */
  datatype Work = Pending | Yielded(useful: bool) | Failed

  /** One call of withProbeDeadline: for the origin of a frame or for its detection, with the time
      its timer was set and for how long. */
  datatype Probe = Probe(frame: nat, detecting: bool, started: int, limit: nat, expired: bool, work: Work) {
    /** Neither the work nor the timer has come. */
    predicate Racing() { work.Pending? && !expired }
    /** The work has yielded a handle. Handles are named by the probe that asked for them. */
    predicate Gave() { detecting && work == Yielded(true) }
  }

  predicate NoneRacing(probes: seq<Probe>) {
    forall p :: 0 <= p < |probes| ==> !probes[p].Racing()
  }

  /** Probes were added, and work that was pending may have settled. */
  ghost predicate Later(before: seq<Probe>, after: seq<Probe>) {
    && |before| <= |after|
    && forall p :: 0 <= p < |before| ==>
         after[p] == before[p].(work := after[p].work) && (!before[p].work.Pending? ==> after[p] == before[p])
  }

  /** Every handle yielded so far is kept or was disposed, once, and not both. */
  ghost predicate Accounted(probes: seq<Probe>, disposed: seq<nat>, kept: set<nat>) {
    && NoDuplicates(disposed)
    && (forall p: nat :: p in disposed <==> p < |probes| && probes[p].Gave() && p !in kept)
    && (forall p: nat :: p in kept ==> p < |probes| && probes[p].Gave() && !probes[p].expired)
  }

  lemma SettleAccounts(probes: seq<Probe>, disposed: seq<nat>, kept: set<nat>, p: nat, work: Work)
    requires Accounted(probes, disposed, kept) && p < |probes| && probes[p].work.Pending?
    ensures var after := probes[p := probes[p].(work := work)];
      Accounted(after, if after[p].Gave() && after[p].expired then disposed + [p] else disposed,
                if after[p].Gave() && !after[p].expired then kept + {p} else kept)
  {
    var after := probes[p := probes[p].(work := work)];
    var d := if after[p].Gave() && after[p].expired then disposed + [p] else disposed;
    var k := if after[p].Gave() && !after[p].expired then kept + {p} else kept;
    assert p !in disposed && p !in kept;
    forall q: nat ensures q in d <==> q < |after| && after[q].Gave() && q !in k {
      assert q in disposed <==> q < |probes| && probes[q].Gave() && q !in kept;
      assert q != p && q < |probes| ==> after[q] == probes[q];
    }
  }

  /** Neither a new probe nor a timer concerns the handles. */
  lemma OtherAccounts(probes: seq<Probe>, disposed: seq<nat>, kept: set<nat>, after: seq<Probe>)
    requires Accounted(probes, disposed, kept) && |probes| <= |after|
    requires forall q :: 0 <= q < |probes| ==> after[q] == probes[q] || (probes[q].work.Pending? && after[q].work.Pending?)
    requires forall q :: |probes| <= q < |after| ==> after[q].work.Pending?
    ensures Accounted(after, disposed, kept)
  {
    forall q: nat ensures q in disposed <==> q < |after| && after[q].Gave() && q !in kept {
      assert q in disposed <==> q < |probes| && probes[q].Gave() && q !in kept;
    }
  }

  /** During a probe: the earlier ones are not racing, and this one was started as given. */
  ghost predicate Raced(before: seq<Probe>, begun: Probe, probes: seq<Probe>) {
    var p := |before|;
    && |probes| == p + 1 && Later(before, probes[..p]) && NoneRacing(probes[..p])
    && probes[p] == begun.(expired := probes[p].expired, work := probes[p].work)
  }

  lemma RaceBegins(before: seq<Probe>, begun: Probe)
    requires NoneRacing(before)
    ensures Raced(before, begun, before + [begun])
  {
    assert (before + [begun])[..|before|] == before;
  }

  lemma RaceGoesOn(before: seq<Probe>, begun: Probe, probes: seq<Probe>, q: nat, work: Work)
    requires Raced(before, begun, probes) && q < |probes| && probes[q].work.Pending? && !work.Pending?
    ensures Raced(before, begun, probes[q := probes[q].(work := work)]) && (q < |before| ==> probes[q].expired)
  {
    assert q < |before| ==> !probes[..|before|][q].Racing();
    var p, after := |before|, probes[q := probes[q].(work := work)];
    forall i | 0 <= i < p ensures
      && after[i] == before[i].(work := after[i].work) && (!before[i].work.Pending? ==> after[i] == before[i])
      && !after[i].Racing()
    {
      assert probes[..p][i] == probes[i];
    }
    assert forall i :: 0 <= i < p ==> after[..p][i] == after[i];
  }

  lemma RaceEnds(before: seq<Probe>, begun: Probe, probes: seq<Probe>)
    requires Raced(before, begun, probes) && !probes[|before|].Racing()
    ensures NoneRacing(probes) && Later(before, probes)
  {
    assert forall i :: 0 <= i < |before| ==> probes[..|before|][i] == probes[i];
  }

  lemma TimerInRace(before: seq<Probe>, begun: Probe, probes: seq<Probe>)
    requires Raced(before, begun, probes)
    ensures Raced(before, begun, probes[|before| := probes[|before|].(expired := true)])
  {
    var p := |before|;
    assert probes[p := probes[p].(expired := true)][..p] == probes[..p];
  }

  /** How much work is pending. */
  ghost function Unsettled(probes: seq<Probe>): nat {
    if probes == [] then 0
    else Unsettled(probes[..|probes| - 1]) + if probes[|probes| - 1].work.Pending? then 1 else 0
  }

  lemma {:induction false} SettlingCounts(probes: seq<Probe>, p: nat, work: Work)
    requires p < |probes| && probes[p].work.Pending? && !work.Pending?
    ensures Unsettled(probes[p := probes[p].(work := work)]) < Unsettled(probes)
    decreases |probes|
  {
    var n, after := |probes| - 1, probes[p := probes[p].(work := work)];
    if p < n {
      SettlingCounts(probes[..n], p, work);
      assert after[..n] == probes[..n][p := probes[p].(work := work)];
    } else {
      assert after[..n] == probes[..n];
    }
  }

  /** What a probe tells the scan. */
  datatype Answer = Value(useful: bool) | Error | TimedOut

  function AnswerOf(probe: Probe): Answer
    requires !probe.Racing()
  {
    if probe.expired then TimedOut else if probe.work.Failed? then Error else Value(probe.work.useful)
  }

  /** What became of a frame of a scan that went on past it, with the probe that decided it, or
      the time at which the budget was found spent. */
  datatype Kind = Detected(probe: nat) | Silent(probe: nat) | Skipped(at: int) | NoOrigin(probe: nat) | Detached(probe: nat)

  /** What being put in a class says of the frame. */
  ghost predicate Fits(probes: seq<Probe>, detached: seq<bool>, i: nat, kind: Kind, probeMs: int, deadline: int, now: int)
    requires i < |detached|
  {
    if kind.Skipped? then kind.at <= now && (probeMs <= 0 || kind.at >= deadline)
    else
      && kind.probe < |probes| && probes[kind.probe].frame == i
      && var probe := probes[kind.probe];
         match kind
         case Detected(_) => probe.Gave() && !probe.expired
         case Silent(_) => probe.expired && (probe.limit == Max(1, probeMs) || probe.started + probe.limit >= deadline)
         case NoOrigin(_) => !probe.detecting && probe.work == Yielded(false) && !probe.expired
         case Detached(_) =>
           detached[i] && !probe.expired && (probe.work.Failed? || (probe.detecting && probe.work == Yielded(false)))
  }

  lemma FitsLater(before: seq<Probe>, after: seq<Probe>, detached: seq<bool>, i: nat, kind: Kind,
                  probeMs: int, deadline: int, now: int, now': int)
    requires i < |detached| && Fits(before, detached, i, kind, probeMs, deadline, now) && Later(before, after) && now <= now'
    ensures Fits(after, detached, i, kind, probeMs, deadline, now')
  {
  }

  /** The handles detected, and the frames reported as unresponsive, in scan order. */
  function Handles(kinds: seq<Kind>): seq<nat> {
    if kinds == [] then []
    else
      var last := kinds[|kinds| - 1];
      Handles(kinds[..|kinds| - 1]) + if last.Detected? then [last.probe] else []
  }

  function Unresponsive(kinds: seq<Kind>): seq<nat> {
    if kinds == [] then []
    else
      var n, last := |kinds| - 1, kinds[|kinds| - 1];
      Unresponsive(kinds[..n]) + if last.Silent? || last.Skipped? then [n] else []
  }

  lemma ListsNext(kinds: seq<Kind>, last: Kind)
    ensures Handles(kinds + [last]) == if last.Detected? then Handles(kinds) + [last.probe] else Handles(kinds)
    ensures Unresponsive(kinds + [last]) ==
      if last.Silent? || last.Skipped? then Unresponsive(kinds) + [|kinds|] else Unresponsive(kinds)
  {
    assert (kinds + [last])[..|kinds|] == kinds;
    assert Handles(kinds) + [] == Handles(kinds) && Unresponsive(kinds) + [] == Unresponsive(kinds);
  }

  /** A frame is listed as unresponsive exactly if it was, once, in order. */
  lemma {:induction false} UnresponsiveAre(kinds: seq<Kind>, i: nat)
    ensures i in Unresponsive(kinds) <==> i < |kinds| && (kinds[i].Silent? || kinds[i].Skipped?)
    ensures forall a, b :: 0 <= a < b < |Unresponsive(kinds)| ==> Unresponsive(kinds)[a] < Unresponsive(kinds)[b]
    ensures forall a :: 0 <= a < |Unresponsive(kinds)| ==> Unresponsive(kinds)[a] < |kinds|
    decreases |kinds|
  {
    if kinds != [] { UnresponsiveAre(kinds[..|kinds| - 1], i); }
  }

  /** A handle is listed exactly if some frame was detected by it. */
  lemma {:induction false} HandlesAre(kinds: seq<Kind>, h: nat)
    ensures h in Handles(kinds) <==> Detected(h) in kinds
    decreases |kinds|
  {
    if kinds != [] {
      var front, last := kinds[..|kinds| - 1], kinds[|kinds| - 1];
      HandlesAre(front, h);
      assert kinds == front + [last];
    }
  }

  datatype Result = Completed(detections: seq<nat>, unresponsive: seq<nat>) | Thrown

  /** The frame has no origin, or was detached when its probe failed. */
  ghost predicate FoundNothing(probes: seq<Probe>, detached: seq<bool>, i: nat, p: nat)
    requires i < |detached|
  {
    && p < |probes| && probes[p].frame == i && !probes[p].expired
    && ((!probes[p].detecting && probes[p].work == Yielded(false))
        || (detached[i] && (probes[p].work.Failed? || probes[p].work == Yielded(false))))
  }

  /** What the two lists say: handles of different frames, in order; frames that are not among
      these, in order; and of a frame in neither list, that nothing was found on it. */
  ghost predicate ListsFrames(probes: seq<Probe>, detached: seq<bool>, detections: seq<nat>, unresponsive: seq<nat>) {
    && (forall h: nat :: h in detections ==>
         && h < |probes| && probes[h].Gave() && !probes[h].expired
         && probes[h].frame < |detached| && probes[h].frame !in unresponsive)
    && (forall a, b :: 0 <= a < b < |detections| && detections[b] < |probes| && detections[a] < |probes| ==>
         probes[detections[a]].frame < probes[detections[b]].frame)
    && (forall a, b :: 0 <= a < b < |unresponsive| ==> unresponsive[a] < unresponsive[b] < |detached|)
    && (forall i: nat :: i < |detached| && i !in unresponsive ==>
         (exists h :: h in detections && h < |probes| && probes[h].frame == i) || exists p :: FoundNothing(probes, detached, i, p))
  }

  lemma {:induction false} HandlesAscend(probes: seq<Probe>, detached: seq<bool>, kinds: seq<Kind>, probeMs: int, deadline: int, now: int)
    requires AllFit(probes, detached, kinds, probeMs, deadline, now)
    ensures forall a :: 0 <= a < |Handles(kinds)| ==> Handles(kinds)[a] < |probes| && probes[Handles(kinds)[a]].frame < |kinds|
    ensures forall a, b :: 0 <= a < b < |Handles(kinds)| ==>
      probes[Handles(kinds)[a]].frame < probes[Handles(kinds)[b]].frame
    decreases |kinds|
  {
    if kinds != [] {
      var n := |kinds| - 1;
      assert forall i :: 0 <= i < n ==> kinds[..n][i] == kinds[i];
      HandlesAscend(probes, detached, kinds[..n], probeMs, deadline, now);
      assert Fits(probes, detached, n, kinds[n], probeMs, deadline, now);
    }
  }

  lemma KindsListFrames(probes: seq<Probe>, detached: seq<bool>, kinds: seq<Kind>, probeMs: int, deadline: int, now: int)
    requires AllFit(probes, detached, kinds, probeMs, deadline, now) && |kinds| == |detached|
    ensures ListsFrames(probes, detached, Handles(kinds), Unresponsive(kinds))
  {
    HandlesAscend(probes, detached, kinds, probeMs, deadline, now);
    UnresponsiveAre(kinds, 0);
    var detections, unresponsive := Handles(kinds), Unresponsive(kinds);
    hide Handles, Unresponsive, AllFit;
    forall h: nat | h in detections ensures
      && h < |probes| && probes[h].Gave() && !probes[h].expired
      && probes[h].frame < |detached| && probes[h].frame !in unresponsive
    {
      HandlesAre(kinds, h);
      var i :| 0 <= i < |kinds| && kinds[i] == Detected(h);
      FitsAt(probes, detached, kinds, probeMs, deadline, now, i);
      UnresponsiveAre(kinds, i);
    }
    forall i: nat | i < |detached| && i !in unresponsive ensures
      (exists h :: h in detections && h < |probes| && probes[h].frame == i) || exists p :: FoundNothing(probes, detached, i, p)
    {
      UnresponsiveAre(kinds, i);
      FitsAt(probes, detached, kinds, probeMs, deadline, now, i);
      HandlesAre(kinds, kinds[i].probe);
      if !kinds[i].Detected? { assert FoundNothing(probes, detached, i, kinds[i].probe); }
    }
  }

  lemma FitsAt(probes: seq<Probe>, detached: seq<bool>, kinds: seq<Kind>, probeMs: int, deadline: int, now: int, i: nat)
    requires AllFit(probes, detached, kinds, probeMs, deadline, now) && i < |kinds|
    ensures |kinds| <= |detached| && Fits(probes, detached, i, kinds[i], probeMs, deadline, now)
  {
  }

  datatype Visit = Is(kind: Kind) | Threw

  /** The budget in force: at least one millisecond. */
  function Budget(budgetMs: int): int { Max(1, budgetMs) }

  /** The scan of one page: the clock, the probes started so far, and the handles disposed. */
  class Scan {
    const probeMs: int
    const budget: int
    const start: int
    var now: int
    var probes: seq<Probe>
    var disposed: seq<nat>
    /** Handles that came in time and have not been disposed. */
    ghost var kept: set<nat>
    /** For how long the scan has waited for probes. */
    ghost var waited: int

    ghost predicate Valid()
      reads this
    {
      Accounted(probes, disposed, kept)
    }

    /** The waits so far fit the budget, but for one last millisecond once the deadline has passed. */
    ghost predicate WithinBudget()
      reads this
    {
      && 1 <= budget && 0 <= waited && start + waited <= now
      && (waited <= budget || (waited == budget + 1 && now > start + budget))
    }

    constructor (probeMs: int, budgetMs: int, now: int)
      ensures Valid() && WithinBudget() && NoneRacing(probes) && probes == [] && disposed == [] && kept == {}
      ensures this.probeMs == probeMs && budget == Budget(budgetMs) && start == this.now == now && waited == 0
    {
      this.probeMs, budget, start, this.now := probeMs, Budget(budgetMs), now, now;
      probes, disposed, kept, waited := [], [], {}, 0;
    }

    /** The callbacks on the work of a probe: in time, the probe has its answer; after the timer,
        a value is handed to disposal if it is a handle, and an error is swallowed. */
    method Settle(p: nat, work: Work)
      requires Valid() && p < |probes| && probes[p].work.Pending? && !work.Pending?
      modifies this`probes, this`disposed, this`kept
      ensures Valid() && probes == old(probes)[p := old(probes[p]).(work := work)]
      ensures disposed == if probes[p].Gave() && probes[p].expired then old(disposed) + [p] else old(disposed)
      ensures kept == if probes[p].Gave() && !probes[p].expired then old(kept) + {p} else old(kept)
    {
      SettleAccounts(probes, disposed, kept, p, work);
      hide Accounted;
      probes := probes[p := probes[p].(work := work)];
      if probes[p].expired {
        if work.Yielded? && probes[p].detecting && work.useful { disposed := disposed + [p]; }
      } else if probes[p].Gave() {
        kept := kept + {p};
      }
    }

    /** The timer of a probe. */
    method FireTimer(p: nat)
      requires Valid() && p < |probes| && probes[p].Racing() && now == probes[p].started + probes[p].limit
      modifies this`probes
      ensures Valid() && probes == old(probes)[p := old(probes[p]).(expired := true)]
    {
      OtherAccounts(probes, disposed, kept, probes[p := probes[p].(expired := true)]);
      probes := probes[p := probes[p].(expired := true)];
    }

    /** Start a probe and wait for its work or its timer, whichever comes first. */
    method WithProbeDeadline(frame: nat, detecting: bool, ms: int) returns (p: nat, r: Answer)
      requires Valid() && NoneRacing(probes)
      modifies this`now, this`probes, this`disposed, this`kept, this`waited
      ensures Valid() && NoneRacing(probes) && Later(old(probes), probes)
      ensures p == |old(probes)| < |probes| == p + 1 && !probes[p].Racing() && r == AnswerOf(probes[p])
      ensures probes[p] == Probe(frame, detecting, old(now), Max(1, ms), probes[p].expired, probes[p].work)
      ensures old(now) <= now <= old(now) + Max(1, ms) && waited - old(waited) == now - old(now)
      ensures r.TimedOut? ==> now == old(now) + Max(1, ms)
      ensures kept == if detecting && r == Value(true) then old(kept) + {p} else old(kept)
      ensures old(disposed) <= disposed
    {
      p := |probes|;
      ghost var before := probes;
      var begun := Probe(frame, detecting, now, Max(1, ms), false, Pending);
      OtherAccounts(probes, disposed, kept, probes + [begun]);
      RaceBegins(probes, begun);
      hide Accounted, Raced, NoneRacing, Later;
      probes := probes + [begun];
      Race(p, before, begun);
      RaceEnds(before, begun, probes);
      r := AnswerOf(probes[p]);
    }

    /** While a probe is racing the clock moves on, and the work of any probe may settle. */
    method Race(p: nat, ghost before: seq<Probe>, ghost begun: Probe)
      requires Valid() && p == |before| && |probes| == p + 1 && probes[p] == begun && Raced(before, begun, probes)
      requires begun.Racing() && begun.started == now
      modifies this`now, this`probes, this`disposed, this`kept, this`waited
      ensures Valid() && |probes| == p + 1 && Raced(before, begun, probes) && !probes[p].Racing()
      ensures probes[p] == begun.(expired := probes[p].expired, work := probes[p].work)
      ensures old(now) <= now <= old(now) + begun.limit && waited - old(waited) == now - old(now)
      ensures probes[p].expired ==> now == old(now) + begun.limit && !probes[p].work.Yielded?
      ensures kept == if probes[p].Gave() then old(kept) + {p} else old(kept)
      ensures old(disposed) <= disposed
    {
      hide Accounted, Raced, NoneRacing, Later;
      var due := now + probes[p].limit;
      while probes[p].Racing()
        invariant Valid() && |probes| == p + 1 && Raced(before, begun, probes)
        invariant probes[p] == begun.(expired := probes[p].expired, work := probes[p].work)
        invariant old(now) <= now <= due && waited - old(waited) == now - old(now)
        invariant probes[p].expired ==> now == due && !probes[p].work.Yielded?
        invariant kept == if probes[p].Gave() then old(kept) + {p} else old(kept)
        invariant old(disposed) <= disposed
        decreases probes[p].Racing(), due - now, Unsettled(probes)
      {
        var q: int, work: Work := *, *;
        if 0 <= q < |probes| && probes[q].work.Pending? && !work.Pending? {
          SettlingCounts(probes, q, work);
          RaceGoesOn(before, begun, probes, q, work);
          Settle(q, work);
        } else if now < due {
          var step: int :| 1 <= step <= due - now;
          now, waited := now + step, waited + step;
        } else {
          TimerInRace(before, begun, probes);
          FireTimer(p);
        }
      }
    }

    /** The clock moves on between two steps of the scan. */
    method Lag()
      requires WithinBudget()
      modifies this`now
      ensures WithinBudget() && old(now) <= now
    {
      var lag: int :| 0 <= lag;
      now := now + lag;
    }

    /** How long the next probe may take. */
    function Allowance(): int
      reads this`now
    {
      Min(probeMs, start + budget - now)
    }

    /** The caught error of a frame, or the end of the scan. */
    function Caught(detached: bool, probe: nat): Visit {
      if detached then Is(Detached(probe)) else Threw
    }

    /** One frame. The allowance is asked for before the first probe and again for each of the two. */
    method VisitFrame(i: nat, detached: seq<bool>) returns (v: Visit)
      requires i < |detached| && Valid() && NoneRacing(probes) && WithinBudget()
      modifies this`now, this`probes, this`disposed, this`kept, this`waited
      ensures Valid() && NoneRacing(probes) && WithinBudget() && Later(old(probes), probes) && old(now) <= now
      ensures v.Is? ==> Fits(probes, detached, i, v.kind, probeMs, start + budget, now)
      ensures |old(probes)| <= |probes| && (v.Is? && v.kind.Detected? ==> |old(probes)| <= v.kind.probe < |probes|)
      ensures kept == if v.Is? && v.kind.Detected? then old(kept) + {v.kind.probe} else old(kept)
      ensures v.Threw? ==> !detached[i]
      ensures old(now) >= start + budget || probeMs <= 0 ==> v.Is? && v.kind.Skipped? && probes == old(probes)
    {
      hide Accounted, NoneRacing, Later;
      LaterSelf(probes);
      Lag();
      if Allowance() <= 0 { return Is(Skipped(now)); }
      Lag();
      ghost var before := probes;
      var p, origin := WithProbeDeadline(i, false, Allowance());
      if origin.Error? { return Caught(detached[i], p); }
      if origin.TimedOut? { return Is(Silent(p)); }
      if !origin.useful { return Is(NoOrigin(p)); }
      Lag();
      ghost var between := probes;
      var q, detection := WithProbeDeadline(i, true, Allowance());
      LaterTwice(before, between, probes);
      if detection.TimedOut? { return Is(Silent(q)); }
      if detection.Error? || !detection.useful { return Caught(detached[i], q); }
      return Is(Detected(q));
    }

    /** Scan all frames. On an error that is not a detached frame's, dispose what was detected. */
    method Collect(detached: seq<bool>) returns (r: Result, ghost kinds: seq<Kind>)
      requires Valid() && NoneRacing(probes) && WithinBudget() && kept == {} && now == start
      modifies this`now, this`probes, this`disposed, this`kept, this`waited
      ensures Valid() && NoneRacing(probes) && waited <= budget + 1
      ensures AllFit(probes, detached, kinds, probeMs, start + budget, now)
      ensures r.Completed? ==>
        && |kinds| == |detached| && r.detections == Handles(kinds) && r.unresponsive == Unresponsive(kinds)
        && NoDuplicates(r.detections) && kept == Elements(r.detections)
        && ListsFrames(probes, detached, r.detections, r.unresponsive)
      ensures r.Thrown? ==> |kinds| < |detached| && !detached[|kinds|] && kept == {}
    {
      var detections: seq<nat>, unresponsive: seq<nat> := [], [];
      kinds := [];
      hide Accounted, NoneRacing, Later, Fits, Elements, NoDuplicates, AllFit, Kept, ListsFrames;
      NothingKept(probes, detached, probeMs, start + budget, now);
      for i := 0 to |detached|
        invariant Valid() && NoneRacing(probes) && WithinBudget()
        invariant |kinds| == i && AllFit(probes, detached, kinds, probeMs, start + budget, now)
        invariant detections == Handles(kinds) && unresponsive == Unresponsive(kinds) && Kept(detections, kept, |probes|)
      {
        ghost var before, asked, had := probes, now, kept;
        var v := VisitFrame(i, detached);
        AllFitLater(before, probes, detached, kinds, probeMs, start + budget, asked, now);
        KeptMonotone(detections, had, |before|, |probes|);
        if v.Threw? {
          DisposeCredentialFrameDetections(detections);
          return Thrown, kinds;
        }
        match v.kind {
          case Detected(p) =>
            KeptNext(detections, had, |before|, p, |probes|);
            detections := detections + [p];
          case Silent(_) => unresponsive := unresponsive + [i];
          case Skipped(_) => unresponsive := unresponsive + [i];
          case _ =>
        }
        ListsNext(kinds, v.kind);
        AllFitNext(probes, detached, kinds, v.kind, probeMs, start + budget, now);
        kinds := kinds + [v.kind];
      }
      KeptIs(detections, kept, |probes|);
      KindsListFrames(probes, detached, kinds, probeMs, start + budget, now);
      r := Completed(detections, unresponsive);
    }

    /** Dispose every detection of a scan that throws. */
    method DisposeCredentialFrameDetections(detections: seq<nat>)
      requires Valid() && Kept(detections, kept, |probes|)
      modifies this`disposed, this`kept
      ensures Valid() && kept == {} && disposed == old(disposed) + detections
    {
      DisposeAccounts(probes, disposed, kept, detections);
      disposed := disposed + detections;
      kept := {};
    }

    /** The scan has returned or thrown. Work it abandoned may still settle: whatever handle comes
        is disposed, once, and no handle that was returned is. */
    method Afterwards()
      requires Valid() && NoneRacing(probes)
      modifies this`probes, this`disposed, this`kept
      ensures Valid() && NoneRacing(probes) && Later(old(probes), probes)
      ensures kept == old(kept) && old(disposed) <= disposed
    {
      hide Accounted;
      LaterSelf(probes);
      var events: nat :| true;
      for k := 0 to events
        invariant Valid() && NoneRacing(probes) && Later(old(probes), probes)
        invariant kept == old(kept) && old(disposed) <= disposed
      {
        var q: int, work: Work := *, *;
        if 0 <= q < |probes| && probes[q].work.Pending? && !work.Pending? {
          Settle(q, work);
        }
      }
    }
  }

  ghost function Elements(s: seq<nat>): set<nat> { set x | x in s }

  /** The detections listed so far are the kept handles. */
  ghost predicate Kept(detections: seq<nat>, kept: set<nat>, n: nat) {
    NoDuplicates(detections) && kept == Elements(detections) && forall p :: p in kept ==> p < n
  }

  lemma KeptIs(detections: seq<nat>, kept: set<nat>, n: nat)
    requires Kept(detections, kept, n)
    ensures NoDuplicates(detections) && kept == Elements(detections)
  {
  }

  lemma KeptNext(detections: seq<nat>, kept: set<nat>, n: nat, p: nat, m: nat)
    requires Kept(detections, kept, n) && n <= p < m
    ensures Kept(detections + [p], kept + {p}, m)
  {
    assert forall i :: 0 <= i < |detections| ==> detections[i] in kept;
  }

  lemma KeptMonotone(detections: seq<nat>, kept: set<nat>, n: nat, m: nat)
    ensures Kept(detections, kept, n) && n <= m ==> Kept(detections, kept, m)
  {
  }

  lemma DisposeAccounts(probes: seq<Probe>, disposed: seq<nat>, kept: set<nat>, detections: seq<nat>)
    requires Accounted(probes, disposed, kept) && Kept(detections, kept, |probes|)
    ensures Accounted(probes, disposed + detections, {})
  {
    var all := disposed + detections;
    assert forall d :: d in detections <==> d in kept;
    forall a, b | 0 <= a < b < |all| ensures all[a] != all[b] {
      if a < |disposed| <= b { assert all[a] in disposed && all[b] in detections; }
    }
    forall q: nat ensures q in all <==> q < |probes| && probes[q].Gave() && q !in {} {
      assert q in all <==> q in disposed || q in detections;
      assert q in disposed <==> q < |probes| && probes[q].Gave() && q !in kept;
    }
  }

  /** Every frame so far is in its class for a reason. */
  ghost predicate AllFit(probes: seq<Probe>, detached: seq<bool>, kinds: seq<Kind>, probeMs: int, deadline: int, now: int) {
    |kinds| <= |detached| && forall i :: 0 <= i < |kinds| ==> Fits(probes, detached, i, kinds[i], probeMs, deadline, now)
  }

  lemma NothingKept(probes: seq<Probe>, detached: seq<bool>, probeMs: int, deadline: int, now: int)
    ensures AllFit(probes, detached, [], probeMs, deadline, now) && Kept([], {}, |probes|)
    ensures Handles([]) == [] && Unresponsive([]) == []
  {
  }

  lemma AllFitLater(before: seq<Probe>, after: seq<Probe>, detached: seq<bool>, kinds: seq<Kind>,
                    probeMs: int, deadline: int, now: int, now': int)
    requires AllFit(before, detached, kinds, probeMs, deadline, now) && Later(before, after) && now <= now'
    ensures AllFit(after, detached, kinds, probeMs, deadline, now')
  {
    hide Fits, Later;
    forall i | 0 <= i < |kinds| ensures Fits(after, detached, i, kinds[i], probeMs, deadline, now') {
      FitsLater(before, after, detached, i, kinds[i], probeMs, deadline, now, now');
    }
  }

  lemma AllFitNext(probes: seq<Probe>, detached: seq<bool>, kinds: seq<Kind>, kind: Kind, probeMs: int, deadline: int, now: int)
    requires AllFit(probes, detached, kinds, probeMs, deadline, now)
    requires |kinds| < |detached| && Fits(probes, detached, |kinds|, kind, probeMs, deadline, now)
    ensures AllFit(probes, detached, kinds + [kind], probeMs, deadline, now)
  {
    hide Fits;
  }

  lemma LaterSelf(probes: seq<Probe>)
    ensures Later(probes, probes)
  {
  }

  lemma LaterTwice(a: seq<Probe>, b: seq<Probe>, c: seq<Probe>)
    requires Later(a, b) && Later(b, c)
    ensures Later(a, c)
  {
  }

  /** A scan and whatever settles after it: every handle that is ever yielded is returned or is
      disposed exactly once, and not both. */
  method ScanAndAfter(probeMs: int, budgetMs: int, now: int, detached: seq<bool>) returns (r: Result, scan: Scan)
    ensures NoDuplicates(scan.disposed)
    ensures forall p: nat :: p < |scan.probes| && scan.probes[p].Gave() ==>
      (p in scan.disposed <==> !(r.Completed? && p in r.detections))
    ensures forall p: nat :: p in scan.disposed || (r.Completed? && p in r.detections) ==>
      p < |scan.probes| && scan.probes[p].Gave()
  {
    scan := new Scan(probeMs, budgetMs, now);
    ghost var kinds;
    r, kinds := scan.Collect(detached);
    scan.Afterwards();
    assert r.Completed? ==> forall p :: p in scan.kept <==> p in r.detections;
  }
}
