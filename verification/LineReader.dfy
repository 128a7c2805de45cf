/** The shared line reader of the interactive console (src/cli-io.ts, makeLineReader).

    Lines and reads are numbered in the order in which they arrive and are issued.
    Capture handlers are callable; whether a handler keeps a line queued (returns false)
    is an input of the event. A handler does not call back into the reader. */
module LineReader {
  import opened Common

  datatype Outcome = Line(line: nat) | EndOfInput | Aborted

  /** delivered lists the lines given to reads, in the order they were given. */
  datatype State = State(
    waiters: seq<nat>, buffered: seq<nat>, deferred: seq<nat>, closed: bool, capture: Option<nat>,
    arrived: nat, issued: nat, settled: map<nat, Outcome>, delivered: seq<nat>, consumed: seq<nat>)
  {
    /** Lines kept for later reads, oldest first. */
    function Held(): seq<nat> { buffered + deferred }
  }

  const INITIAL := State([], [], [], false, None, 0, 0, map[], [], [])

  datatype Event =
    | OnLine(kept: bool)
    | OnClose
    | NextLine(aborted: bool)
    | Abort(read: nat)
    | Capture(handler: nat, keep: nat -> bool)
    | Release(handler: nat)

  function Select(lines: seq<nat>, keep: nat -> bool, want: bool): seq<nat> {
    if lines == [] then []
    else
      var last := lines[|lines| - 1];
      Select(lines[..|lines| - 1], keep, want) + if keep(last) == want then [last] else []
  }

  function Without(s: seq<nat>, x: nat): seq<nat> {
    if s == [] then [] else if s[0] == x then s[1..] else [s[0]] + Without(s[1..], x)
  }

  function Deliver(s: State, read: nat, line: nat): State {
    s.(settled := s.settled[read := Line(line)], delivered := s.delivered + [line])
  }

  /** Resolve every waiting read with null. */
  function EndAll(settled: map<nat, Outcome>, waiters: seq<nat>): (r: map<nat, Outcome>)
    ensures forall x :: x in r <==> x in settled || x in waiters
    ensures forall x :: x in settled && x !in waiters ==> r[x] == settled[x]
    ensures forall x :: x in waiters ==> r[x] == EndOfInput
    decreases |waiters|
  {
    if waiters == [] then settled else EndAll(settled[waiters[0] := EndOfInput], waiters[1..])
  }

  function Next(s: State, e: Event): State {
    match e
    case OnLine(keep) =>
      var line := s.arrived;
      var t := s.(arrived := s.arrived + 1);
      if s.waiters != [] then Deliver(t.(waiters := s.waiters[1..]), s.waiters[0], line)
      else if s.capture.None? then t.(buffered := s.buffered + [line])
      else if keep then t.(deferred := s.deferred + [line])
      else t.(consumed := s.consumed + [line])
    case OnClose =>
      s.(closed := true, waiters := [], settled := EndAll(s.settled, s.waiters))
    case NextLine(aborted) =>
      var read := s.issued;
      var t := s.(issued := s.issued + 1);
      if aborted then t.(settled := s.settled[read := Aborted])
      else if s.buffered != [] then Deliver(t.(buffered := s.buffered[1..]), read, s.buffered[0])
      else if s.closed then t.(settled := s.settled[read := EndOfInput])
      else t.(waiters := s.waiters + [read])
    case Abort(read) =>
      if read in s.waiters then s.(waiters := Without(s.waiters, read), settled := s.settled[read := Aborted])
      else s
    case Capture(handler, keep) =>
      s.(capture := Some(handler), buffered := [],
         deferred := s.deferred + Select(s.buffered, keep, true),
         consumed := s.consumed + Select(s.buffered, keep, false))
    case Release(handler) =>
      if s.capture == Some(handler) then s.(capture := None, buffered := s.buffered + s.deferred, deferred := [])
      else s
  }

  // ---- the invariant ----

  predicate Increasing(s: seq<nat>) {
    forall i, j :: 0 <= i < j < |s| ==> s[i] < s[j]
  }

  ghost function Occurrences(s: seq<nat>, x: nat): nat {
    if s == [] then 0 else Occurrences(s[..|s| - 1], x) + if s[|s| - 1] == x then 1 else 0
  }

  /** How often a line is held: given to a read, buffered, deferred or consumed by a handler. */
  ghost function Count(s: State, line: nat): nat {
    Occurrences(s.delivered, line) + Occurrences(s.buffered, line)
    + Occurrences(s.deferred, line) + Occurrences(s.consumed, line)
  }

  /** Each arrived line is in exactly one place, once. */
  ghost predicate Conserved(s: State) {
    forall line: nat :: Count(s, line) == if line < s.arrived then 1 else 0
  }

  /** A read is settled, or waits, or has not been issued. */
  ghost predicate ReadsAccounted(s: State) {
    && Increasing(s.waiters)
    && (forall r: nat :: r < s.issued <==> (r in s.waiters || r in s.settled))
    && (forall r :: r in s.waiters ==> r !in s.settled)
  }

  ghost predicate Inv(s: State) {
    && Conserved(s) && ReadsAccounted(s) && Increasing(s.Held())
    && (s.capture.Some? ==> s.buffered == [])
    && (s.capture.None? ==> s.deferred == [])
    && (s.closed ==> s.waiters == [])
  }

  // ---- every event keeps it ----

  lemma Tail(s: seq<nat>)
    requires s != [] && Increasing(s)
    ensures Increasing(s[1..]) && forall x :: x in s <==> x == s[0] || x in s[1..]
    ensures forall x :: x in s[1..] ==> s[0] < x
  {
  }

  lemma Prepend(x: nat, s: seq<nat>)
    requires Increasing(s) && forall y :: y in s ==> x < y
    ensures Increasing([x] + s) && forall y :: y in [x] + s <==> y in s || y == x
  {
    assert forall i :: 0 <= i < |s| ==> s[i] in s;
  }

  lemma Append(s: seq<nat>, x: nat)
    requires Increasing(s) && forall y :: y in s ==> y < x
    ensures Increasing(s + [x]) && forall y :: y in s + [x] <==> y in s || y == x
  {
    assert forall i :: 0 <= i < |s| ==> s[i] in s;
  }

  lemma {:induction false} OccurrencesConcat(a: seq<nat>, b: seq<nat>, x: nat)
    ensures Occurrences(a + b, x) == Occurrences(a, x) + Occurrences(b, x)
    decreases |b|
  {
    if b == [] {
      assert a + b == a;
    } else {
      assert (a + b)[..|a + b| - 1] == a + b[..|b| - 1];
      OccurrencesConcat(a, b[..|b| - 1], x);
    }
  }

  lemma OccurrencesOne(x: nat, y: nat)
    ensures Occurrences([y], x) == if y == x then 1 else 0
  {
    assert Occurrences([y][..0], x) == 0;
  }

  lemma {:induction false} MemberOccurs(s: seq<nat>, x: nat)
    requires x in s
    ensures Occurrences(s, x) > 0
    decreases |s|
  {
    if s[|s| - 1] != x { MemberOccurs(s[..|s| - 1], x); }
  }

  lemma {:induction false} SelectSplits(lines: seq<nat>, keep: nat -> bool, x: nat)
    ensures Occurrences(Select(lines, keep, true), x) + Occurrences(Select(lines, keep, false), x) == Occurrences(lines, x)
    decreases |lines|
  {
    if lines != [] {
      var front, last := lines[..|lines| - 1], lines[|lines| - 1];
      SelectSplits(front, keep, x);
      OccurrencesConcat(Select(front, keep, keep(last)), [last], x);
      OccurrencesOne(x, last);
      assert Select(front, keep, !keep(last)) + [] == Select(front, keep, !keep(last));
    }
  }

  /** The lines the handler keeps queued, or those it consumes. */
  lemma {:induction false} SelectIs(lines: seq<nat>, keep: nat -> bool, want: bool)
    ensures forall x :: x in Select(lines, keep, want) <==> x in lines && keep(x) == want
    decreases |lines|
  {
    if lines != [] {
      var front, last := lines[..|lines| - 1], lines[|lines| - 1];
      SelectIs(front, keep, want);
      assert lines == front + [last];
    }
  }

  lemma {:induction false} SelectIncreasing(lines: seq<nat>, keep: nat -> bool)
    requires Increasing(lines)
    ensures Increasing(Select(lines, keep, true)) && forall x :: x in Select(lines, keep, true) ==> x in lines
    decreases |lines|
  {
    if lines != [] {
      var front, last := lines[..|lines| - 1], lines[|lines| - 1];
      SelectIncreasing(front, keep);
      forall x | x in Select(front, keep, true) ensures x < last { assert x in front; }
      Append(Select(front, keep, true), last);
      assert Select(front, keep, true) + [] == Select(front, keep, true);
    }
  }

  lemma {:induction false} WithoutIs(s: seq<nat>, x: nat)
    requires Increasing(s)
    ensures Increasing(Without(s, x)) && forall y :: y in Without(s, x) <==> y in s && y != x
  {
    if s != [] {
      Tail(s);
      hide Increasing;
      WithoutIs(s[1..], x);
      if s[0] != x { Prepend(s[0], Without(s[1..], x)); }
    }
  }

  /** An event adds its own line, if any, and loses or duplicates none. */
  lemma CountNext(s: State, e: Event, line: nat)
    ensures Count(Next(s, e), line) == Count(s, line) + if e.OnLine? && line == s.arrived then 1 else 0
  {
    hide Occurrences, Select;
    assert Occurrences([], line) == 0 by { NoOccurrences(line); }
    match e
    case OnLine(_) =>
      OccurrencesOne(line, s.arrived);
      OccurrencesConcat(s.delivered, [s.arrived], line);
      OccurrencesConcat(s.buffered, [s.arrived], line);
      OccurrencesConcat(s.deferred, [s.arrived], line);
      OccurrencesConcat(s.consumed, [s.arrived], line);
    case NextLine(_) =>
      if s.buffered != [] {
        assert s.buffered == [s.buffered[0]] + s.buffered[1..];
        OccurrencesConcat(s.delivered, [s.buffered[0]], line);
        OccurrencesConcat([s.buffered[0]], s.buffered[1..], line);
      }
    case Capture(_, keep) =>
      SelectSplits(s.buffered, keep, line);
      OccurrencesConcat(s.deferred, Select(s.buffered, keep, true), line);
      OccurrencesConcat(s.consumed, Select(s.buffered, keep, false), line);
    case Release(_) => OccurrencesConcat(s.buffered, s.deferred, line);
    case _ =>
  }

  lemma NoOccurrences(x: nat)
    ensures Occurrences([], x) == 0
  {
  }

  lemma ReadsNext(s: State, e: Event)
    requires ReadsAccounted(s)
    ensures ReadsAccounted(Next(s, e))
  {
    match e
    case OnLine(_) =>
      if s.waiters != [] { Tail(s.waiters); }
    case NextLine(_) => Append(s.waiters, s.issued);
    case Abort(read) => WithoutIs(s.waiters, read);
    case _ =>
  }

  lemma HeldIsOld(s: State)
    requires Conserved(s)
    ensures forall line :: line in s.Held() ==> line < s.arrived
  {
    forall line | line in s.Held() ensures line < s.arrived {
      if line in s.buffered { MemberOccurs(s.buffered, line); } else { MemberOccurs(s.deferred, line); }
      assert Count(s, line) > 0;
    }
  }

  lemma LineKeepsHeld(s: State, keep: bool)
    requires Inv(s)
    ensures Increasing(Next(s, OnLine(keep)).Held())
  {
    HeldIsOld(s);
    hide Conserved, ReadsAccounted, Increasing;
    Append(s.Held(), s.arrived);
    assert s.capture.None? ==> s.buffered + [s.arrived] + [] == s.Held() + [s.arrived];
    assert s.capture.Some? ==> [] + (s.deferred + [s.arrived]) == s.Held() + [s.arrived];
  }

  lemma CaptureKeepsHeld(s: State, keep: nat -> bool)
    requires Inv(s)
    ensures Increasing(s.deferred + Select(s.buffered, keep, true))
  {
    if s.capture.None? {
      SelectIncreasing(s.Held(), keep);
      assert s.Held() == s.buffered;
      assert s.deferred + Select(s.buffered, keep, true) == Select(s.buffered, keep, true);
    } else {
      assert s.deferred + Select(s.buffered, keep, true) == s.deferred == s.Held();
    }
  }

  lemma HeldNext(s: State, e: Event)
    requires Inv(s)
    ensures Increasing(Next(s, e).Held())
  {
    match e
    case OnLine(keep) => LineKeepsHeld(s, keep);
    case NextLine(_) =>
      hide Conserved, ReadsAccounted, Increasing;
      if s.buffered != [] {
        Tail(s.Held());
        assert s.Held()[1..] == s.buffered[1..] + s.deferred;
      }
    case Capture(handler, keep) =>
      CaptureKeepsHeld(s, keep);
      hide Conserved, ReadsAccounted, Increasing;
      assert Next(s, Capture(handler, keep)).Held() == s.deferred + Select(s.buffered, keep, true);
    case Release(_) =>
      hide Conserved, ReadsAccounted, Increasing;
      assert s.buffered + s.deferred + [] == s.Held();
    case _ =>
  }

  lemma EventKeeps(s: State, e: Event)
    requires Inv(s)
    ensures Inv(Next(s, e))
  {
    hide Count, ReadsAccounted, Increasing, Select;
    forall line: nat ensures Count(Next(s, e), line) == Count(s, line) + if e.OnLine? && line == s.arrived then 1 else 0 {
      CountNext(s, e, line);
    }
    ReadsNext(s, e);
    HeldNext(s, e);
  }

  // ---- runs ----

  ghost predicate IsRun(es: seq<Event>, ss: seq<State>) {
    && |ss| == |es| + 1 && ss[0] == INITIAL
    && forall k :: 0 <= k < |es| ==> ss[k + 1] == Next(ss[k], es[k])
  }

  lemma {:induction false} RunKeeps(es: seq<Event>, ss: seq<State>, k: nat)
    requires IsRun(es, ss) && k < |ss|
    ensures Inv(ss[k])
  {
    if k == 0 {
      assert INITIAL.Held() == [];
    } else {
      RunKeeps(es, ss, k - 1);
      hide Inv, Next;
      EventKeeps(ss[k - 1], es[k - 1]);
    }
  }

  // ---- each line to one read ----

  ghost predicate Got(s: State, read: nat) {
    read in s.settled && s.settled[read].Line?
  }

  ghost predicate GivenAreDelivered(s: State) {
    forall r :: Got(s, r) ==> s.settled[r].line in s.delivered
  }

  ghost predicate DeliveredAreGiven(s: State) {
    forall line :: line in s.delivered ==> exists r :: Got(s, r) && s.settled[r].line == line
  }

  ghost predicate GivenApart(s: State) {
    forall r, t :: r != t && Got(s, r) && Got(s, t) ==> s.settled[r].line != s.settled[t].line
  }

  /** The delivered lines are those that reads got, each by one read. */
  ghost predicate GivenOnce(s: State) {
    GivenAreDelivered(s) && DeliveredAreGiven(s) && GivenApart(s)
  }

  lemma DeliveredIsOld(s: State)
    requires Conserved(s)
    ensures forall line :: line in s.delivered ==> line < s.arrived
  {
    forall line | line in s.delivered ensures line < s.arrived {
      MemberOccurs(s.delivered, line);
      assert Count(s, line) > 0;
    }
  }

  lemma DeliveredDiffers(s: State)
    requires Conserved(s) && s.buffered != []
    ensures s.buffered[0] !in s.delivered
  {
    var line := s.buffered[0];
    assert line in s.buffered;
    MemberOccurs(s.buffered, line);
    assert Count(s, line) <= 1;
    if line in s.delivered { MemberOccurs(s.delivered, line); }
  }

  lemma GiveKeeps(s: State, t: State, read: nat, line: nat)
    requires GivenOnce(s) && read !in s.settled && line !in s.delivered
    requires t.settled == s.settled[read := Line(line)] && t.delivered == s.delivered + [line]
    ensures GivenOnce(t)
  {
    assert Got(t, read) && forall r :: r != read ==> (Got(t, r) <==> Got(s, r));
    assert forall r :: Got(s, r) ==> t.settled[r] == s.settled[r];
    forall d | d in t.delivered ensures exists r :: Got(t, r) && t.settled[r].line == d {
      if d != line {
        var r :| Got(s, r) && s.settled[r].line == d;
        assert Got(t, r) && t.settled[r].line == d;
      }
    }
  }

  lemma NothingGivenKeeps(s: State, t: State)
    requires GivenOnce(s) && t.delivered == s.delivered
    requires forall r :: (Got(t, r) <==> Got(s, r)) && (Got(s, r) ==> t.settled[r] == s.settled[r])
    ensures GivenOnce(t)
  {
    forall d | d in t.delivered ensures exists r :: Got(t, r) && t.settled[r].line == d {
      var r :| Got(s, r) && s.settled[r].line == d;
      assert Got(t, r) && t.settled[r].line == d;
    }
  }

  /** No event gives a line to a second read. */
  lemma GivenOnceNext(s: State, e: Event)
    requires Inv(s) && GivenOnce(s)
    ensures GivenOnce(Next(s, e))
  {
    var t := Next(s, e);
    DeliveredIsOld(s);
    if e.OnLine? && s.waiters != [] {
      assert s.waiters[0] in s.waiters;
      hide Inv, GivenOnce;
      GiveKeeps(s, t, s.waiters[0], s.arrived);
    } else if e == NextLine(false) && s.buffered != [] {
      DeliveredDiffers(s);
      hide Conserved, GivenOnce;
      GiveKeeps(s, t, s.issued, s.buffered[0]);
    } else {
      hide Conserved, GivenOnce;
      NothingGivenKeeps(s, t);
    }
  }

  lemma {:induction false} RunGivesOnce(es: seq<Event>, ss: seq<State>, k: nat)
    requires IsRun(es, ss) && k < |ss|
    ensures GivenOnce(ss[k])
  {
    if k > 0 {
      RunGivesOnce(es, ss, k - 1);
      RunKeeps(es, ss, k - 1);
      hide Inv, GivenOnce, Next;
      GivenOnceNext(ss[k - 1], es[k - 1]);
    }
  }

  /** In every run each line is in exactly one place, the delivered lines are those that reads got,
      no two reads got the same line, an active capture means nothing is buffered, no capture means
      nothing is deferred, and no read waits on closed input. */
  lemma EveryRunConserves(es: seq<Event>, ss: seq<State>, k: nat)
    requires IsRun(es, ss) && k < |ss|
    ensures Conserved(ss[k]) && GivenOnce(ss[k]) && ReadsAccounted(ss[k])
    ensures if ss[k].capture.Some? then ss[k].buffered == [] else ss[k].deferred == []
    ensures ss[k].closed ==> ss[k].waiters == []
  {
    RunKeeps(es, ss, k);
    RunGivesOnce(es, ss, k);
  }

  /** A settled read keeps its outcome. */
  lemma SettledOnce(s: State, e: Event, read: nat)
    requires ReadsAccounted(s) && read in s.settled
    ensures read in Next(s, e).settled && Next(s, e).settled[read] == s.settled[read]
  {
    if e.OnLine? && s.waiters != [] {
      assert s.waiters[0] in s.waiters;
    }
  }

  // ---- arrival order ----

  /** Lines were given out in arrival order, and none was passed over. */
  ghost predicate InOrder(s: State) {
    Increasing(s.delivered) && forall d, h :: d in s.delivered && h in s.Held() ==> d < h
  }

  lemma CapturedFromHeld(s: State, keep: nat -> bool)
    requires Inv(s)
    ensures forall h :: h in s.deferred + Select(s.buffered, keep, true) ==> h in s.Held()
  {
    if s.capture.None? {
      assert s.Held() == s.buffered;
      SelectIncreasing(s.buffered, keep);
    }
  }

  lemma LineKeepsOrderIff(s: State, keep: bool)
    requires Inv(s) && InOrder(s)
    ensures InOrder(Next(s, OnLine(keep))) <==> !(s.waiters != [] && s.Held() != [])
  {
    HeldIsOld(s);
    DeliveredIsOld(s);
    hide Conserved, ReadsAccounted, Increasing;
    var t := Next(s, OnLine(keep));
    Append(s.delivered, s.arrived);
    if s.waiters != [] && s.Held() != [] {
      assert s.arrived in t.delivered && s.Held()[0] in s.Held() && t.Held() == s.Held();
    } else if s.waiters == [] {
      assert forall h :: h in t.Held() ==> h in s.Held() || h == s.arrived;
    }
  }

  lemma ReadKeepsOrder(s: State, aborted: bool)
    requires Inv(s) && InOrder(s)
    ensures InOrder(Next(s, NextLine(aborted)))
  {
    hide Conserved, ReadsAccounted, Increasing;
    if !aborted && s.buffered != [] {
      assert s.buffered[0] in s.Held();
      Append(s.delivered, s.buffered[0]);
      Tail(s.Held());
      assert s.Held()[1..] == Next(s, NextLine(aborted)).Held();
    }
  }

  /** One event keeps the order exactly when it does not hand a new line to a waiting read
      over the head of a held one. */
  lemma OrderKeptIff(s: State, e: Event)
    requires Inv(s) && InOrder(s)
    ensures InOrder(Next(s, e)) <==> !(e.OnLine? && s.waiters != [] && s.Held() != [])
  {
    match e
    case OnLine(keep) => LineKeepsOrderIff(s, keep);
    case NextLine(aborted) => ReadKeepsOrder(s, aborted);
    case Capture(_, keep) =>
      hide Conserved, ReadsAccounted, Increasing;
      CapturedFromHeld(s, keep);
    case _ =>
      hide Conserved, ReadsAccounted, Increasing;
  }

  /** A read issued while lines are deferred: nothing is buffered, so it waits behind them. */
  ghost predicate SkipsHeld(s: State, e: Event) {
    e == NextLine(false) && s.buffered == [] && s.deferred != [] && !s.closed
  }

  lemma WaitStep(s: State, e: Event)
    requires Inv(s) && !SkipsHeld(s, e) && (s.waiters != [] ==> s.Held() == [])
    ensures Next(s, e).waiters != [] ==> Next(s, e).Held() == []
  {
    hide Conserved, ReadsAccounted, Increasing;
    match e
    case Abort(read) => WithoutOfEmpty(read);
    case Capture(_, keep) => assert s.buffered == [] ==> Select(s.buffered, keep, true) == [];
    case _ =>
  }

  lemma WithoutOfEmpty(x: nat)
    ensures Without([], x) == []
  {
  }

  /** In a run without such a read, lines are given out in arrival order at every point. */
  lemma {:induction false} NoSkipNoWaitOverHeld(es: seq<Event>, ss: seq<State>, k: nat)
    requires IsRun(es, ss) && k < |ss| && forall i :: 0 <= i < |es| ==> !SkipsHeld(ss[i], es[i])
    ensures InOrder(ss[k]) && (ss[k].waiters != [] ==> ss[k].Held() == [])
  {
    if k == 0 {
      assert INITIAL.Held() == [];
    } else {
      var s, e := ss[k - 1], es[k - 1];
      RunKeeps(es, ss, k - 1);
      NoSkipNoWaitOverHeld(es, ss, k - 1);
      hide InOrder, Inv, Next, SkipsHeld;
      OrderKeptIff(s, e);
      WaitStep(s, e);
    }
  }

  /** A line arrives while a read waits and older lines are held. */
  ghost predicate Overtakes(s: State, e: Event) {
    e.OnLine? && s.waiters != [] && s.Held() != []
  }

  lemma {:induction false} OrderedWithoutOvertaking(es: seq<Event>, ss: seq<State>, k: nat)
    requires IsRun(es, ss) && k < |ss| && forall i :: 0 <= i < k ==> !Overtakes(ss[i], es[i])
    ensures InOrder(ss[k])
  {
    if k == 0 {
      assert INITIAL.Held() == [];
    } else {
      RunKeeps(es, ss, k - 1);
      OrderedWithoutOvertaking(es, ss, k - 1);
      hide InOrder, Inv, Next;
      OrderKeptIff(ss[k - 1], es[k - 1]);
    }
  }

  /** A run gives its lines out in arrival order, at every point, if and only if no line of it
      arrives while a read waits and older lines are held. */
  lemma RunInOrderIff(es: seq<Event>, ss: seq<State>)
    requires IsRun(es, ss)
    ensures (forall k :: 0 <= k < |ss| ==> InOrder(ss[k])) <==> (forall i :: 0 <= i < |es| ==> !Overtakes(ss[i], es[i]))
  {
    if forall i :: 0 <= i < |es| ==> !Overtakes(ss[i], es[i]) {
      forall k | 0 <= k < |ss| ensures InOrder(ss[k]) { OrderedWithoutOvertaking(es, ss, k); }
    }
    if forall k :: 0 <= k < |ss| ==> InOrder(ss[k]) {
      forall i | 0 <= i < |es| ensures !Overtakes(ss[i], es[i]) {
        RunKeeps(es, ss, i);
        hide InOrder, Inv, Next;
        assert InOrder(ss[i]) && InOrder(ss[i + 1]);
        OrderKeptIff(ss[i], es[i]);
      }
    }
  }

  /** A read issued while lines are deferred is served by the next line, before the deferred ones. */
  lemma SkippingReadBreaksOrder(s: State, e: Event, kept: bool)
    requires Inv(s) && InOrder(s) && SkipsHeld(s, e)
    ensures InOrder(Next(s, e)) && !InOrder(Next(Next(s, e), OnLine(kept)))
  {
    EventKeeps(s, e);
    OrderKeptIff(s, e);
    OrderKeptIff(Next(s, e), OnLine(kept));
  }

  /** The smallest such run: line 0 is deferred by a capture, a read is issued, and gets line 1. */
  lemma OutOfOrderRun() returns (es: seq<Event>, ss: seq<State>)
    ensures IsRun(es, ss) && ss[|es|].settled == map[0 := Line(1)] && ss[|es|].Held() == [0]
  {
    var keep := (line: nat) => true;
    var s1 := Next(INITIAL, Capture(7, keep));
    var s2 := Next(s1, OnLine(true));
    var s3 := Next(s2, NextLine(false));
    var s4 := Next(s3, OnLine(true));
    es := [Capture(7, keep), OnLine(true), NextLine(false), OnLine(true)];
    ss := [INITIAL, s1, s2, s3, s4];
  }

  // ---- which read gets which line ----

  /** A read issued while no handler captures gets the oldest held line, whatever reads wait;
      held lines are held oldest first. With nothing held it waits for a line to come. */
  lemma UncapturedReadGetsOldest(es: seq<Event>, ss: seq<State>, k: nat)
    requires IsRun(es, ss) && k < |es| && es[k] == NextLine(false) && ss[k].capture.None?
    ensures Increasing(ss[k].Held())
    ensures var read := ss[k].issued;
      if ss[k].Held() != [] then
        && read in ss[k + 1].settled && ss[k + 1].settled[read] == Line(ss[k].Held()[0])
        && ss[k + 1].Held() == ss[k].Held()[1..]
      else ss[k + 1].Held() == [] && (!ss[k].closed ==> ss[k + 1].waiters == ss[k].waiters + [read])
  {
    RunKeeps(es, ss, k);
    assert ss[k].Held() == ss[k].buffered;
    assert ss[k + 1].Held() == ss[k + 1].buffered;
  }

  /** The first waiting read gets the next line that arrives. */
  lemma FirstWaiterGetsNext(es: seq<Event>, ss: seq<State>, k: nat)
    requires IsRun(es, ss) && k < |es| && es[k].OnLine? && ss[k].waiters != []
    ensures ss[k + 1].settled == ss[k].settled[ss[k].waiters[0] := Line(ss[k].arrived)]
    ensures forall w :: w in ss[k].waiters ==> ss[k].waiters[0] <= w
  {
    RunKeeps(es, ss, k);
  }

  /** Earlier reads got earlier lines. */
  ghost predicate ReadsInOrder(s: State) {
    forall r, t :: r < t && Got(s, r) && Got(s, t) ==> s.settled[r].line < s.settled[t].line
  }

  /** A line arrives for a waiting read after a later read has got one. */
  ghost predicate Belated(s: State, e: Event) {
    e.OnLine? && s.waiters != [] && exists r :: Got(s, r) && s.waiters[0] < r
  }

  /** A read is handed a held line after some read got a newer one. */
  ghost predicate Stale(s: State, e: Event) {
    e == NextLine(false) && s.buffered != [] && exists r :: Got(s, r) && s.buffered[0] < s.settled[r].line
  }

  lemma BelatedBreaks(s: State, keep: bool)
    requires Inv(s) && GivenAreDelivered(s) && ReadsInOrder(s) && s.waiters != []
    ensures ReadsInOrder(Next(s, OnLine(keep))) <==> !Belated(s, OnLine(keep))
  {
    DeliveredIsOld(s);
    assert s.waiters[0] in s.waiters;
    hide Conserved, Increasing;
    var t, w := Next(s, OnLine(keep)), s.waiters[0];
    assert Got(t, w) && t.settled[w].line == s.arrived && forall r :: r != w ==> (Got(t, r) <==> Got(s, r));
    assert forall r :: Got(s, r) ==> s.settled[r].line < s.arrived && t.settled[r] == s.settled[r];
    if r :| Got(s, r) && w < r {
      assert Got(t, r) && t.settled[r].line < t.settled[w].line;
    }
  }

  lemma StaleBreaks(s: State)
    requires Inv(s) && GivenAreDelivered(s) && ReadsInOrder(s) && s.buffered != []
    ensures ReadsInOrder(Next(s, NextLine(false))) <==> !Stale(s, NextLine(false))
  {
    DeliveredDiffers(s);
    assert forall r: nat :: Got(s, r) ==> r < s.issued && s.settled[r].line != s.buffered[0];
    hide Inv, GivenAreDelivered;
    var t, w := Next(s, NextLine(false)), s.issued;
    assert Got(t, w) && t.settled[w].line == s.buffered[0] && forall r :: r != w ==> (Got(t, r) <==> Got(s, r));
    assert forall r :: Got(s, r) ==> r < w && t.settled[r] == s.settled[r];
    if r :| Got(s, r) && s.buffered[0] < s.settled[r].line {
      assert Got(t, r) && t.settled[w].line < t.settled[r].line;
    }
  }

  /** One event keeps the order of the reads exactly when it is neither belated nor stale. */
  lemma ReadsKeptIff(s: State, e: Event)
    requires Inv(s) && GivenAreDelivered(s) && ReadsInOrder(s)
    ensures ReadsInOrder(Next(s, e)) <==> !Belated(s, e) && !Stale(s, e)
  {
    if e.OnLine? && s.waiters != [] {
      BelatedBreaks(s, e.kept);
    } else if e == NextLine(false) && s.buffered != [] {
      StaleBreaks(s);
    } else {
      var t := Next(s, e);
      assert forall r :: Got(t, r) <==> Got(s, r);
      assert forall r :: Got(s, r) ==> t.settled[r] == s.settled[r];
    }
  }

  lemma {:induction false} OrderedReads(es: seq<Event>, ss: seq<State>, k: nat)
    requires IsRun(es, ss) && k < |ss| && forall i :: 0 <= i < k ==> !Belated(ss[i], es[i]) && !Stale(ss[i], es[i])
    ensures ReadsInOrder(ss[k])
  {
    if k > 0 {
      RunKeeps(es, ss, k - 1);
      RunGivesOnce(es, ss, k - 1);
      OrderedReads(es, ss, k - 1);
      hide Inv, Next, ReadsInOrder, GivenAreDelivered, Belated, Stale;
      ReadsKeptIff(ss[k - 1], es[k - 1]);
    }
  }

  /** A run gives earlier reads earlier lines, at every point, if and only if no line of it comes
      belated for a waiting read and no read is handed a stale one. */
  lemma RunReadsInOrderIff(es: seq<Event>, ss: seq<State>)
    requires IsRun(es, ss)
    ensures (forall k :: 0 <= k < |ss| ==> ReadsInOrder(ss[k])) <==>
      (forall i :: 0 <= i < |es| ==> !Belated(ss[i], es[i]) && !Stale(ss[i], es[i]))
  {
    hide Belated, Stale, ReadsInOrder;
    if forall i :: 0 <= i < |es| ==> !Belated(ss[i], es[i]) && !Stale(ss[i], es[i]) {
      forall k | 0 <= k < |ss| ensures ReadsInOrder(ss[k]) { OrderedReads(es, ss, k); }
    }
    if forall k :: 0 <= k < |ss| ==> ReadsInOrder(ss[k]) {
      forall i | 0 <= i < |es| ensures !Belated(ss[i], es[i]) && !Stale(ss[i], es[i]) {
        RunKeeps(es, ss, i);
        RunGivesOnce(es, ss, i);
        hide Inv, Next, GivenAreDelivered;
        assert ReadsInOrder(ss[i]) && ReadsInOrder(ss[i + 1]);
        ReadsKeptIff(ss[i], es[i]);
      }
    }
  }

  /** If no read is issued while lines are deferred, both orders hold at every point: lines are
      given out as they arrived, and earlier reads get earlier lines. */
  lemma {:induction false} NoSkipKeepsBothOrders(es: seq<Event>, ss: seq<State>, k: nat)
    requires IsRun(es, ss) && k < |ss| && forall i :: 0 <= i < |es| ==> !SkipsHeld(ss[i], es[i])
    ensures InOrder(ss[k]) && ReadsInOrder(ss[k]) && NoneWaitsBehind(ss[k])
  {
    NoSkipNoWaitOverHeld(es, ss, k);
    if k > 0 {
      var s, e := ss[k - 1], es[k - 1];
      RunKeeps(es, ss, k - 1);
      RunGivesOnce(es, ss, k - 1);
      NoSkipNoWaitOverHeld(es, ss, k - 1);
      NoSkipKeepsBothOrders(es, ss, k - 1);
      NeitherBelatedNorStale(s, e);
      ReadsKeptIff(s, e);
      NoneWaitsNext(s, e);
    }
  }

  /** No read that has got a line is later than one that waits. */
  ghost predicate NoneWaitsBehind(s: State) {
    forall r: nat, w: nat :: Got(s, r) && w in s.waiters ==> r < w
  }

  lemma NeitherBelatedNorStale(s: State, e: Event)
    requires Inv(s) && GivenAreDelivered(s) && InOrder(s) && NoneWaitsBehind(s)
    ensures !Belated(s, e) && !Stale(s, e)
  {
    assert s.waiters != [] ==> s.waiters[0] in s.waiters;
    assert s.buffered != [] ==> s.Held()[0] == s.buffered[0] && s.Held()[0] in s.Held();
  }

  lemma NoneWaitsRead(s: State, aborted: bool)
    requires ReadsAccounted(s) && NoneWaitsBehind(s) && (s.waiters != [] ==> s.Held() == [])
    ensures NoneWaitsBehind(Next(s, NextLine(aborted)))
  {
    assert s.buffered != [] ==> s.Held() != [];
    var t := Next(s, NextLine(aborted));
    forall r: nat, w: nat | Got(t, r) && w in t.waiters ensures r < w {
      assert w in s.waiters || w == s.issued;
      assert Got(s, r) ==> r in s.settled && r < s.issued;
    }
  }

  lemma NoneWaitsNext(s: State, e: Event)
    requires Inv(s) && NoneWaitsBehind(s) && (s.waiters != [] ==> s.Held() == [])
    ensures NoneWaitsBehind(Next(s, e))
  {
    hide Conserved;
    match e
    case OnLine(keep) => NoneWaitsLine(s, keep);
    case NextLine(aborted) => NoneWaitsRead(s, aborted);
    case Abort(read) => NoneWaitsAbort(s, read);
    case OnClose =>
    case _ =>
      var t := Next(s, e);
      forall r: nat, w: nat | Got(t, r) && w in t.waiters ensures r < w {
        assert Got(s, r) && w in s.waiters;
      }
  }

  lemma NoneWaitsLine(s: State, keep: bool)
    requires ReadsAccounted(s) && NoneWaitsBehind(s)
    ensures NoneWaitsBehind(Next(s, OnLine(keep)))
  {
    if s.waiters != [] { Tail(s.waiters); }
    var t := Next(s, OnLine(keep));
    forall r: nat, w: nat | Got(t, r) && w in t.waiters ensures r < w {
      assert w in s.waiters && (Got(s, r) || r == s.waiters[0]);
    }
  }

  lemma NoneWaitsAbort(s: State, read: nat)
    requires ReadsAccounted(s) && NoneWaitsBehind(s)
    ensures NoneWaitsBehind(Next(s, Abort(read)))
  {
    WithoutIs(s.waiters, read);
    var t := Next(s, Abort(read));
    forall r: nat, w: nat | Got(t, r) && w in t.waiters ensures r < w {
      assert Got(s, r) && w in s.waiters;
    }
  }

  ghost predicate CalmRun(es: seq<Event>, ss: seq<State>) {
    IsRun(es, ss) && forall i :: 0 <= i < |es| ==> !Overtakes(ss[i], es[i])
  }

  lemma CalmNext(es: seq<Event>, ss: seq<State>, e: Event)
    requires CalmRun(es, ss) && !Overtakes(ss[|es|], e)
    ensures CalmRun(es + [e], ss + [Next(ss[|es|], e)])
  {
  }

  lemma SwappedRun() returns (es: seq<Event>, ss: seq<State>)
    ensures CalmRun(es, ss) && ss[|es|].settled == map[0 := Line(1), 1 := Line(0)]
  {
    var events := [Capture(7, (line: nat) => true), OnLine(true), NextLine(false), Release(7), NextLine(false), OnLine(true)];
    var s3, s4 := State([0], [], [0], false, Some(7), 1, 1, map[], [], []), State([0], [0], [], false, None, 1, 1, map[], [], []);
    var s5 := State([0], [], [], false, None, 1, 2, map[1 := Line(0)], [0], []);
    es, ss := [], [INITIAL];
    for k := 0 to 6
      invariant |es| == k && |ss| == k + 1 && CalmRun(es, ss)
      invariant k == 1 ==> ss[k] == State([], [], [], false, Some(7), 0, 0, map[], [], [])
      invariant k == 2 ==> ss[k] == State([], [], [0], false, Some(7), 1, 0, map[], [], [])
      invariant (k == 0 ==> ss[k] == INITIAL) && (k == 3 ==> ss[k] == s3) && (k == 4 ==> ss[k] == s4) && (k == 5 ==> ss[k] == s5)
      invariant k == 6 ==> ss[k].settled == map[0 := Line(1), 1 := Line(0)]
    {
      assert s5.Held() == [];
      CalmNext(es, ss, events[k]);
      hide CalmRun;
      es, ss := es + [events[k]], ss + [Next(ss[k], events[k])];
    }
  }

  /** A run of six events that gives out every line in arrival order, but the second line to the
      first read and the first line to the second. */
  lemma ReadsOutOfOrderRun() returns (es: seq<Event>, ss: seq<State>)
    ensures IsRun(es, ss) && ss[|es|].settled == map[0 := Line(1), 1 := Line(0)]
    ensures forall k :: 0 <= k < |ss| ==> InOrder(ss[k])
  {
    es, ss := SwappedRun();
    hide InOrder, IsRun, Overtakes;
    RunInOrderIff(es, ss);
  }

  lemma AbortFrees(s: State, read: nat)
    requires Inv(s)
    ensures forall r :: r in Without(s.waiters, read) <==> r in s.waiters && r != read
  {
    hide Conserved;
    WithoutIs(s.waiters, read);
  }

  // ---- the reader object ----

  class Reader {
    var waiters: seq<nat>
    var buffered: seq<nat>
    var deferred: seq<nat>
    var closed: bool
    var capture: Option<nat>
    var arrived: nat
    var issued: nat
    ghost var settled: map<nat, Outcome>
    ghost var delivered: seq<nat>
    ghost var consumed: seq<nat>

    ghost function Model(): State
      reads this
    {
      State(waiters, buffered, deferred, closed, capture, arrived, issued, settled, delivered, consumed)
    }

    ghost predicate Valid()
      reads this
    {
      Inv(Model()) && GivenOnce(Model())
    }

    constructor ()
      ensures Valid() && Model() == INITIAL
    {
      waiters, buffered, deferred, closed, capture := [], [], [], false, None;
      arrived, issued, settled, delivered, consumed := 0, 0, map[], [], [];
      new;
      assert INITIAL.Held() == [];
    }

    /** The "line" listener. */
    method HandleLine(kept: bool)
      requires Valid()
      modifies this`arrived, this`settled, this`delivered, this`waiters, this`buffered, this`deferred, this`consumed
      ensures Valid() && Model() == Next(old(Model()), OnLine(kept)) && arrived == old(arrived) + 1
      ensures old(waiters) != [] ==>
        && waiters == old(waiters)[1..] && settled == old(settled)[old(waiters)[0] := Line(old(arrived))]
        && delivered == old(delivered) + [old(arrived)]
        && buffered == old(buffered) && deferred == old(deferred) && consumed == old(consumed)
      ensures old(waiters) == [] ==>
        && waiters == [] && settled == old(settled) && delivered == old(delivered)
        && buffered == (if capture.None? then old(buffered) + [old(arrived)] else old(buffered))
        && deferred == (if capture.Some? && kept then old(deferred) + [old(arrived)] else old(deferred))
        && consumed == (if capture.Some? && !kept then old(consumed) + [old(arrived)] else old(consumed))
    {
      hide Inv, GivenOnce;
      EventKeeps(Model(), OnLine(kept));
      GivenOnceNext(Model(), OnLine(kept));
      var line := arrived;
      arrived := arrived + 1;
      if waiters != [] {
        settled, delivered := settled[waiters[0] := Line(line)], delivered + [line];
        waiters := waiters[1..];
      } else if capture.None? {
        buffered := buffered + [line];
      } else if kept {
        deferred := deferred + [line];
      } else {
        consumed := consumed + [line];
      }
    }

    /** The "close" listener: every waiting read resolves with null. */
    method HandleClose()
      requires Valid()
      modifies this`closed, this`waiters, this`settled
      ensures Valid() && Model() == Next(old(Model()), OnClose)
      ensures closed && waiters == []
      ensures forall r :: r in settled <==> r in old(settled) || r in old(waiters)
      ensures forall r :: r in settled ==> settled[r] == if r in old(waiters) then EndOfInput else old(settled)[r]
    {
      EventKeeps(Model(), OnClose);
      GivenOnceNext(Model(), OnClose);
      closed := true;
      ghost var all := EndAll(settled, waiters);
      while waiters != []
        invariant EndAll(settled, waiters) == all
        invariant Model() == old(Model()).(closed := true, waiters := waiters, settled := settled)
        decreases |waiters|
      {
        settled := settled[waiters[0] := EndOfInput];
        waiters := waiters[1..];
      }
    }

    method ReadLine(aborted: bool) returns (read: nat)
      requires Valid()
      modifies this`issued, this`settled, this`delivered, this`buffered, this`waiters
      ensures Valid() && Model() == Next(old(Model()), NextLine(aborted)) && read == old(issued) && issued == read + 1
      ensures var taken := !aborted && old(buffered) != [];
        && buffered == (if taken then old(buffered)[1..] else old(buffered))
        && delivered == (if taken then old(delivered) + [old(buffered)[0]] else old(delivered))
        && waiters == (if aborted || taken || closed then old(waiters) else old(waiters) + [read])
        && settled == if aborted then old(settled)[read := Aborted]
             else if taken then old(settled)[read := Line(old(buffered)[0])]
             else if closed then old(settled)[read := EndOfInput]
             else old(settled)
    {
      hide Inv, GivenOnce;
      EventKeeps(Model(), NextLine(aborted));
      GivenOnceNext(Model(), NextLine(aborted));
      read := issued;
      issued := issued + 1;
      if aborted {
        settled := settled[read := Aborted];
      } else if buffered != [] {
        settled, delivered := settled[read := Line(buffered[0])], delivered + [buffered[0]];
        buffered := buffered[1..];
      } else if closed {
        settled := settled[read := EndOfInput];
      } else {
        waiters := waiters + [read];
      }
    }

    /** The abort listener of a read; it was removed if the read has settled. */
    method AbortRead(read: nat)
      requires Valid()
      modifies this`waiters, this`settled
      ensures Valid() && Model() == Next(old(Model()), Abort(read))
      ensures forall r :: r in waiters <==> r in old(waiters) && r != read
      ensures settled == if read in old(waiters) then old(settled)[read := Aborted] else old(settled)
    {
      hide Inv, GivenOnce;
      EventKeeps(Model(), Abort(read));
      GivenOnceNext(Model(), Abort(read));
      AbortFrees(Model(), read);
      if read in waiters {
        waiters := Without(waiters, read);
        settled := settled[read := Aborted];
      }
    }

    /** Route lines to a handler, first those already buffered. */
    method StartCapture(handler: nat, keep: nat -> bool)
      requires Valid()
      modifies this`capture, this`buffered, this`deferred, this`consumed
      ensures Valid() && Model() == Next(old(Model()), Capture(handler, keep))
      ensures capture == Some(handler) && buffered == [] && old(deferred) <= deferred && old(consumed) <= consumed
      ensures forall line :: line in deferred <==> line in old(deferred) || (line in old(buffered) && keep(line))
      ensures forall line :: line in consumed <==> line in old(consumed) || (line in old(buffered) && !keep(line))
    {
      hide Inv, GivenOnce;
      EventKeeps(Model(), Capture(handler, keep));
      GivenOnceNext(Model(), Capture(handler, keep));
      capture := Some(handler);
      var pending := buffered;
      SelectIs(pending, keep, true);
      SelectIs(pending, keep, false);
      buffered := [];
      Offer(pending, keep);
    }

    /** Offer held lines to the handler; those it returns false for are deferred. */
    method Offer(pending: seq<nat>, keep: nat -> bool)
      modifies this`deferred, this`consumed
      ensures deferred == old(deferred) + Select(pending, keep, true)
      ensures consumed == old(consumed) + Select(pending, keep, false)
    {
      for i := 0 to |pending|
        invariant deferred == old(deferred) + Select(pending[..i], keep, true)
        invariant consumed == old(consumed) + Select(pending[..i], keep, false)
      {
        assert pending[..i + 1][..i] == pending[..i];
        if keep(pending[i]) {
          deferred := deferred + [pending[i]];
        } else {
          consumed := consumed + [pending[i]];
        }
      }
      assert pending[..|pending|] == pending;
    }

    /** The function StartCapture returns. */
    method ReleaseCapture(handler: nat)
      requires Valid()
      modifies this`capture, this`buffered, this`deferred
      ensures Valid() && Model() == Next(old(Model()), Release(handler))
      ensures old(capture) == Some(handler) ==> capture == None && buffered == old(buffered) + old(deferred) && deferred == []
      ensures old(capture) != Some(handler) ==>
        capture == old(capture) && buffered == old(buffered) && deferred == old(deferred)
    {
      hide Inv, GivenOnce;
      EventKeeps(Model(), Release(handler));
      GivenOnceNext(Model(), Release(handler));
      if capture == Some(handler) {
        capture := None;
        buffered, deferred := buffered + deferred, [];
      }
    }
  }
}
