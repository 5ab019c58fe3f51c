/**
 The broker events monitor: its name cache as an ordered dictionary updated in
 place, the event handlers, and the dispatch of one broker message.
 */
module BrokerMonitor {
  import opened Options
  import opened NameIndex
  import opened Sets

  /** `Unhashable` is a `type` field that cannot be looked up; `Other` has no handler. */
  datatype Kind = Started | Succeeded | Failed | Retried | Revoked | Other | Unhashable {
    predicate Supported() { !Other? && !Unhashable? }

    /** The kinds after which the monitor forgets the task. */
    predicate Terminal() { Succeeded? || Failed? || Revoked? }
  }

  /**
   How a handler ends behind its safe boundary: it may raise before it reads
   the name cache (an unusable uuid or runtime), or afterwards (mapping, sink).
   */
  datatype Outcome = RaisesEarly | RaisesLate | Completes

  /** One event of a message body; a field that is absent is the empty string. */
  datatype Event =
    | NotAMapping
    | Event(host: string, kind: Kind, uuid: string, name: string, outcome: Outcome)

  /** A kombu message body: a `task-multi` list or a single event. */
  datatype Body = Batch(events: seq<Event>) | Single(event: Event) {
    function Events(): seq<Event> {
      match this
      case Batch(events) => events
      case Single(event) => [event]
    }
  }

  /** What the sink received. */
  datatype Mapped = Mapped(kind: Kind, uuid: string, name: Option<string>)

  predicate Admits(local: Option<string>, host: string) {
    local == None || local == Some(host)
  }

  /** The event reaches a handler. */
  predicate Takes(local: Option<string>, e: Event) {
    e.Event? && Admits(local, e.host) && e.kind.Supported()
  }

  /** The event makes the dispatch itself raise: no `.get`, or a `type` that cannot be a key. */
  predicate Poisons(local: Option<string>, e: Event) {
    e.NotAMapping? || (Admits(local, e.host) && e.kind == Unhashable)
  }

  function Selected(local: Option<string>, events: seq<Event>): seq<Event> {
    if events == [] then []
    else (if Takes(local, events[0]) then [events[0]] else []) + Selected(local, events[1..])
  }

  lemma {:induction false} SelectedConcat(local: Option<string>, a: seq<Event>, b: seq<Event>)
    ensures Selected(local, a + b) == Selected(local, a) + Selected(local, b)
  {
    if a == [] {
      assert a + b == b;
    } else {
      SelectedConcat(local, a[1..], b);
      assert (a + b)[1..] == a[1..] + b && (a + b)[0] == a[0];
      var first := if Takes(local, a[0]) then [a[0]] else [];
      var rest := Selected(local, a[1..]);
      assert first + (rest + Selected(local, b)) == (first + rest) + Selected(local, b);
    }
  }

  lemma SelectedSnoc(local: Option<string>, events: seq<Event>, i: nat)
    requires i < |events|
    ensures Selected(local, events[..i + 1]) ==
            Selected(local, events[..i]) + (if Takes(local, events[i]) then [events[i]] else [])
  {
    assert events[..i + 1] == events[..i] + [events[i]];
    SelectedConcat(local, events[..i], [events[i]]);
    assert [events[i]][1..] == [];
  }

  ghost predicate Poisoned(local: Option<string>, events: seq<Event>) {
    exists i :: 0 <= i < |events| && Poisons(local, events[i])
  }

  /** The events before the first one that poisons the message. */
  ghost predicate CleanPrefix(local: Option<string>, events: seq<Event>, n: nat) {
    Clean(local, events, n) && (n < |events| ==> Poisons(local, events[n]))
  }

  ghost predicate Clean(local: Option<string>, events: seq<Event>, n: nat) {
    n <= |events| && forall i :: 0 <= i < n ==> !Poisons(local, events[i])
  }

  /** How many events are handled before the message is poisoned, if it is. */
  function CleanLength(local: Option<string>, events: seq<Event>): (n: nat)
    ensures CleanPrefix(local, events, n)
    ensures n < |events| <==> Poisoned(local, events)
  {
    if events == [] || Poisons(local, events[0]) then 0
    else
      var m := CleanLength(local, events[1..]);
      assert forall i :: 1 <= i < |events| ==> events[i] == events[1..][i - 1];
      m + 1
  }

  /** The events of one message that reach a handler, in order. */
  function Handed(local: Option<string>, events: seq<Event>): seq<Event> {
    Selected(local, events[..CleanLength(local, events)])
  }

  lemma {:induction false} HandedAt(local: Option<string>, events: seq<Event>, n: nat)
    requires CleanPrefix(local, events, n)
    ensures Handed(local, events) == Selected(local, events[..n])
    ensures Poisoned(local, events) <==> n < |events|
  {
    assert n == CleanLength(local, events);
  }

  /** The dispatch loop after `i` events, stopped there by event `i` if it raised. */
  ghost predicate Progress(local: Option<string>, events: seq<Event>, i: nat, raised: bool, done: seq<Event>) {
    && Clean(local, events, i)
    && (raised ==> i < |events| && Poisons(local, events[i]))
    && done == Selected(local, events[..i])
  }

  lemma ProgressStep(local: Option<string>, events: seq<Event>, i: nat, done: seq<Event>)
    requires i < |events| && Progress(local, events, i, false, done)
    ensures if Poisons(local, events[i]) then Progress(local, events, i, true, done)
            else Progress(local, events, i + 1, false,
                          done + if Takes(local, events[i]) then [events[i]] else [])
  {
    SelectedSnoc(local, events, i);
  }

  lemma ProgressEnds(local: Option<string>, events: seq<Event>, i: nat, raised: bool, done: seq<Event>)
    requires Progress(local, events, i, raised, done) && (raised || i == |events|)
    ensures done == Handed(local, events) && (raised <==> Poisoned(local, events))
  {
    HandedAt(local, events, i);
  }

  /** The event itself, however its handler ends; that may differ from one dispatch to the next. */
  function Plain(e: Event): Event {
    if e.Event? then e.(outcome := Completes) else e
  }

  function AllPlain(events: seq<Event>): seq<Event> {
    seq(|events|, i requires 0 <= i < |events| => Plain(events[i]))
  }

  lemma {:induction false} SelectedPlain(local: Option<string>, events: seq<Event>)
    ensures AllPlain(Selected(local, events)) == Selected(local, AllPlain(events))
  {
    if events == [] {
    } else {
      SelectedPlain(local, events[1..]);
      assert AllPlain(events)[1..] == AllPlain(events[1..]);
      var first := if Takes(local, events[0]) then [events[0]] else [];
      assert AllPlain(first + Selected(local, events[1..])) == AllPlain(first) + AllPlain(Selected(local, events[1..]));
    }
  }

  /** Which events are handed to a handler does not depend on how handlers end. */
  lemma HandedPlain(local: Option<string>, events: seq<Event>)
    ensures AllPlain(Handed(local, events)) == Handed(local, AllPlain(events))
    ensures Poisoned(local, events) <==> Poisoned(local, AllPlain(events))
  {
    var n, plain := CleanLength(local, events), AllPlain(events);
    assert forall i :: 0 <= i < |events| ==> (Poisons(local, plain[i]) <==> Poisons(local, events[i]));
    HandedAt(local, plain, n);
    SelectedPlain(local, events[..n]);
    assert AllPlain(events[..n]) == plain[..n];
  }

  // ---------------------------------------------------------------------
  // What runs of the callback leave behind
  // ---------------------------------------------------------------------

  /** What reaches the handlers over a run of messages. */
  function HandedRun(local: Option<string>, batches: seq<seq<Event>>): seq<Event> {
    if batches == [] then [] else Handed(local, batches[0]) + HandedRun(local, batches[1..])
  }

  /** How many of the messages are poisoned. */
  function PoisonedCount(local: Option<string>, batches: seq<seq<Event>>): nat {
    if batches == [] then 0
    else
      (if CleanLength(local, batches[0]) < |batches[0]| then 1 else 0)
      + PoisonedCount(local, batches[1..])
  }

  datatype Tally = Tally(handled: seq<Event>, poisonDrops: nat, ackAttempts: nat)

  /** The callback has dispatched one more message, to its end or to the poison path. */
  ghost function Dispatched(t: Tally, local: Option<string>, events: seq<Event>): Tally {
    t.(handled := t.handled + Handed(local, events),
       poisonDrops := t.poisonDrops + if Poisoned(local, events) then 1 else 0)
  }

  /** ... and has tried to acknowledge it. */
  function AckTried(t: Tally): Tally {
    t.(ackAttempts := t.ackAttempts + 1)
  }

  function TallyOf(local: Option<string>, batches: seq<seq<Event>>): Tally {
    Tally(HandedRun(local, batches), PoisonedCount(local, batches), |batches|)
  }

  lemma {:induction false} HandedRunConcat(local: Option<string>, a: seq<seq<Event>>, b: seq<seq<Event>>)
    ensures HandedRun(local, a + b) == HandedRun(local, a) + HandedRun(local, b)
    ensures PoisonedCount(local, a + b) == PoisonedCount(local, a) + PoisonedCount(local, b)
  {
    hide Handed, CleanLength;
    if a == [] {
      assert a + b == b;
    } else {
      var t := a[1..];
      HandedRunConcat(local, t, b);
      assert a + b == [a[0]] + (t + b);
      assert (a + b)[1..] == t + b;
      Associative(Handed(local, a[0]), HandedRun(local, t), HandedRun(local, b));
    }
  }

  lemma Associative(a: seq<Event>, b: seq<Event>, c: seq<Event>)
    ensures a + (b + c) == (a + b) + c
  {
  }

  /** One run of the callback adds one message to the tally. */
  lemma {:induction false} TallyNext(local: Option<string>, batches: seq<seq<Event>>, events: seq<Event>)
    ensures TallyOf(local, batches + [events]) == AckTried(Dispatched(TallyOf(local, batches), local, events))
  {
    HandedRunConcat(local, batches, [events]);
    assert [events][1..] == [];
    assert HandedRun(local, [events]) == Handed(local, events) + [];
    assert PoisonedCount(local, [events]) == if Poisoned(local, events) then 1 else 0;
  }

  // ---------------------------------------------------------------------
  // What handling an event does
  // ---------------------------------------------------------------------

  predicate Stores(e: Event)
    requires e.Event?
  {
    e.kind == Started && e.uuid != "" && e.name != ""
  }

  /** The index operations of one handler call. */
  function Ops(e: Event): seq<Op>
    requires e.Event?
  {
    if e.outcome == RaisesEarly then []
    else
      (if Stores(e) then [Store(e.uuid, e.name)] else [])
      + (if e.name == "" then [Lookup(e.uuid)] else [])
      + (if e.outcome == Completes && e.kind.Terminal() then [Pop(e.uuid)] else [])
  }

  /** The index after one handler call. */
  function Effect(c: seq<Entry>, e: Event, bound: Bound): seq<Entry>
    requires e.Event?
  {
    if e.outcome == RaisesEarly then c
    else
      var stored := if Stores(e) then Step(c, Store(e.uuid, e.name), bound) else c;
      var touched := if e.name == "" then Step(stored, Lookup(e.uuid), bound) else stored;
      if e.outcome == Completes && e.kind.Terminal()
      then Step(touched, Pop(e.uuid), bound)
      else touched
  }

  /**
   Which names one handler call changes, in a cache of distinct entries with room
   for one: a named start caches its name; only a success, a failure or a
   revocation that is reported forgets one; a retry keeps it.  Other tasks' names
   stay, except for one that a start may evict.
   */
  lemma {:induction false} HandlerKeeps(c: seq<Entry>, e: Event, n: nat, v: string)
    requires Distinct(c) && |c| <= n && n >= 1 && e.Event?
    requires e.kind in {Started, Succeeded, Failed, Retried, Revoked}
    ensures var after := Effect(c, e, AtMost(n));
            if e.outcome == RaisesEarly then after == c
            else if e.kind == Started && e.uuid != "" && e.name != "" then
              if v == e.uuid then Find(after, v) == Some(e.name)
              else Find(after, v) == Find(c, v) || Find(after, v) == None
            else if e.kind != Started && e.kind != Retried && e.outcome == Completes then
              Find(after, v) == if v == e.uuid then None else Find(c, v)
            else Find(after, v) == Find(c, v)
  {
    hide Step, Find, Distinct;
    var touched := AfterLookup(c, e, n, v);
    StepFinds(touched, Pop(e.uuid), n, v);
  }

  /** What a handler finds before it may forget the name. */
  lemma {:induction false} AfterLookup(c: seq<Entry>, e: Event, n: nat, v: string) returns (touched: seq<Entry>)
    requires Distinct(c) && |c| <= n && n >= 1 && e.Event?
    ensures touched ==
            var stored := if Stores(e) then Step(c, Store(e.uuid, e.name), AtMost(n)) else c;
            if e.name == "" then Step(stored, Lookup(e.uuid), AtMost(n)) else stored
    ensures Distinct(touched) && |touched| <= n
    ensures if Stores(e) && v == e.uuid then Find(touched, v) == Some(e.name)
            else Find(touched, v) == Find(c, v) || (Stores(e) && Find(touched, v) == None)
  {
    hide Step, Find, Distinct;
    touched := c;
    if Stores(e) {
      StepFinds(c, Store(e.uuid, e.name), n, v);
      StepDistinct(c, Store(e.uuid, e.name), AtMost(n));
      touched := Step(c, Store(e.uuid, e.name), AtMost(n));
    }
    if e.name == "" {
      StepFinds(touched, Lookup(e.uuid), n, v);
      StepDistinct(touched, Lookup(e.uuid), AtMost(n));
      touched := Step(touched, Lookup(e.uuid), AtMost(n));
    }
  }

  lemma EffectIsOps(h: seq<Op>, e: Event, bound: Bound)
    requires e.Event?
    ensures Run(h + Ops(e), bound) == Effect(Run(h, bound), e, bound)
  {
    var store := if Stores(e) then [Store(e.uuid, e.name)] else [];
    var touch := if e.name == "" then [Lookup(e.uuid)] else [];
    if e.outcome == RaisesEarly {
      assert h + Ops(e) == h;
    } else {
      RunOptional(h, store, bound);
      RunOptional(h + store, touch, bound);
      if e.outcome == Completes && e.kind.Terminal() {
        RunSnoc(h + store + touch, Pop(e.uuid), bound);
        assert h + Ops(e) == h + store + touch + [Pop(e.uuid)];
      } else {
        assert h + Ops(e) == h + store + touch;
      }
    }
  }

  lemma RunOptional(h: seq<Op>, ops: seq<Op>, bound: Bound)
    requires |ops| <= 1
    ensures Run(h + ops, bound) ==
            if ops == [] then Run(h, bound) else Step(Run(h, bound), ops[0], bound)
  {
    if ops == [] {
      assert h + ops == h;
    } else {
      assert ops == [ops[0]];
      RunSnoc(h, ops[0], bound);
    }
  }

  predicate AllMappings(events: seq<Event>) {
    forall i :: 0 <= i < |events| ==> events[i].Event?
  }

  function AllOps(events: seq<Event>): seq<Op>
    requires AllMappings(events)
  {
    if events == [] then [] else AllOps(events[..|events| - 1]) + Ops(events[|events| - 1])
  }

  /** The name an event is reported under: its own, else the indexed one. */
  function NameOf(c: seq<Entry>, e: Event): Option<string>
    requires e.Event?
  {
    if e.name != "" then Some(e.name) else Find(c, e.uuid)
  }

  function Report(c: seq<Entry>, e: Event): seq<Mapped>
    requires e.Event?
  {
    if e.outcome == Completes then [Mapped(e.kind, e.uuid, NameOf(c, e))] else []
  }

  /** Everything the sink receives over a run of handled events. */
  function Reports(events: seq<Event>, bound: Bound): seq<Mapped>
    requires AllMappings(events)
  {
    if events == [] then []
    else
      var before := events[..|events| - 1];
      Reports(before, bound) + Report(Run(AllOps(before), bound), events[|events| - 1])
  }

  lemma RunsSnoc(events: seq<Event>, e: Event, bound: Bound)
    requires AllMappings(events) && e.Event?
    ensures AllMappings(events + [e])
    ensures AllOps(events + [e]) == AllOps(events) + Ops(e)
    ensures Reports(events + [e], bound) ==
            Reports(events, bound) + Report(Run(AllOps(events), bound), e)
  {
    assert (events + [e])[..|events|] == events;
  }

  /** The same report, except that the bounded monitor may not know the name. */
  predicate SameButForgotten(m: Mapped, full: Mapped) {
    m.kind == full.kind && m.uuid == full.uuid && (m.name == full.name || m.name == None)
  }

  /**
   Over every run the monitor reports exactly what one with an unbounded cache
   would, up to names it has evicted: it never reports a different name.
   */
  lemma {:induction false} ReportsRefine(events: seq<Event>, n: nat)
    requires AllMappings(events)
    ensures var r, full := Reports(events, AtMost(n)), Reports(events, Unbounded);
            |r| == |full| && forall i :: 0 <= i < |r| ==> SameButForgotten(r[i], full[i])
  {
    if events == [] {
    } else {
      var before, e := events[..|events| - 1], events[|events| - 1];
      ReportsRefine(before, n);
      ReportRefines(AllOps(before), e, n);
    }
  }

  lemma ReportRefines(h: seq<Op>, e: Event, n: nat)
    requires e.Event?
    ensures var r, full := Report(Run(h, AtMost(n)), e), Report(Run(h, Unbounded), e);
            |r| == |full| <= 1 && (|r| == 1 ==> SameButForgotten(r[0], full[0]))
  {
    if Find(Run(h, AtMost(n)), e.uuid).Some? {
      AnswersAgree(h, n, e.uuid);
    }
  }

  // ---------------------------------------------------------------------
  // A started task is recognised when it ends
  // ---------------------------------------------------------------------

  /** The operation belongs to one of the events after the first `i`. */
  ghost predicate Origin(op: Op, events: seq<Event>, i: nat)
    requires AllMappings(events)
  {
    exists j :: i <= j < |events| && op in Ops(events[j])
  }

  ghost predicate ComesFrom(tail: seq<Op>, events: seq<Event>, i: nat)
    requires AllMappings(events)
  {
    forall m :: 0 <= m < |tail| ==> Origin(tail[m], events, i)
  }

  lemma {:induction false} OpsAfter(events: seq<Event>, i: nat) returns (tail: seq<Op>)
    requires AllMappings(events) && i <= |events|
    ensures AllOps(events) == AllOps(events[..i]) + tail
    ensures ComesFrom(tail, events, i)
  {
    hide Ops;
    if i == |events| {
      assert events[..i] == events;
      tail := [];
    } else {
      var n := |events| - 1;
      var before := events[..n];
      assert before[..i] == events[..i];
      var t := OpsAfter(before, i);
      tail := t + Ops(events[n]);
      assert AllOps(events[..i]) + tail == (AllOps(events[..i]) + t) + Ops(events[n]);
      ComesFromNext(t, events, i);
    }
  }

  lemma {:induction false} ComesFromNext(t: seq<Op>, events: seq<Event>, i: nat)
    requires AllMappings(events) && i < |events|
    requires AllMappings(events[..|events| - 1]) && ComesFrom(t, events[..|events| - 1], i)
    ensures ComesFrom(t + Ops(events[|events| - 1]), events, i)
  {
    var n := |events| - 1;
    var tail := t + Ops(events[n]);
    forall m | 0 <= m < |tail| ensures Origin(tail[m], events, i) {
      if m < |t| {
        assert Origin(t[m], events[..n], i);
        var j :| i <= j < n && t[m] in Ops(events[..n][j]);
        assert tail[m] in Ops(events[j]);
      } else {
        assert tail[m] in Ops(events[n]);
      }
    }
  }

  lemma {:induction false} LastUseExists(h: seq<Op>, from: nat, j: nat, u: string, n: nat) returns (k: nat)
    requires from < j <= |h| && Uses(h, from, u, n)
    requires forall m :: from < m < j ==> h[m] != Pop(u)
    ensures from <= k < j && LastUse(h, k, j, u, n)
    decreases j
  {
    if Uses(h, j - 1, u, n) {
      k := j - 1;
    } else {
      k := LastUseExists(h, from, j - 1, u, n);
    }
  }

  /** Event `e` neither stores nor forgets a name. */
  predicate KeepsName(e: Event)
    requires e.Event?
  {
    e.outcome == RaisesEarly || (!Stores(e) && !(e.outcome == Completes && e.kind.Terminal()))
  }

  /** The other tasks seen after event `i`. */
  ghost function OtherTasks(events: seq<Event>, i: nat, u: string): set<string>
    requires AllMappings(events)
  {
    set j | i < j < |events| && events[j].uuid != u :: events[j].uuid
  }

  /**
   A task whose start named it is reported under that name by its later events,
   which carry none, as long as fewer than `n` other tasks were handled since:
   whether these were started, retried or ended, and whichever handlers failed.
   */
  lemma {:induction false} StartedIsRecognised(events: seq<Event>, i: nat, e: Event, n: nat)
    requires AllMappings(events) && i < |events|
    requires events[i].kind == Started && events[i].uuid != "" && events[i].name != ""
    requires events[i].outcome != RaisesEarly
    requires forall j :: i < j < |events| && events[j].uuid == events[i].uuid ==>
               || events[j].outcome == RaisesEarly
               || (events[j].kind == Started && events[j].name == "")
               || (events[j].kind in {Succeeded, Failed, Revoked} && events[j].outcome == RaisesLate)
               || events[j].kind in {Retried, Other, Unhashable}
    requires |OtherTasks(events, i, events[i].uuid)| < n
    requires e.Event? && e.uuid == events[i].uuid && e.name == ""
    ensures NameOf(Run(AllOps(events), AtMost(n)), e) == Some(events[i].name)
  {
    RecognisedIfKept(events, i, e, n);
  }

  lemma {:induction false} RecognisedIfKept(events: seq<Event>, i: nat, e: Event, n: nat)
    requires AllMappings(events) && i < |events|
    requires Stores(events[i]) && events[i].outcome != RaisesEarly
    requires forall j :: i < j < |events| && events[j].uuid == events[i].uuid ==> KeepsName(events[j])
    requires |OtherTasks(events, i, events[i].uuid)| < n
    requires e.Event? && e.uuid == events[i].uuid && e.name == ""
    ensures NameOf(Run(AllOps(events), AtMost(n)), e) == Some(events[i].name)
  {
    hide Ops, AllOps, Stores, KeepsName, OtherTasks, ComesFrom, Run, Find;
    var u, name := events[i].uuid, events[i].name;
    var h := AllOps(events);
    var at, tail := StartedHistory(events, i);
    forall m | at < m < |h|
      ensures h[m].uuid != u ==> h[m].uuid in OtherTasks(events, i, u)
      ensures h[m].uuid == u ==> h[m].Lookup?
    {
      TailOp(events, i, tail, m - at - 1);
    }
    RecognisedFromOps(h, at, u, name, n, OtherTasks(events, i, u));
    assert e.name == "";
  }

  lemma RecognisedFromOps(h: seq<Op>, at: nat, u: string, name: string, n: nat, others: set<string>)
    requires at < |h| && h[at] == Store(u, name) && |others| < n
    requires forall m :: at < m < |h| ==> if h[m].uuid == u then h[m].Lookup? else h[m].uuid in others
    ensures Find(Run(h, AtMost(n)), u) == Some(name)
  {
    var k := LastUseExists(h, at, |h|, u, n);
    assert OthersUsed(h, k, |h|, u, n) <= others;
    SubsetSize(OthersUsed(h, k, |h|, u, n), others);
    Retention(h, at, k, u, name, n);
  }

  lemma {:induction false} StartedHistory(events: seq<Event>, i: nat) returns (at: nat, tail: seq<Op>)
    requires AllMappings(events) && i < |events|
    requires Stores(events[i]) && events[i].outcome != RaisesEarly
    ensures at < |AllOps(events)| && AllOps(events)[at] == Store(events[i].uuid, events[i].name)
    ensures tail == AllOps(events)[at + 1..] && ComesFrom(tail, events, i + 1)
  {
    hide AllOps, Ops, Stores, ComesFrom;
    at := |AllOps(events[..i])|;
    tail := OpsAfter(events, i + 1);
    AllOpsAt(events, i);
    StartOps(events[i]);
    assert AllOps(events) == AllOps(events[..i]) + [Store(events[i].uuid, events[i].name)] + tail;
  }

  lemma AllOpsAt(events: seq<Event>, i: nat)
    requires AllMappings(events) && i < |events|
    ensures AllOps(events[..i + 1]) == AllOps(events[..i]) + Ops(events[i])
  {
    assert events[..i + 1][..i] == events[..i];
  }

  lemma StartOps(e: Event)
    requires e.Event? && Stores(e) && e.outcome != RaisesEarly
    ensures Ops(e) == [Store(e.uuid, e.name)]
  {
  }

  lemma OpsOf(e: Event, op: Op)
    requires e.Event? && op in Ops(e)
    ensures op.uuid == e.uuid && (KeepsName(e) ==> op.Lookup?)
  {
  }

  lemma TailOp(events: seq<Event>, i: nat, tail: seq<Op>, m: nat)
    requires AllMappings(events) && i < |events| && m < |tail| && ComesFrom(tail, events, i + 1)
    requires forall j :: i < j < |events| && events[j].uuid == events[i].uuid ==> KeepsName(events[j])
    ensures tail[m].uuid != events[i].uuid ==> tail[m].uuid in OtherTasks(events, i, events[i].uuid)
    ensures tail[m].uuid == events[i].uuid ==> tail[m].Lookup?
  {
    assert Origin(tail[m], events, i + 1);
    var j :| i + 1 <= j < |events| && tail[m] in Ops(events[j]);
    OpsOf(events[j], tail[m]);
  }

  // ---------------------------------------------------------------------
  // The ordered dictionary
  // ---------------------------------------------------------------------

  /** `move_to_end` and `pop` both start by taking the key out of the order. */
  function Dropped(order: seq<string>, u: string): (r: seq<string>)
    ensures |r| <= |order|
    ensures forall v :: v in r <==> v in order && v != u
  {
    if order == [] then []
    else
      assert order == [order[0]] + order[1..];
      if order[0] == u then Dropped(order[1..], u)
      else [order[0]] + Dropped(order[1..], u)
  }

  ghost predicate NoRepeats(s: seq<string>) {
    forall i, j :: 0 <= i < j < |s| ==> s[i] != s[j]
  }

  ghost predicate Backed(order: seq<string>, names: map<string, string>) {
    && NoRepeats(order)
    && (forall u :: u in order <==> u in names)
  }

  function Zip(order: seq<string>, names: map<string, string>): (c: seq<Entry>)
    requires forall u :: u in order ==> u in names
  {
    seq(|order|, i requires 0 <= i < |order| => Entry(order[i], names[order[i]]))
  }

  lemma {:induction false} ZipDropped(order: seq<string>, names: map<string, string>, u: string)
    requires forall v :: v in order ==> v in names
    ensures Zip(Dropped(order, u), names) == Without(Zip(order, names), u)
  {
    if order == [] {
    } else {
      var t := order[1..];
      ZipDropped(t, names, u);
      assert Zip(order, names)[1..] == Zip(t, names);
      if order[0] != u {
        assert Dropped(order, u) == [order[0]] + Dropped(t, u);
        assert Zip(Dropped(order, u), names) == [Zip(order, names)[0]] + Zip(Dropped(t, u), names);
      }
    }
  }

  lemma ZipAgrees(order: seq<string>, names: map<string, string>, names': map<string, string>)
    requires forall u :: u in order ==> u in names && u in names' && names[u] == names'[u]
    ensures Zip(order, names) == Zip(order, names')
  {
  }

  lemma ZipFind(order: seq<string>, names: map<string, string>, u: string)
    requires Backed(order, names)
    ensures Find(Zip(order, names), u) == if u in names then Some(names[u]) else None
  {
    var c := Zip(order, names);
    if u in names {
      var i :| 0 <= i < |order| && order[i] == u;
      assert c[i] == Entry(u, names[u]);
      FindUnique(c, c[i]);
    }
  }

  lemma {:induction false} DroppedBacked(order: seq<string>, u: string)
    requires NoRepeats(order)
    ensures NoRepeats(Dropped(order, u))
  {
    if order == [] {
    } else {
      var t := order[1..];
      DroppedBacked(t, u);
      assert forall i :: 1 <= i < |order| ==> order[i] == t[i - 1];
      assert order[0] !in t;
      forall j | 0 <= j < |Dropped(t, u)| ensures Dropped(t, u)[j] != order[0] {
        assert Dropped(t, u)[j] in Dropped(t, u);
      }
    }
  }

  /** Moving a key to the end, with a name, is the index's own step. */
  lemma MovedToEnd(order: seq<string>, names: map<string, string>, u: string, name: string)
    requires Backed(order, names)
    ensures var order', names' := Dropped(order, u) + [u], names[u := name];
            && Backed(order', names')
            && Zip(order', names') == Without(Zip(order, names), u) + [Entry(u, name)]
  {
    DroppedBacked(order, u);
    ZipDropped(order, names, u);
    ZipAgrees(Dropped(order, u), names, names[u := name]);
    MovedBacked(order, names, u, name);
    var order', names' := Dropped(order, u) + [u], names[u := name];
    assert Zip(order', names') == Zip(Dropped(order, u), names') + [Entry(u, name)];
  }

  lemma MovedBacked(order: seq<string>, names: map<string, string>, u: string, name: string)
    requires Backed(order, names)
    ensures Backed(Dropped(order, u) + [u], names[u := name])
  {
    DroppedBacked(order, u);
    var kept := Dropped(order, u);
    forall i | 0 <= i < |kept| ensures kept[i] != u {
      assert kept[i] in kept;
    }
    forall v ensures v in kept + [u] <==> v in names[u := name] {
      assert v in kept + [u] <==> v in kept || v == u;
    }
  }

  lemma DropPopped(order: seq<string>, names: map<string, string>, u: string)
    requires Backed(order, names)
    ensures Backed(Dropped(order, u), names - {u})
    ensures Zip(Dropped(order, u), names - {u}) == Without(Zip(order, names), u)
  {
    DroppedBacked(order, u);
    ZipDropped(order, names, u);
    ZipAgrees(Dropped(order, u), names, names - {u});
  }

  lemma OldestEvicted(order: seq<string>, names: map<string, string>)
    requires Backed(order, names) && order != []
    ensures Backed(order[1..], names - {order[0]})
    ensures Zip(order[1..], names - {order[0]}) == Zip(order, names)[1..]
  {
    var names' := names - {order[0]};
    assert order == [order[0]] + order[1..];
    assert order[0] !in order[1..];
    forall u | u in names' ensures u in order[1..] { assert u in order; }
    ZipAgrees(order[1..], names, names');
  }

  // ---------------------------------------------------------------------
  // The monitor
  // ---------------------------------------------------------------------

  /** The cache and the sink's log are those of the events handled so far. */
  ghost predicate Explains(handled: seq<Event>, history: seq<Op>, sunk: seq<Mapped>,
                           cache: seq<Entry>, bound: Bound)
  {
    && AllMappings(handled)
    && history == AllOps(handled)
    && sunk == Reports(handled, bound)
    && cache == Run(history, bound)
  }

  lemma {:induction false} ExplainsSnoc(handled: seq<Event>, history: seq<Op>, sunk: seq<Mapped>,
                     cache: seq<Entry>, e: Event, bound: Bound)
    requires Explains(handled, history, sunk, cache, bound) && e.Event?
    ensures Explains(handled + [e], history + Ops(e), sunk + Report(cache, e),
                     Effect(cache, e, bound), bound)
  {
    EffectIsOps(history, e, bound);
    RunsSnoc(handled, e, bound);
  }

  class Monitor {
    const local: Option<string>
    const capacity: nat
    var order: seq<string>
    var names: map<string, string>
    var poisonDrops: nat

    // What the outside world saw of this monitor, in order.
    ghost var handled: seq<Event>
    ghost var history: seq<Op>
    ghost var sunk: seq<Mapped>
    ghost var ackAttempts: nat
    ghost var dispatched: seq<seq<Event>>

    /** The cache and what the sink got are those of the events handled so far. */
    ghost predicate Consistent()
      reads this
    {
      && Backed(order, names)
      && Explains(handled, history, sunk, Zip(order, names), AtMost(capacity))
    }

    ghost function Counted(): Tally
      reads this
    {
      Tally(handled, poisonDrops, ackAttempts)
    }

    /**
     Between callbacks, over the whole life of the monitor: the handlers' log,
     the poison counter and the ack attempts are those of the messages dispatched.
     */
    ghost predicate Valid()
      reads this
    {
      Consistent() && Counted() == TallyOf(local, dispatched)
    }

    ghost function Cache(): seq<Entry>
      requires Consistent()
      reads this
    {
      Zip(order, names)
    }

    constructor (local: Option<string>, capacity: nat)
      ensures Valid() && this.local == local && this.capacity == capacity
      ensures dispatched == []
      ensures Cache() == [] && poisonDrops == 0 && handled == [] && sunk == [] && ackAttempts == 0
    {
      this.local, this.capacity := local, capacity;
      order, names, poisonDrops := [], map[], 0;
      handled, history, sunk, ackAttempts, dispatched := [], [], [], 0, [];
    }

    /** Remember the event's name as the most recently used, evicting the oldest. */
    method CacheName(uuid: string, name: string)
      requires Backed(order, names)
      modifies `order, `names
      ensures Backed(order, names)
      ensures Zip(order, names) ==
              if uuid != "" && name != ""
              then Step(old(Zip(order, names)), Store(uuid, name), AtMost(capacity))
              else old(Zip(order, names))
    {
      if uuid != "" && name != "" {
        MovedToEnd(order, names, uuid, name);
        if uuid in names {
          order := Dropped(order, uuid) + [uuid];
        } else {
          DroppedAbsent(order, uuid);
          order := order + [uuid];
        }
        names := names[uuid := name];
        Evict();
      }
    }

    /** `popitem(last=False)` while over capacity. */
    method Evict()
      requires Backed(order, names)
      modifies `order, `names
      ensures Backed(order, names)
      ensures Zip(order, names) == Trim(old(Zip(order, names)), AtMost(capacity))
    {
      ghost var full := Zip(order, names);
      while |order| > capacity
        invariant Backed(order, names)
        invariant |order| <= |full| && (|order| < |full| ==> capacity <= |order|)
        invariant Zip(order, names) == full[|full| - |order|..]
      {
        OldestEvicted(order, names);
        assert full[|full| - |order|..][1..] == full[|full| - |order| + 1..];
        names := names - {order[0]};
        order := order[1..];
      }
    }

    /** The event's own name, else the cached one, which becomes the most recently used. */
    method ResolveName(uuid: string, name: string) returns (r: Option<string>)
      requires Backed(order, names)
      modifies `order
      ensures Backed(order, names)
      ensures r == if name != "" then Some(name) else Find(old(Zip(order, names)), uuid)
      ensures Zip(order, names) ==
              if name != "" then old(Zip(order, names))
              else Step(old(Zip(order, names)), Lookup(uuid), AtMost(capacity))
    {
      if name != "" {
        return Some(name);
      }
      ZipFind(order, names, uuid);
      if uuid in names {
        MovedToEnd(order, names, uuid, names[uuid]);
        assert names[uuid := names[uuid]] == names;
        order := Dropped(order, uuid) + [uuid];
        return Some(names[uuid]);
      }
      return None;
    }

    method PopName(uuid: string)
      requires Backed(order, names)
      modifies `order, `names
      ensures Backed(order, names)
      ensures Zip(order, names) == Step(old(Zip(order, names)), Pop(uuid), AtMost(capacity))
    {
      DropPopped(order, names, uuid);
      order := Dropped(order, uuid);
      names := names - {uuid};
    }

    /** One handler call behind its safe boundary: exceptions end it early and go no further. */
    method HandleBoundary(e: Event)
      requires Backed(order, names) && e.Event?
      modifies `order, `names, `sunk
      ensures Backed(order, names)
      ensures Zip(order, names) == Effect(old(Zip(order, names)), e, AtMost(capacity))
      ensures sunk == old(sunk) + Report(old(Zip(order, names)), e)
      ensures e.outcome != Completes ==> sunk == old(sunk)
      ensures e.outcome == Completes ==>
                && |sunk| == |old(sunk)| + 1 && sunk[..|old(sunk)|] == old(sunk)
                && sunk[|old(sunk)|].kind == e.kind && sunk[|old(sunk)|].uuid == e.uuid
                && sunk[|old(sunk)|].name ==
                   if e.name != "" then Some(e.name) else Find(old(Zip(order, names)), e.uuid)
    {
      if e.outcome == RaisesEarly {
        return;
      }
      if e.kind == Started {
        CacheName(e.uuid, e.name);
      }
      var name := ResolveName(e.uuid, e.name);
      if e.outcome == RaisesLate {
        return;
      }
      sunk := sunk + [Mapped(e.kind, e.uuid, name)];
      if e.kind.Terminal() {
        PopName(e.uuid);
      }
    }

    method Handle(e: Event)
      requires Consistent() && e.Event?
      modifies `order, `names, `handled, `history, `sunk
      ensures Consistent()
      ensures handled == old(handled) + [e]
    {
      ExplainsSnoc(handled, history, sunk, Cache(), e, AtMost(capacity));
      HandleBoundary(e);
      handled := handled + [e];
      history := history + Ops(e);
    }

    /** One pass of the dispatch loop; `raised` is the exception that reaches the callback. */
    method DispatchOne(e: Event) returns (raised: bool)
      requires Consistent()
      modifies `order, `names, `handled, `history, `sunk
      ensures Consistent()
      ensures raised <==> Poisons(local, e)
      ensures handled == old(handled) + if Takes(local, e) then [e] else []
      ensures raised <==> e.NotAMapping? || (local in {None, Some(e.host)} && e.kind == Unhashable)
      ensures handled == old(handled) +
                if e.Event? && local in {None, Some(e.host)} && e.kind in {Started, Succeeded, Failed, Retried, Revoked}
                then [e] else []
    {
      if e.NotAMapping? {
        return true;
      }
      if local != None && local != Some(e.host) {
        return false;
      }
      if e.kind == Unhashable {
        return true;
      }
      if e.kind.Supported() {
        Handle(e);
      }
      return false;
    }

    /** One pass of the loop at index `k`, extending what has been handled since `start`. */
    method DispatchNext(events: seq<Event>, k: nat, ghost start: seq<Event>, ghost done: seq<Event>)
        returns (raised: bool, ghost done': seq<Event>)
      requires Consistent() && k < |events|
      requires Progress(local, events, k, false, done) && handled == start + done
      modifies `order, `names, `handled, `history, `sunk
      ensures Consistent()
      ensures Progress(local, events, if raised then k else k + 1, raised, done')
      ensures handled == start + done'
    {
      hide AllOps, Reports, Backed;
      ghost var step := if Takes(local, events[k]) then [events[k]] else [];
      ProgressStep(local, events, k, done);
      done' := if Poisons(local, events[k]) then done else done + step;
      assert (start + done) + step == start + (done + step);
      raised := DispatchOne(events[k]);
    }

    method DispatchEvents(events: seq<Event>) returns (raised: bool)
      requires Consistent()
      modifies `order, `names, `handled, `history, `sunk
      ensures Consistent()
      ensures handled == old(handled) + Handed(local, events)
      ensures raised <==> Poisoned(local, events)
    {
      hide AllOps, Reports, Backed; // the loop needs `Consistent` only as a whole
      var k := 0;
      raised := false;
      ghost var done: seq<Event> := [];
      while k < |events| && !raised
        invariant k <= |events| && Consistent()
        invariant Progress(local, events, k, raised, done)
        invariant handled == old(handled) + done
        decreases |events| - k, !raised
      {
        raised, done := DispatchNext(events, k, old(handled), done);
        if !raised {
          k := k + 1;
        }
      }
      ProgressEnds(local, events, k, raised, done);
    }

    /** The kombu callback for one message: handle its events, then attempt one ack. */
    method Dispatch(body: Body, ackRaises: bool) returns (raised: bool, acked: bool)
      requires Valid()
      modifies this
      ensures Valid() && dispatched == old(dispatched) + [body.Events()]
      ensures Counted() == AckTried(Dispatched(old(Counted()), local, body.Events()))
      ensures handled == old(handled) + Handed(local, body.Events())
      ensures raised <==> Poisoned(local, body.Events())
      ensures poisonDrops == old(poisonDrops) + (if raised then 1 else 0)
      ensures ackAttempts == old(ackAttempts) + 1
      ensures acked <==> !ackRaises
    {
      hide Backed, Explains, TallyOf;
      TallyNext(local, dispatched, body.Events());
      dispatched := dispatched + [body.Events()];
      raised := DispatchEvents(body.Events());
      if raised {
        poisonDrops := poisonDrops + 1;
        ackAttempts := ackAttempts + 1;
        acked := !ackRaises;
        return;
      }
      ackAttempts := ackAttempts + 1;
      acked := !ackRaises;
    }

    /** The receiver thread: one callback per message it is given, whichever acks fail. */
    method Receive(bodies: seq<Body>, ackRaises: seq<bool>) returns (acked: seq<bool>)
      requires Valid() && |ackRaises| == |bodies|
      modifies this
      ensures Valid() && dispatched == old(dispatched) + AllEvents(bodies)
      ensures handled == old(handled) + HandedRun(local, AllEvents(bodies))
      ensures poisonDrops == old(poisonDrops) + PoisonedCount(local, AllEvents(bodies))
      ensures ackAttempts == old(ackAttempts) + |bodies|
      ensures |acked| == |bodies| && forall i :: 0 <= i < |bodies| ==> acked[i] == !ackRaises[i]
    {
      hide Consistent;
      acked := [];
      for k := 0 to |bodies|
        invariant Valid() && dispatched == old(dispatched) + AllEvents(bodies[..k])
        invariant |acked| == k && forall i :: 0 <= i < k ==> acked[i] == !ackRaises[i]
      {
        assert AllEvents(bodies[..k + 1]) == AllEvents(bodies[..k]) + [bodies[k].Events()];
        var _, ok := Dispatch(bodies[k], ackRaises[k]);
        acked := acked + [ok];
      }
      assert bodies[..|bodies|] == bodies;
      HandedRunConcat(local, old(dispatched), AllEvents(bodies));
    }
  }

  function AllEvents(bodies: seq<Body>): seq<seq<Event>> {
    seq(|bodies|, i requires 0 <= i < |bodies| => bodies[i].Events())
  }

  lemma {:induction false} DroppedAbsent(order: seq<string>, u: string)
    requires u !in order
    ensures Dropped(order, u) == order
  {
    if order == [] {
    } else {
      DroppedAbsent(order[1..], u);
    }
  }
}
