/**
 The acknowledgement protocol between the broker and one events monitor, over
 whole runs with ack failures, connection losses and redelivery.  The consumer
 runs with `no_ack=False`, so the broker holds a delivered message until the
 callback's explicit ack reaches it, and gives it out again after the
 connection breaks, or when its visibility timeout expires.  The receiver
 thread runs one callback at a time; what a callback does is what
 `BrokerMonitor.Monitor.Dispatch` is proved to do.
 */
module AckProtocol {
  import opened Options
  import opened BrokerMonitor

  /**
   The monitor's filter, what each published message contains, and how the
   handler of its `i`-th event ends when the message is the `k`-th dispatched.
   */
  datatype World = World(local: Option<string>, body: nat -> seq<Event>, ending: (nat, nat) -> Outcome)

  /** The events of message `m` as they go at the `k`-th dispatch. */
  function Given(w: World, m: nat, k: nat): (r: seq<Event>)
    ensures AllPlain(r) == AllPlain(w.body(m))
  {
    var b := w.body(m);
    seq(|b|, i requires 0 <= i < |b| => if b[i].Event? then b[i].(outcome := w.ending(k, i)) else b[i])
  }

  /** A callback in progress; `lost` once the connection that delivered its message broke. */
  datatype Callback = Callback(msg: nat, finished: bool, lost: bool)

  datatype State = State(
    ready: set<nat>,       // at the broker, not given out
    delivered: set<nat>,   // given out, callback not begun
    unacked: set<nat>,     // callback begun, not acknowledged
    removed: set<nat>,     // acknowledged and gone
    current: Option<Callback>,
    tally: Tally)          // what the callbacks did so far

  datatype Action =
    | Publish(m: nat)
    | Deliver(m: nat)
    | Begin(m: nat)
    | Finish(m: nat)         // the dispatch ran to its end or took the poison path
    | Ack(m: nat, ok: bool)  // the one ack attempt; a failure is suppressed
    | Expire(m: nat)         // the broker stops waiting for an ack on a live connection
    | ConnectionLost

  const INITIAL := State({}, {}, {}, {}, None, Tally([], 0, 0))

  predicate Enabled(s: State, a: Action) {
    match a
    case Publish(m) => m !in s.ready + s.delivered + s.unacked + s.removed
    case Deliver(m) => m in s.ready
    case Begin(m) => s.current == None && m in s.delivered
    case Finish(m) => s.current.Some? && s.current.value.msg == m && !s.current.value.finished
    case Ack(m, ok) =>
      && s.current.Some? && s.current.value.msg == m && s.current.value.finished
      && (ok ==> !s.current.value.lost)
    case Expire(m) => m in s.unacked
    case ConnectionLost => true
  }

  predicate Busy(s: State, m: nat) { s.current.Some? && s.current.value.msg == m }

  ghost function Next(w: World, s: State, a: Action): State {
    match a
    case Publish(m) => s.(ready := s.ready + {m})
    case Deliver(m) => s.(ready := s.ready - {m}, delivered := s.delivered + {m})
    case Begin(m) =>
      s.(delivered := s.delivered - {m}, unacked := s.unacked + {m},
         current := Some(Callback(m, false, false)))
    case Finish(m) =>
      s.(current := if s.current.Some? then Some(s.current.value.(finished := true)) else None,
         tally := Dispatched(s.tally, w.local, Given(w, m, s.tally.ackAttempts)))
    case Ack(m, ok) =>
      var u := s.(current := None, tally := AckTried(s.tally));
      if ok then u.(unacked := s.unacked - {m}, removed := s.removed + {m}) else u
    case Expire(m) =>
      s.(ready := s.ready + {m}, unacked := s.unacked - {m},
         current := if Busy(s, m) then Some(s.current.value.(lost := true)) else s.current)
    case ConnectionLost =>
      s.(ready := s.ready + s.delivered + s.unacked, delivered := {}, unacked := {},
         current := if s.current.Some? then Some(s.current.value.(lost := true)) else None)
  }

  type Trace = seq<Action>

  ghost function After(w: World, tr: Trace): State {
    if tr == [] then INITIAL else Next(w, After(w, tr[..|tr| - 1]), tr[|tr| - 1])
  }

  ghost predicate IsRun(w: World, tr: Trace) {
    tr == [] || (IsRun(w, tr[..|tr| - 1]) && Enabled(After(w, tr[..|tr| - 1]), tr[|tr| - 1]))
  }

  // ---------------------------------------------------------------------
  // What happened to one message, counted from the trace
  // ---------------------------------------------------------------------

  /** How often an action occurs. */
  function Count(tr: Trace, a: Action): nat {
    if tr == [] then 0
    else Count(tr[..|tr| - 1], a) + if tr[|tr| - 1] == a then 1 else 0
  }

  function AckAttempts(tr: Trace, m: nat): nat {
    Count(tr, Ack(m, true)) + Count(tr, Ack(m, false))
  }

  /** How often a lost connection or a timeout sent `m` back after its callback had begun. */
  ghost function Redelivered(w: World, tr: Trace, m: nat): nat {
    if tr == [] then 0
    else
      var a := tr[|tr| - 1];
      Redelivered(w, tr[..|tr| - 1], m)
      + if (a == ConnectionLost || a == Expire(m)) && m in After(w, tr[..|tr| - 1]).unacked then 1 else 0
  }

  /** How often it sent `m` back before any callback saw that delivery. */
  ghost function Unseen(w: World, tr: Trace, m: nat): nat {
    if tr == [] then 0
    else
      Unseen(w, tr[..|tr| - 1], m)
      + if tr[|tr| - 1] == ConnectionLost && m in After(w, tr[..|tr| - 1]).delivered then 1 else 0
  }

  function If(b: bool): nat { if b then 1 else 0 }

  ghost predicate Running(s: State, m: nat, finished: bool) {
    s.current.Some? && s.current.value.msg == m && s.current.value.finished == finished
  }

  /** Where a message is, and what that says about its past. */
  ghost predicate Accounted(w: World, tr: Trace, m: nat) {
    var s := After(w, tr);
    && If(m in s.ready) + If(m in s.delivered) + If(m in s.unacked) + If(m in s.removed)
       == Count(tr, Publish(m)) <= 1
    && Count(tr, Begin(m)) == Redelivered(w, tr, m) + If(m in s.unacked || m in s.removed)
    && Count(tr, Deliver(m)) == Count(tr, Begin(m)) + Unseen(w, tr, m) + If(m in s.delivered)
    && Count(tr, Finish(m)) == Count(tr, Begin(m)) - If(Running(s, m, false))
    && AckAttempts(tr, m) == Count(tr, Finish(m)) - If(Running(s, m, true))
    && Count(tr, Ack(m, true)) == If(m in s.removed)
    && (s.current.Some? && s.current.value.msg == m && !s.current.value.lost ==> m in s.unacked)
  }

  lemma {:induction false} AllAccounted(w: World, tr: Trace, m: nat)
    requires IsRun(w, tr)
    ensures Accounted(w, tr, m)
  {
    if tr == [] {
    } else {
      var before, a := tr[..|tr| - 1], tr[|tr| - 1];
      AllAccounted(w, before, m);
      if !a.ConnectionLost? && a.m != m {
        OtherMessage(w, tr, m);
      } else if a.Publish? || a.Deliver? {
        BrokerStep(w, tr, m);
      } else if a.ConnectionLost? || a.Expire? {
        LostStep(w, tr, m);
      } else {
        CallbackStep(w, tr, m);
      }
    }
  }

  /** A step about another message leaves the account of `m` as it was. */
  lemma OtherMessage(w: World, tr: Trace, m: nat)
    requires IsRun(w, tr) && tr != [] && Accounted(w, tr[..|tr| - 1], m)
    requires !tr[|tr| - 1].ConnectionLost? && tr[|tr| - 1].m != m
    ensures Accounted(w, tr, m)
  {
  }

  lemma BrokerStep(w: World, tr: Trace, m: nat)
    requires IsRun(w, tr) && tr != [] && Accounted(w, tr[..|tr| - 1], m)
    requires tr[|tr| - 1] == Publish(m) || tr[|tr| - 1] == Deliver(m)
    ensures Accounted(w, tr, m)
  {
  }

  lemma LostStep(w: World, tr: Trace, m: nat)
    requires IsRun(w, tr) && tr != [] && Accounted(w, tr[..|tr| - 1], m)
    requires tr[|tr| - 1] == ConnectionLost || tr[|tr| - 1] == Expire(m)
    ensures Accounted(w, tr, m)
  {
  }

  lemma CallbackStep(w: World, tr: Trace, m: nat)
    requires IsRun(w, tr) && tr != [] && Accounted(w, tr[..|tr| - 1], m)
    requires tr[|tr| - 1] in {Begin(m), Finish(m), Ack(m, true), Ack(m, false)}
    ensures Accounted(w, tr, m)
  {
  }

  /** The broker never loses or duplicates a message it holds. */
  lemma {:induction false} Conserved(w: World, tr: Trace, m: nat)
    requires IsRun(w, tr)
    ensures var s := After(w, tr);
            If(m in s.ready) + If(m in s.delivered) + If(m in s.unacked) + If(m in s.removed)
            == If(Count(tr, Publish(m)) > 0)
  {
    AllAccounted(w, tr, m);
  }

  /**
   A removed message was dispatched once, plus once per redelivery that
   followed a dispatch, and given out once more for every delivery whose
   callback never began.
   */
  lemma {:induction false} DispatchesOfRemoved(w: World, tr: Trace, m: nat)
    requires IsRun(w, tr) && m in After(w, tr).removed
    ensures Count(tr, Begin(m)) == 1 + Redelivered(w, tr, m)
    ensures Count(tr, Finish(m)) == Count(tr, Begin(m)) == AckAttempts(tr, m)
    ensures Count(tr, Deliver(m)) == Count(tr, Begin(m)) + Unseen(w, tr, m)
    ensures Count(tr, Ack(m, true)) == 1
  {
    AllAccounted(w, tr, m);
    if Running(After(w, tr), m, false) || Running(After(w, tr), m, true) {
      NotCurrentOnceRemoved(w, tr, m);
    }
  }

  lemma {:induction false} NotCurrentOnceRemoved(w: World, tr: Trace, m: nat)
    requires IsRun(w, tr) && m in After(w, tr).removed
    ensures After(w, tr).current == None || After(w, tr).current.value.msg != m
  {
    var before, a := tr[..|tr| - 1], tr[|tr| - 1];
    AllAccounted(w, before, m);
    if m in After(w, before).removed {
      NotCurrentOnceRemoved(w, before, m);
    }
  }

  /** The dispatch of `m` that ended at step `f` is the one whose ack, step `k`, was accepted. */
  ghost predicate AckedFrom(tr: Trace, m: nat, f: nat, k: nat) {
    && f < k < |tr| && tr[f] == Finish(m) && tr[k] == Ack(m, true)
    && forall i :: f < i < k ==> !tr[i].Begin? && !tr[i].Ack?
  }

  /** A message leaves the broker only after a dispatch of it ended, and by the ack that dispatch made. */
  lemma {:induction false} RemovedAfterDispatch(w: World, tr: Trace, m: nat)
    requires IsRun(w, tr) && m in After(w, tr).removed
    ensures exists f, k :: AckedFrom(tr, m, f, k)
  {
    var before, a := tr[..|tr| - 1], tr[|tr| - 1];
    assert forall i :: 0 <= i < |before| ==> before[i] == tr[i];
    if m in After(w, before).removed {
      RemovedAfterDispatch(w, before, m);
      var f, k :| AckedFrom(before, m, f, k);
      assert AckedFrom(tr, m, f, k);
    } else {
      var f := FinishedBy(w, before, m);
      assert AckedFrom(tr, m, f, |before|);
    }
  }

  /** The step at which the current, finished callback finished. */
  lemma {:induction false} FinishedBy(w: World, tr: Trace, m: nat) returns (f: nat)
    requires IsRun(w, tr) && Running(After(w, tr), m, true)
    ensures f < |tr| && tr[f] == Finish(m)
    ensures forall i :: f < i < |tr| ==> !tr[i].Begin? && !tr[i].Ack?
  {
    var before, a := tr[..|tr| - 1], tr[|tr| - 1];
    assert forall i :: 0 <= i < |before| ==> before[i] == tr[i];
    if Running(After(w, before), m, true) {
      f := FinishedBy(w, before, m);
    } else {
      f := |before|;
    }
  }

  // ---------------------------------------------------------------------
  // What can still happen
  // ---------------------------------------------------------------------

  lemma Snoc(w: World, tr: Trace, a: Action)
    requires IsRun(w, tr) && Enabled(After(w, tr), a)
    ensures IsRun(w, tr + [a]) && After(w, tr + [a]) == Next(w, After(w, tr), a)
  {
    assert (tr + [a])[..|tr|] == tr;
  }

  /**
   After a dispatch, clean or poisoned, its ack may fail, which leaves the
   message with the broker; or it may be accepted, which removes it, unless the
   delivery was taken back meanwhile.
   */
  lemma {:induction false} AckEitherWay(w: World, tr: Trace, m: nat)
    requires IsRun(w, tr) && Running(After(w, tr), m, true)
    ensures IsRun(w, tr + [Ack(m, false)]) && m !in After(w, tr + [Ack(m, false)]).removed
    ensures !After(w, tr).current.value.lost ==>
              IsRun(w, tr + [Ack(m, true)]) && m in After(w, tr + [Ack(m, true)]).removed
    ensures After(w, tr).current.value.lost ==> !IsRun(w, tr + [Ack(m, true)])
  {
    AllAccounted(w, tr, m);
    if m in After(w, tr).removed {
      NotCurrentOnceRemoved(w, tr, m);
    }
    Snoc(w, tr, Ack(m, false));
    if !After(w, tr).current.value.lost {
      Snoc(w, tr, Ack(m, true));
    } else {
      assert (tr + [Ack(m, true)])[..|tr|] == tr;
    }
  }

  /**
   A message that was not acknowledged, because its ack failed or is not out yet,
   may be given out again at any moment, even while the connection stays up; the
   ack of the earlier delivery then no longer removes it.
   */
  lemma {:induction false} MayExpire(w: World, tr: Trace, m: nat)
    requires IsRun(w, tr) && m in After(w, tr).unacked
    ensures IsRun(w, tr + [Expire(m)] + [Deliver(m)]) && !IsRun(w, tr + [Expire(m)] + [Ack(m, true)])
  {
    Snoc(w, tr, Expire(m));
    var t := tr + [Expire(m)];
    Snoc(w, t, Deliver(m));
    assert (t + [Ack(m, true)])[..|t|] == t;
  }

  /**
   No message is stuck: from any moment of any run, whatever acks failed and
   connections broke before, a published message can still be dispatched once
   more and removed.
   */
  lemma {:induction false} CanBeRemoved(w: World, tr: Trace, m: nat) returns (more: Trace)
    requires IsRun(w, tr) && Count(tr, Publish(m)) > 0 && m !in After(w, tr).removed
    ensures IsRun(w, tr + more) && m in After(w, tr + more).removed
  {
    AllAccounted(w, tr, m);
    hide After, IsRun, Accounted, Dispatched;
    var t := tr;
    if After(w, t).current.Some? {
      t := EndCallback(w, t);
    }
    Snoc(w, t, ConnectionLost);
    t := t + [ConnectionLost];
    t := DispatchAndAck(w, t, m);
    more := t[|tr|..];
    assert tr + more == t;
  }

  /** The callback in progress ends, its ack failing. */
  lemma EndCallback(w: World, tr: Trace) returns (t: Trace)
    requires IsRun(w, tr) && After(w, tr).current.Some?
    ensures tr <= t && IsRun(w, t)
    ensures After(w, t) == After(w, tr).(current := None, tally := After(w, t).tally)
  {
    hide After, IsRun, Dispatched;
    var n := After(w, tr).current.value.msg;
    t := tr;
    if !After(w, t).current.value.finished {
      Snoc(w, t, Finish(n));
      t := t + [Finish(n)];
    }
    Snoc(w, t, Ack(n, false));
    t := t + [Ack(n, false)];
  }

  lemma DispatchAndAck(w: World, tr: Trace, m: nat) returns (t: Trace)
    requires IsRun(w, tr) && After(w, tr).current == None && m in After(w, tr).ready
    ensures tr <= t && IsRun(w, t) && m in After(w, t).removed
  {
    hide After, IsRun, Dispatched;
    t := tr;
    Snoc(w, t, Deliver(m));
    t := t + [Deliver(m)];
    Snoc(w, t, Begin(m));
    t := t + [Begin(m)];
    Snoc(w, t, Finish(m));
    t := t + [Finish(m)];
    Snoc(w, t, Ack(m, true));
    t := t + [Ack(m, true)];
  }

  // ---------------------------------------------------------------------
  // What the handlers and the counters saw
  // ---------------------------------------------------------------------

  /** The dispatches that ended, in order. */
  function Dispatches(tr: Trace): seq<nat> {
    if tr == [] then []
    else
      var a := tr[|tr| - 1];
      Dispatches(tr[..|tr| - 1]) + if a.Finish? then [a.m] else []
  }

  /** What the callback was given, dispatch by dispatch. */
  function Bodies(w: World, ms: seq<nat>): seq<seq<Event>> {
    seq(|ms|, k requires 0 <= k < |ms| => Given(w, ms[k], k))
  }

  predicate AckDue(s: State) { s.current.Some? && s.current.value.finished }

  /**
   Over every run, the handlers' log and the poison counter are those of the
   dispatches that ended, and every such dispatch has tried one ack, except
   that of a callback which is about to.
   */
  lemma {:induction false} CountersFollowDispatches(w: World, tr: Trace)
    requires IsRun(w, tr)
    ensures var s, t := After(w, tr), TallyOf(w.local, Bodies(w, Dispatches(tr)));
            t == if AckDue(s) then AckTried(s.tally) else s.tally
  {
    if tr == [] {
    } else {
      var before, a := tr[..|tr| - 1], tr[|tr| - 1];
      CountersFollowDispatches(w, before);
      if a.Finish? {
        var bodies, next := Bodies(w, Dispatches(before)), Given(w, a.m, |Dispatches(before)|);
        assert Bodies(w, Dispatches(tr)) == bodies + [next];
        TallyNext(w.local, bodies, next);
      } else {
        assert Dispatches(tr) == Dispatches(before);
      }
    }
  }

  /**
   The protocol's steps are those of the code: a monitor whose callback was
   given the same messages has handed over the same events, counted the same
   poisonings and made the same number of ack attempts.
   */
  lemma {:induction false} MonitorAgrees(w: World, tr: Trace, mon: Monitor)
    requires IsRun(w, tr) && !AckDue(After(w, tr))
    requires mon.Valid() && mon.local == w.local && mon.dispatched == Bodies(w, Dispatches(tr))
    ensures mon.Counted() == After(w, tr).tally
  {
    CountersFollowDispatches(w, tr);
  }

  /**
   Every dispatch attempts exactly one ack, whether it ended well or was
   poisoned: message by message, and in the count that the callback keeps.
   */
  lemma {:induction false} OneAckPerDispatch(w: World, tr: Trace, m: nat)
    requires IsRun(w, tr)
    ensures var s := After(w, tr);
            && AckAttempts(tr, m) == Count(tr, Begin(m)) - If(Busy(s, m))
            && s.tally.ackAttempts == |Dispatches(tr)| - If(AckDue(s))
  {
    AllAccounted(w, tr, m);
    CountersFollowDispatches(w, tr);
  }

  lemma {:induction false} DispatchedIndex(tr: Trace, m: nat)
    ensures m in Dispatches(tr) <==> Count(tr, Finish(m)) > 0
  {
    if tr == [] {
    } else {
      DispatchedIndex(tr[..|tr| - 1], m);
    }
  }

  lemma HandedSomewhere(w: World, ms: seq<nat>, m: nat) returns (k: nat, pre: seq<Event>, post: seq<Event>)
    requires m in ms
    ensures HandedRun(w.local, Bodies(w, ms)) == pre + Handed(w.local, Given(w, m, k)) + post
  {
    k :| k < |ms| && ms[k] == m;
    var bs := Bodies(w, ms);
    pre, post := HandedRun(w.local, bs[..k]), HandedRun(w.local, bs[k + 1..]);
    HandedRunConcat(w.local, bs[..k], bs[k..]);
    assert bs == bs[..k] + bs[k..] && bs[k..][0] == bs[k] && bs[k..][1..] == bs[k + 1..];
  }

  ghost predicate Contains(log: seq<Event>, part: seq<Event>) {
    exists pre, post :: log == pre + part + post
  }

  /**
   At-least-once: the events that a removed message had for the handlers were
   handed to them in one go and in order, whatever their handlers then did; if
   the message was not poisoned, these are all that the filter selects.
   */
  lemma {:induction false} AtLeastOnce(w: World, tr: Trace, m: nat)
    requires IsRun(w, tr) && m in After(w, tr).removed
    ensures exists k :: Contains(After(w, tr).tally.handled, Handed(w.local, Given(w, m, k)))
    ensures Contains(AllPlain(After(w, tr).tally.handled), Handed(w.local, AllPlain(w.body(m))))
    ensures !Poisoned(w.local, w.body(m)) ==>
              Handed(w.local, AllPlain(w.body(m))) == Selected(w.local, AllPlain(w.body(m)))
  {
    hide Accounted, Handed, Selected;
    DispatchesOfRemoved(w, tr, m);
    DispatchedIndex(tr, m);
    CountersFollowDispatches(w, tr);
    var k, pre, post := HandedSomewhere(w, Dispatches(tr), m);
    var part := Handed(w.local, Given(w, m, k));
    assert Contains(After(w, tr).tally.handled, part);
    assert AllPlain(pre + part + post) == AllPlain(pre) + AllPlain(part) + AllPlain(post);
    HandedPlain(w.local, Given(w, m, k));
    HandedPlain(w.local, w.body(m));
    if !Poisoned(w.local, w.body(m)) {
      HandedWhole(w.local, AllPlain(w.body(m)));
    }
  }

  lemma HandedWhole(local: Option<string>, events: seq<Event>)
    requires !Poisoned(local, events)
    ensures Handed(local, events) == Selected(local, events)
  {
    HandedAt(local, events, CleanLength(local, events));
    assert events[..|events|] == events;
  }
}
