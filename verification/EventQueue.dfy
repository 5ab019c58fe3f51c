/**
 The engine's bounded event queue: enqueueing evicts the oldest events to make
 room, draining yields them to the transport, and every lost event is counted.
 */
module EventQueue {
  import opened Options
  import LossCounter

  const ATTEMPTS: nat := 3

  /** An event, told apart by an identity; the queue never looks inside. */
  type Event = nat

  /**
   The adapter as one process sees it between calls.  A `put_nowait` reports a
   full queue when it is full, and may do so otherwise; a `get_nowait` reports
   an empty queue when it is empty, and may do so otherwise.
   */
  class Adapter {
    const maxsize: nat
    var items: seq<Event>
    var dropped: nat
    var lossPid: nat
    var lossLock: nat

    // The queue with which this process started, and the uses of the adapter since; see `Run` below.
    ghost var inherited: seq<Event>
    ghost var ops: seq<Op>

    ghost function History(): Log
      reads this
    {
      Run(inherited, ops)
    }

    /**
     In process `pid` the fields are what the uses so far make them.  A count
     recorded by another process counts for nothing.
     */
    ghost predicate Follows(pid: nat)
      reads this
    {
      AllAllowed(inherited, ops) && items == History().queue && Loss(pid) == History().loss
    }

    /** The queue has refused nothing that it should not refuse. */
    ghost predicate OrdinarySoFar()
      reads this
    {
      |inherited| <= maxsize && AllOrdinary(maxsize, inherited, ops)
    }

    constructor (maxsize: nat, pid: nat, lock: nat)
      requires maxsize >= 1
      ensures this.maxsize == maxsize && items == [] && dropped == 0 && lossPid == pid && lossLock == lock
      ensures inherited == [] && ops == [] && Follows(pid) && OrdinarySoFar()
    {
      this.maxsize, items, dropped, lossPid, lossLock := maxsize, [], 0, pid, lock;
      inherited, ops := [], [];
    }

    /** In a child forked just now the memory is the parent's, and a run of its own begins. */
    ghost method Forked(pid: nat)
      requires lossPid != pid
      modifies `inherited, `ops
      ensures inherited == items && ops == [] && Follows(pid)
      ensures |items| <= maxsize ==> OrdinarySoFar()
    {
      inherited, ops := items, [];
    }

    /** What the counter stands for in process `pid`: a count from another process is no count. */
    function Loss(pid: nat): nat
      reads this
    {
      if lossPid == pid then dropped else 0
    }

    method ResetInherited(pid: nat, newLock: nat)
      modifies `dropped, `lossPid, `lossLock
      ensures lossPid == pid && dropped == old(Loss(pid))
      ensures lossLock == if old(lossPid) == pid then old(lossLock) else newLock
    {
      if lossPid != pid {
        lossLock := newLock;
        dropped := 0;
        lossPid := pid;
      }
    }

    method RecordDrop(pid: nat, newLock: nat)
      requires Loss(pid) <= LossCounter.CAP
      modifies `dropped, `lossPid, `lossLock
      ensures lossPid == pid && dropped == LossCounter.AtCap(old(Loss(pid)) + 1)
      ensures old(Loss(pid)) < 9_007_199_254_740_991 ==> dropped == old(Loss(pid)) + 1
      ensures dropped <= 9_007_199_254_740_991
      ensures lossLock == if old(lossPid) == pid then old(lossLock) else newLock
    {
      ResetInherited(pid, newLock);
      dropped := if dropped + 1 < LossCounter.CAP then dropped + 1 else LossCounter.CAP;
    }

    method DroppedEventCount(pid: nat, newLock: nat) returns (n: nat)
      modifies `dropped, `lossPid, `lossLock
      ensures n == old(Loss(pid)) == Loss(pid) && lossPid == pid
      ensures old(Follows(pid)) ==> Follows(pid)
      ensures lossLock == if old(lossPid) == pid then old(lossLock) else newLock
    {
      ResetInherited(pid, newLock);
      n := dropped;
    }

    method PutNowait(e: Event, refuse: bool) returns (full: bool)
      modifies `items
      ensures full <==> refuse || |old(items)| >= maxsize
      ensures items == if full then old(items) else old(items) + [e]
    {
      full := refuse || |items| >= maxsize;
      if !full {
        items := items + [e];
      }
    }

    method GetNowait(refuse: bool) returns (r: Option<Event>)
      modifies `items
      ensures r == if refuse || old(items) == [] then None else Some(old(items)[0])
      ensures items == if r == None then old(items) else old(items)[1..]
    {
      if refuse || items == [] {
        return None;
      }
      r := Some(items[0]);
      items := items[1..];
    }

    /**
     Put the event in, evicting oldest events while the queue says it is full,
     three times at most.  The events lost are the `evicted` oldest ones and, if
     no attempt let it in, the new one; the counter rises by exactly these.
     When nothing is refused that is not full or empty, the new event is always
     admitted and at most one is evicted.
     */
    method EnqueueEvent(e: Event, putRefused: seq<bool>, getRefused: seq<bool>, pid: nat, newLock: nat)
        returns (evicted: nat, admitted: bool)
      requires |putRefused| == |getRefused| == ATTEMPTS
      requires Loss(pid) <= LossCounter.CAP
      modifies `items, `dropped, `lossPid, `lossLock, `ops
      ensures ops == old(ops) + [Offer(e, evicted, admitted)]
      ensures inherited == old(inherited)
      ensures old(Follows(pid)) ==> Follows(pid)
      ensures old(Follows(pid)) && old(OrdinarySoFar()) && maxsize >= 1 && NothingRefused(putRefused, getRefused) ==>
                OrdinarySoFar()
      ensures lossPid == pid || (lossPid == old(lossPid) && evicted == 0 && admitted)
      ensures evicted <= |old(items)| && evicted <= 3
      ensures items == old(items)[evicted..] + if admitted then [e] else []
      ensures Loss(pid) == LossCounter.AtCap(old(Loss(pid)) + evicted + if admitted then 0 else 1)
      ensures |old(items)| <= maxsize ==> |items| <= maxsize
      ensures NothingRefused(putRefused, getRefused) && 1 <= maxsize && |old(items)| <= maxsize ==>
                admitted && evicted == if |old(items)| < maxsize then 0 else 1
      ensures EverythingRefused(putRefused, getRefused) ==>
                !admitted && evicted == 0
    {
      evicted, admitted := Attempt(e, putRefused, getRefused, pid, newLock);
      hide AllAllowed, AllOrdinary, Run;
      OfferLogged(inherited, ops, e, evicted, admitted);
      if old(Follows(pid)) && old(OrdinarySoFar()) && maxsize >= 1 && NothingRefused(putRefused, getRefused) {
        OrdinaryBound(maxsize, inherited, ops);
        OrdinarySnoc(maxsize, inherited, ops, Offer(e, evicted, admitted));
      }
      ops := ops + [Offer(e, evicted, admitted)];
    }

    method Attempt(e: Event, putRefused: seq<bool>, getRefused: seq<bool>, pid: nat, newLock: nat)
        returns (evicted: nat, admitted: bool)
      requires |putRefused| == |getRefused| == ATTEMPTS
      requires Loss(pid) <= LossCounter.CAP
      modifies `items, `dropped, `lossPid, `lossLock
      ensures lossPid == pid || (lossPid == old(lossPid) && evicted == 0 && admitted)
      ensures evicted <= |old(items)| && evicted <= 3
      ensures items == old(items)[evicted..] + if admitted then [e] else []
      ensures Loss(pid) == LossCounter.AtCap(old(Loss(pid)) + evicted + if admitted then 0 else 1)
      ensures |old(items)| <= maxsize ==> |items| <= maxsize
      ensures NothingRefused(putRefused, getRefused) && 1 <= maxsize && |old(items)| <= maxsize ==>
                admitted && evicted == if |old(items)| < maxsize then 0 else 1
      ensures EverythingRefused(putRefused, getRefused) ==>
                !admitted && evicted == 0
    {
      evicted, admitted := 0, false;
      var attempt := 0;
      while attempt < ATTEMPTS
        invariant attempt <= ATTEMPTS && evicted <= attempt
        invariant evicted <= |old(items)| && items == old(items)[evicted..]
        invariant lossPid == pid || (lossPid == old(lossPid) && evicted == 0)
        invariant Loss(pid) == LossCounter.AtCap(old(Loss(pid)) + evicted) && Loss(pid) <= LossCounter.CAP
        invariant NothingRefused(putRefused, getRefused) && 1 <= maxsize && |old(items)| <= maxsize ==>
                    evicted == attempt <= 1 && (attempt == 1 ==> |old(items)| == maxsize)
        invariant EverythingRefused(putRefused, getRefused) ==> evicted == 0
      {
        var gone: bool;
        admitted, gone := AttemptOnce(e, putRefused[attempt], getRefused[attempt], pid, newLock);
        if admitted {
          return;
        }
        evicted := evicted + if gone then 1 else 0;
        attempt := attempt + 1;
      }
      RecordDrop(pid, newLock);
    }

    /** Put, or else make room. */
    method AttemptOnce(e: Event, putRefused: bool, getRefused: bool, pid: nat, newLock: nat)
        returns (admitted: bool, gone: bool)
      requires Loss(pid) <= LossCounter.CAP
      modifies `items, `dropped, `lossPid, `lossLock
      ensures admitted <==> !putRefused && |old(items)| < maxsize
      ensures gone <==> !admitted && !getRefused && old(items) != []
      ensures items == if admitted then old(items) + [e] else if gone then old(items)[1..] else old(items)
      ensures Loss(pid) == if gone then LossCounter.AtCap(old(Loss(pid)) + 1) else old(Loss(pid))
      ensures if gone then lossPid == pid else lossPid == old(lossPid)
    {
      gone := false;
      var full := PutNowait(e, putRefused);
      if !full {
        return true, false;
      }
      admitted := false;
      var r := GetNowait(getRefused);
      if r.Some? {
        RecordDrop(pid, newLock);
        gone := true;
      }
    }

    /** `subscribe_events` takes the next event; on an empty queue it waits. */
    method Drain() returns (r: Option<Event>)
      modifies `items, `ops
      ensures ops == old(ops) + [Take] && inherited == old(inherited)
      ensures forall pid :: old(Follows(pid)) ==> Follows(pid)
      ensures old(OrdinarySoFar()) ==> OrdinarySoFar()
      ensures forall pid :: old(Follows(pid)) && r.Some? ==>
                History().delivered == old(History()).delivered + [r.value]
      ensures r == if old(items) == [] then None else Some(old(items)[0])
      ensures items == if old(items) == [] then [] else old(items)[1..]
    {
      r := GetNowait(false);
      ops := ops + [Take];
      TakeLogged(inherited, old(ops));
      if old(OrdinarySoFar()) {
        OrdinarySnoc(maxsize, inherited, old(ops), Take);
      }
    }

    /**
     What holds of the adapter at any time in any process, built there or
     forked: events are conserved, and the counter is this process's drops.
     */
    lemma AlwaysConserved(pid: nat)
      requires Follows(pid)
      ensures items == History().queue
      ensures var n := |History().dropped|;
              Loss(pid) == if n < 9_007_199_254_740_991 then n else 9_007_199_254_740_991
      ensures multiset(inherited) + multiset(OfferedBy(ops)) ==
              multiset(History().delivered) + multiset(items) + multiset(History().dropped)
    {
      Conservation(inherited, ops);
      OfferedIs(inherited, ops);
    }

    /** With an ordinary queue, `items` is at any time a suffix of the events offered, the rest gone in order. */
    lemma AlwaysSuffix(pid: nat)
      requires maxsize >= 1 && Follows(pid) && OrdinarySoFar()
      ensures |items| <= maxsize
      ensures exists fates :: Split(History(), fates)
      ensures exists n :: 0 <= n <= |inherited + OfferedBy(ops)| && items == (inherited + OfferedBy(ops))[n..]
    {
      SuffixAndOrder(maxsize, inherited, ops);
      OfferedIs(inherited, ops);
      var fates :| Split(History(), fates);
      assert items == (inherited + OfferedBy(ops))[|fates|..];
    }
  }

  predicate NothingRefused(putRefused: seq<bool>, getRefused: seq<bool>) {
    (forall i :: 0 <= i < |putRefused| ==> !putRefused[i])
    && forall i :: 0 <= i < |getRefused| ==> !getRefused[i]
  }

  predicate EverythingRefused(putRefused: seq<bool>, getRefused: seq<bool>) {
    (forall i :: 0 <= i < |putRefused| ==> putRefused[i])
    && forall i :: 0 <= i < |getRefused| ==> getRefused[i]
  }

  // ---------------------------------------------------------------------
  // Runs
  // ---------------------------------------------------------------------

  /**
   One use of the adapter.  `Offer` carries what `EnqueueEvent` returned; it may
   be any pair its contract allows.
   */
  datatype Op = Offer(e: Event, evicted: nat, admitted: bool) | Take

  datatype Log = Log(
    offered: seq<Event>,
    queue: seq<Event>,
    delivered: seq<Event>,
    dropped: seq<Event>,
    loss: nat)

  /** Where a process starts: events already queued count as offered. */
  function Start(inherited: seq<Event>): Log { Log(inherited, inherited, [], [], 0) }

  /** The queue did what `EnqueueEvent` promises of it under any refusals. */
  predicate Allowed(l: Log, op: Op) {
    op.Offer? ==> op.evicted <= |l.queue| && op.evicted <= ATTEMPTS
  }

  /** ... and what it promises when nothing is refused, as on the runtime's loop thread. */
  predicate Ordinary(maxsize: nat, l: Log, op: Op) {
    op.Offer? ==> op.admitted && op.evicted == if |l.queue| < maxsize then 0 else 1
  }

  function Apply(l: Log, op: Op): Log {
    match op
    case Offer(e, evicted, admitted) =>
      var k := if evicted <= |l.queue| then evicted else |l.queue|;
      var added := if admitted then [e] else [];
      var lost := if admitted then [] else [e];
      Log(l.offered + [e], l.queue[k..] + added, l.delivered, l.dropped + l.queue[..k] + lost,
          LossCounter.AtCap(l.loss + k + |lost|))
    case Take =>
      if l.queue == [] then l
      else l.(queue := l.queue[1..], delivered := l.delivered + [l.queue[0]])
  }

  function Run(q: seq<Event>, ops: seq<Op>): Log {
    if ops == [] then Start(q) else Apply(Run(q, ops[..|ops| - 1]), ops[|ops| - 1])
  }

  function OfferedBy(ops: seq<Op>): seq<Event> {
    if ops == [] then []
    else
      var op := ops[|ops| - 1];
      OfferedBy(ops[..|ops| - 1]) + if op.Offer? then [op.e] else []
  }

  lemma {:induction false} OfferedIs(q: seq<Event>, ops: seq<Op>)
    ensures Run(q, ops).offered == q + OfferedBy(ops)
  {
    if ops == [] {
    } else {
      OfferedIs(q, ops[..|ops| - 1]);
    }
  }

  ghost predicate AllAllowed(q: seq<Event>, ops: seq<Op>) {
    forall i :: 0 <= i < |ops| ==> Allowed(Run(q, ops[..i]), ops[i])
  }

  ghost predicate AllOrdinary(maxsize: nat, q: seq<Event>, ops: seq<Op>) {
    forall i :: 0 <= i < |ops| ==> Ordinary(maxsize, Run(q, ops[..i]), ops[i])
  }

  lemma {:induction false} RunSnoc(q: seq<Event>, ops: seq<Op>, op: Op)
    requires AllAllowed(q, ops) && Allowed(Run(q, ops), op)
    ensures Run(q, ops + [op]) == Apply(Run(q, ops), op) && AllAllowed(q, ops + [op])
  {
    var all := ops + [op];
    assert all[..|ops|] == ops;
    forall i | 0 <= i < |all| ensures Allowed(Run(q, all[..i]), all[i]) {
      if i < |ops| {
        assert all[..i] == ops[..i];
      }
    }
  }

  lemma {:induction false} OrdinarySnoc(maxsize: nat, q: seq<Event>, ops: seq<Op>, op: Op)
    requires AllOrdinary(maxsize, q, ops) && Ordinary(maxsize, Run(q, ops), op)
    ensures AllOrdinary(maxsize, q, ops + [op])
  {
    var all := ops + [op];
    forall i | 0 <= i < |all| ensures Ordinary(maxsize, Run(q, all[..i]), all[i]) {
      if i < |ops| {
        assert all[..i] == ops[..i];
      } else {
        assert all[..i] == ops;
      }
    }
  }

  lemma {:induction false} OrdinaryBound(maxsize: nat, q: seq<Event>, ops: seq<Op>)
    requires maxsize >= 1 && |q| <= maxsize && AllOrdinary(maxsize, q, ops)
    ensures |Run(q, ops).queue| <= maxsize
  {
    var fates := OrdinarySplit(maxsize, q, ops);
  }

  lemma {:induction false} OfferLogged(q: seq<Event>, ops: seq<Op>, e: Event, evicted: nat, admitted: bool)
    requires evicted <= ATTEMPTS
    ensures AllAllowed(q, ops) && evicted <= |Run(q, ops).queue| ==>
              AllAllowed(q, ops + [Offer(e, evicted, admitted)])
    ensures AllAllowed(q, ops) && evicted <= |Run(q, ops).queue| ==>
              Run(q, ops + [Offer(e, evicted, admitted)]) == Apply(Run(q, ops), Offer(e, evicted, admitted))
  {
    if AllAllowed(q, ops) && evicted <= |Run(q, ops).queue| {
      RunSnoc(q, ops, Offer(e, evicted, admitted));
    }
  }

  lemma ApplyOffer(l: Log, e: Event, evicted: nat, admitted: bool)
    requires evicted <= |l.queue|
    ensures var lost := if admitted then [] else [e];
            Apply(l, Offer(e, evicted, admitted)) ==
            Log(l.offered + [e], l.queue[evicted..] + (if admitted then [e] else []), l.delivered,
                l.dropped + l.queue[..evicted] + lost,
                LossCounter.AtCap(l.loss + evicted + |lost|))
  {
  }

  lemma {:induction false} TakeLogged(q: seq<Event>, ops: seq<Op>)
    ensures AllAllowed(q, ops) ==>
              Run(q, ops + [Take]) == Apply(Run(q, ops), Take) && AllAllowed(q, ops + [Take])
  {
    if AllAllowed(q, ops) {
      RunSnoc(q, ops, Take);
    }
  }

  /**
   Conservation, for any behaviour of the queue: every offered event is
   delivered, queued or dropped, exactly once, and the counter is the number
   dropped, up to its cap.
   */
  lemma {:induction false} Conservation(q: seq<Event>, ops: seq<Op>)
    ensures Conserved(Run(q, ops))
  {
    if ops == [] {
    } else {
      Conservation(q, ops[..|ops| - 1]);
      ConservedStep(Run(q, ops[..|ops| - 1]), ops[|ops| - 1]);
    }
  }

  ghost predicate Conserved(l: Log) {
    && multiset(l.offered) == multiset(l.delivered) + multiset(l.queue) + multiset(l.dropped)
    && |l.offered| == |l.delivered| + |l.queue| + |l.dropped|
    && l.loss == LossCounter.AtCap(|l.dropped|)
  }

  lemma ConservedStep(l: Log, op: Op)
    requires Conserved(l)
    ensures Conserved(Apply(l, op))
  {
    match op
    case Offer(e, evicted, admitted) =>
      var k := if evicted <= |l.queue| then evicted else |l.queue|;
      ConservedOffer(l, e, k, admitted);
      assert Apply(l, op) == Apply(l, Offer(e, k, admitted));
    case Take => ConservedTake(l);
  }

  lemma ConservedTake(l: Log)
    requires Conserved(l)
    ensures Conserved(Apply(l, Take))
  {
    if l.queue != [] {
      assert l.queue == [l.queue[0]] + l.queue[1..];
      assert multiset(l.queue) == multiset{l.queue[0]} + multiset(l.queue[1..]);
    }
  }

  lemma ConservedOffer(l: Log, e: Event, k: nat, admitted: bool)
    requires Conserved(l) && k <= |l.queue|
    ensures Conserved(Apply(l, Offer(e, k, admitted)))
  {
    ApplyOffer(l, e, k, admitted);
    var m := Apply(l, Offer(e, k, admitted));
    assert l.queue == l.queue[..k] + l.queue[k..];
    assert multiset(l.queue) == multiset(l.queue[..k]) + multiset(l.queue[k..]);
    if admitted {
      assert m.queue == l.queue[k..] + [e];
      assert m.dropped == l.dropped + l.queue[..k];
    } else {
      assert m.queue == l.queue[k..];
      assert m.dropped == l.dropped + l.queue[..k] + [e];
    }
  }

  /** What became of each offered event that left the queue. */
  datatype Fate = Delivered | Dropped

  function Picked(s: seq<Event>, fates: seq<Fate>, f: Fate): seq<Event>
    requires |s| == |fates|
  {
    if s == [] then []
    else
      Picked(s[..|s| - 1], fates[..|s| - 1], f)
      + if fates[|s| - 1] == f then [s[|s| - 1]] else []
  }

  lemma PickedSnoc(s: seq<Event>, fates: seq<Fate>, e: Event, g: Fate, f: Fate)
    requires |s| == |fates|
    ensures Picked(s + [e], fates + [g], f) == Picked(s, fates, f) + if g == f then [e] else []
  {
    assert (s + [e])[..|s|] == s && (fates + [g])[..|s|] == fates;
  }

  /**
   The queue is the tail of the offered events, and the events before it went
   one by one, each delivered or dropped, in order.
   */
  ghost predicate Split(l: Log, fates: seq<Fate>) {
    && |fates| + |l.queue| == |l.offered|
    && l.queue == l.offered[|fates|..]
    && l.delivered == Picked(l.offered[..|fates|], fates, Delivered)
    && l.dropped == Picked(l.offered[..|fates|], fates, Dropped)
  }

  lemma LeaveQueue(l: Log, fates: seq<Fate>, g: Fate)
    requires Split(l, fates) && l.queue != []
    ensures var e := l.queue[0];
            Split(l.(queue := l.queue[1..],
                     delivered := if g == Delivered then l.delivered + [e] else l.delivered,
                     dropped := if g == Dropped then l.dropped + [e] else l.dropped),
                  fates + [g])
  {
    var n := |fates|;
    assert l.queue[0] == l.offered[n];
    assert l.offered[..n + 1] == l.offered[..n] + [l.offered[n]];
    PickedSnoc(l.offered[..n], fates, l.offered[n], g, Delivered);
    PickedSnoc(l.offered[..n], fates, l.offered[n], g, Dropped);
  }

  lemma EnterQueue(l: Log, fates: seq<Fate>, e: Event)
    requires Split(l, fates)
    ensures Split(l.(offered := l.offered + [e], queue := l.queue + [e]), fates)
  {
    assert (l.offered + [e])[..|fates|] == l.offered[..|fates|];
  }

  lemma OrdinaryStep(maxsize: nat, l: Log, op: Op, fates: seq<Fate>) returns (after: seq<Fate>)
    requires maxsize >= 1 && Ordinary(maxsize, l, op)
    requires Split(l, fates) && |l.queue| <= maxsize
    ensures Split(Apply(l, op), after) && |Apply(l, op).queue| <= maxsize
  {
    after := fates;
    match op {
      case Take =>
        if l.queue != [] {
          LeaveQueue(l, fates, Delivered);
          after := fates + [Delivered];
        }
      case Offer(e, evicted, admitted) =>
        if evicted == 0 {
          EnterQueue(l, fates, e);
          assert Apply(l, op) == l.(offered := l.offered + [e], queue := l.queue + [e], loss := Apply(l, op).loss);
        } else {
          LeaveQueue(l, fates, Dropped);
          after := fates + [Dropped];
          var m := l.(queue := l.queue[1..], dropped := l.dropped + [l.queue[0]]);
          EnterQueue(m, after, e);
          assert l.queue[..1] == [l.queue[0]];
          assert Apply(l, op) == m.(offered := l.offered + [e], queue := m.queue + [e], loss := Apply(l, op).loss);
        }
    }
  }

  lemma {:induction false} OrdinarySplit(maxsize: nat, q: seq<Event>, ops: seq<Op>) returns (fates: seq<Fate>)
    requires maxsize >= 1 && |q| <= maxsize && AllOrdinary(maxsize, q, ops)
    ensures Split(Run(q, ops), fates)
    ensures |Run(q, ops).queue| <= maxsize
  {
    if ops == [] {
      fates := [];
    } else {
      var before := ops[..|ops| - 1];
      assert forall i :: 0 <= i < |before| ==> before[..i] == ops[..i];
      fates := OrdinarySplit(maxsize, q, before);
      fates := OrdinaryStep(maxsize, Run(q, before), ops[|ops| - 1], fates);
    }
  }

  /**
   Drop-oldest, over every interleaving of enqueues and drains: the queue is a
   contiguous suffix of the events offered, and the delivered events are those
   of the rest, in order, that were not evicted.
   */
  lemma {:induction false} SuffixAndOrder(maxsize: nat, q: seq<Event>, ops: seq<Op>)
    requires maxsize >= 1 && |q| <= maxsize && AllOrdinary(maxsize, q, ops)
    ensures |Run(q, ops).queue| <= maxsize
    ensures exists fates :: Split(Run(q, ops), fates)
  {
    var fates := OrdinarySplit(maxsize, q, ops);
  }
}
