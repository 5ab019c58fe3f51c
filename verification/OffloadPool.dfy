/**
 The bounded thread pool for broker I/O, as a protocol over any number of
 calls.  The waiter of a call may give up at any time; a call that is still
 queued is then cancelled, one that is running keeps its thread.
 */
module OffloadPool {
  import opened Sets

  const MAX_WORKERS := 8

  /** How the function itself ends; the timeout error is told apart, as the waiter cannot. */
  datatype Ending = Returned(value: int) | Raised(error: string) | RaisedTimeout

  /** What the waiter of a call is told. */
  datatype Report = Success(value: int) | Failure(error: string) | Indeterminate

  /** Calls are numbered in submission order. */
  datatype State = State(
    submitted: nat,
    queue: seq<nat>,
    running: set<nat>,
    ended: map<nat, Ending>,
    reports: map<nat, Report>)

  datatype Action =
    | Submit
    | Start(c: nat)                  // a worker takes the call at the head of the queue
    | End(c: nat, ending: Ending)
    | GiveUp(c: nat)                 // the wait for the call times out
    | Observe(c: nat)                // the waiter sees that the call has ended

  const INITIAL := State(0, [], {}, map[], map[])

  function ReportOf(ending: Ending): Report {
    match ending
    case Returned(v) => Success(v)
    case Raised(e) => Failure(e)
    case RaisedTimeout => Indeterminate
  }

  predicate Waiting(s: State, c: nat) {
    c < s.submitted && c !in s.reports
  }

  predicate Enabled(s: State, a: Action) {
    match a
    case Submit => true
    case Start(c) => |s.queue| > 0 && s.queue[0] == c && |s.running| < MAX_WORKERS
    case End(c, _) => c in s.running
    case GiveUp(c) => Waiting(s, c)
    case Observe(c) => Waiting(s, c) && c in s.ended
  }

  /** A cancelled call leaves the queue. */
  function Cancel(q: seq<nat>, c: nat): (r: seq<nat>)
    ensures forall d :: d in r <==> d in q && d != c
  {
    if q == [] then []
    else
      assert q == [q[0]] + q[1..];
      if q[0] == c then Cancel(q[1..], c) else [q[0]] + Cancel(q[1..], c)
  }

  function Next(s: State, a: Action): State {
    match a
    case Submit => s.(submitted := s.submitted + 1, queue := s.queue + [s.submitted])
    case Start(c) => s.(queue := if s.queue == [] then [] else s.queue[1..], running := s.running + {c})
    case End(c, ending) => s.(running := s.running - {c}, ended := s.ended[c := ending])
    case GiveUp(c) => s.(queue := Cancel(s.queue, c), reports := s.reports[c := Indeterminate])
    case Observe(c) =>
      s.(reports := s.reports[c := if c in s.ended then ReportOf(s.ended[c]) else Indeterminate])
  }

  type Trace = seq<Action>

  function After(tr: Trace): State {
    if tr == [] then INITIAL else Next(After(tr[..|tr| - 1]), tr[|tr| - 1])
  }

  predicate IsRun(tr: Trace) {
    tr == [] || (IsRun(tr[..|tr| - 1]) && Enabled(After(tr[..|tr| - 1]), tr[|tr| - 1]))
  }

  /** The calls started so far, in the order in which workers took them. */
  function Started(tr: Trace): seq<nat> {
    if tr == [] then []
    else
      var a := tr[|tr| - 1];
      Started(tr[..|tr| - 1]) + if a.Start? then [a.c] else []
  }

  /** The calls whose waiter was told something, in order. */
  function Told(tr: Trace): seq<nat> {
    if tr == [] then []
    else
      var a := tr[|tr| - 1];
      Told(tr[..|tr| - 1]) + if a.GiveUp? || a.Observe? then [a.c] else []
  }

  predicate Increasing(q: seq<nat>) {
    forall i, j :: 0 <= i < j < |q| ==> q[i] < q[j]
  }

  predicate NoRepeats(q: seq<nat>) {
    forall i, j :: 0 <= i < j < |q| ==> q[i] != q[j]
  }

  /** The calls that nobody waits for any more and whose function still holds a worker. */
  function Abandoned(s: State): set<nat> {
    set c | c in s.running && c in s.reports
  }

  /** The calls whose waiter was told that the outcome is unknown. */
  function Unknown(s: State): set<nat> {
    set c | c in s.reports && s.reports[c].Indeterminate?
  }

  ghost predicate Inv(s: State, started: seq<nat>, told: seq<nat>) {
    WorkInv(s, started) && ReportInv(s, told) && WaitInv(s, started)
  }

  ghost predicate WorkInv(s: State, started: seq<nat>) {
    && |s.running| <= MAX_WORKERS
    && Increasing(started) && Increasing(s.queue)
    && (forall c, d :: c in started && d in s.queue ==> c < d)
    && (forall c :: c in s.queue ==> c < s.submitted)
    && (forall c :: c in started <==> c in s.running || c in s.ended)
    && (forall c :: c in s.running ==> c !in s.ended)
    && (forall c :: c in started ==> c < s.submitted)
  }

  ghost predicate ReportInv(s: State, told: seq<nat>) {
    && NoRepeats(told)
    && (forall c :: c in told <==> c in s.reports)
    && (forall c :: c in s.reports ==> c < s.submitted)
    && (forall c :: c in s.reports && !s.reports[c].Indeterminate? ==>
          c in s.ended && s.reports[c] == ReportOf(s.ended[c]))
  }

  /** A call is queued, started, or its report is out; a queued call is still waited for. */
  ghost predicate WaitInv(s: State, started: seq<nat>) {
    && (forall c :: c in s.queue ==> c !in s.reports)
    && (forall c: nat :: c < s.submitted ==> c in s.queue || c in started || c in s.reports)
  }

  lemma {:induction false} CancelIncreasing(q: seq<nat>, c: nat)
    requires Increasing(q)
    ensures Increasing(Cancel(q, c))
  {
    if q == [] {
    } else {
      var t := Cancel(q[1..], c);
      CancelIncreasing(q[1..], c);
      forall j | 0 <= j < |t| ensures q[0] < t[j] {
        assert t[j] in t;
        var k :| 0 <= k < |q[1..]| && q[1..][k] == t[j];
        assert q[k + 1] == t[j];
      }
    }
  }

  lemma {:induction false} AlwaysInv(tr: Trace)
    requires IsRun(tr)
    ensures Inv(After(tr), Started(tr), Told(tr))
  {
    if tr == [] {
    } else {
      var before, a := tr[..|tr| - 1], tr[|tr| - 1];
      AlwaysInv(before);
      StepInv(After(before), Started(before), Told(before), a);
      assert Started(tr) == Started(before) + if a.Start? then [a.c] else [];
      assert Told(tr) == Told(before) + if a.GiveUp? || a.Observe? then [a.c] else [];
    }
  }

  lemma AppendIncreasing(q: seq<nat>, n: nat)
    requires Increasing(q) && forall d :: d in q ==> d < n
    ensures Increasing(q + [n])
  {
    forall i | 0 <= i < |q| ensures q[i] < n { assert q[i] in q; }
  }

  lemma StepInv(s: State, started: seq<nat>, told: seq<nat>, a: Action)
    requires Inv(s, started, told) && Enabled(s, a)
    ensures Inv(Next(s, a), started + (if a.Start? then [a.c] else []),
                told + (if a.GiveUp? || a.Observe? then [a.c] else []))
  {
    StepWork(s, started, a);
    StepReports(s, started, told, a);
    StepWait(s, started, told, a);
  }

  lemma MemberSnoc(q: seq<nat>, n: nat)
    ensures forall d :: d in q + [n] <==> d in q || d == n
  {
  }

  lemma StepStart(s: State, started: seq<nat>, c: nat)
    requires WorkInv(s, started) && Enabled(s, Start(c))
    ensures WorkInv(Next(s, Start(c)), started + [c])
  {
    var rest := s.queue[1..];
    assert s.queue == [c] + rest;
    assert c in s.queue && c !in started;
    assert forall d :: d in rest ==> d in s.queue && c < d by {
      forall i | 0 <= i < |rest| ensures rest[i] == s.queue[i + 1] && c < s.queue[i + 1] {}
    }
    AppendIncreasing(started, c);
    MemberSnoc(started, c);
  }

  lemma StepWork(s: State, started: seq<nat>, a: Action)
    requires WorkInv(s, started) && Enabled(s, a)
    ensures WorkInv(Next(s, a), started + if a.Start? then [a.c] else [])
  {
    assert started + [] == started;
    match a
    case Submit =>
      AppendIncreasing(s.queue, s.submitted);
      MemberSnoc(s.queue, s.submitted);
    case Start(c) => StepStart(s, started, c);
    case End(c, ending) =>
    case GiveUp(c) => CancelIncreasing(s.queue, c);
    case Observe(c) =>
  }

  lemma StepReports(s: State, started: seq<nat>, told: seq<nat>, a: Action)
    requires WorkInv(s, started) && ReportInv(s, told) && Enabled(s, a)
    ensures ReportInv(Next(s, a), told + if a.GiveUp? || a.Observe? then [a.c] else [])
  {
    hide Cancel, Increasing;
    assert told + [] == told;
    if a.GiveUp? || a.Observe? {
      MemberSnoc(told, a.c);
    }
  }

  lemma WaitStart(s: State, started: seq<nat>, told: seq<nat>, c: nat)
    requires Inv(s, started, told) && Enabled(s, Start(c))
    ensures WaitInv(Next(s, Start(c)), started + [c])
  {
    hide Increasing, NoRepeats;
    MemberSnoc(started, c);
    assert s.queue == [c] + s.queue[1..];
    MemberCons(c, s.queue[1..]);
  }

  lemma MemberCons(n: nat, q: seq<nat>)
    ensures forall d :: d in [n] + q <==> d in q || d == n
  {
  }

  lemma StepWait(s: State, started: seq<nat>, told: seq<nat>, a: Action)
    requires Inv(s, started, told) && Enabled(s, a)
    ensures WaitInv(Next(s, a), started + if a.Start? then [a.c] else [])
  {
    hide Increasing, NoRepeats, Cancel;
    assert started + [] == started;
    match a
    case Submit => MemberSnoc(s.queue, s.submitted);
    case Start(c) => WaitStart(s, started, told, c);
    case End(c, ending) =>
    case GiveUp(c) =>
    case Observe(c) =>
  }

  // ---------------------------------------------------------------------
  // The protocol's promises, on every run
  // ---------------------------------------------------------------------

  /** Functions start at most once and in submission order; at most eight hold a worker, abandoned ones included. */
  lemma {:induction false} StartsOnceInOrder(tr: Trace)
    requires IsRun(tr)
    ensures Increasing(Started(tr))
    ensures |After(tr).running| <= 8
    ensures Abandoned(After(tr)) <= After(tr).running
  {
    AlwaysInv(tr);
  }

  /** Each call is reported at most once, and as long as it has not been, its waiter can give up. */
  lemma {:induction false} ReportedOnce(tr: Trace, c: nat)
    requires IsRun(tr)
    ensures NoRepeats(Told(tr))
    ensures c in Told(tr) <==> c in After(tr).reports
    ensures c < After(tr).submitted ==> (c in After(tr).reports <==> !Enabled(After(tr), GiveUp(c)))
  {
    AlwaysInv(tr);
  }

  /** A report never changes. */
  lemma {:induction false} ReportsAreFinal(tr: Trace, n: nat, c: nat)
    requires IsRun(tr) && n <= |tr| && c in After(tr[..n]).reports
    ensures c in After(tr).reports && After(tr).reports[c] == After(tr[..n]).reports[c]
  {
    if n == |tr| {
      assert tr[..n] == tr;
    } else {
      var before := tr[..|tr| - 1];
      assert before[..n] == tr[..n];
      ReportsAreFinal(before, n, c);
    }
  }

  /** What must have happened for a report to be given. */
  predicate Evidence(tr: Trace, c: nat, r: Report) {
    match r
    case Success(v) => End(c, Returned(v)) in tr
    case Failure(e) => End(c, Raised(e)) in tr
    case Indeterminate => GiveUp(c) in tr || End(c, RaisedTimeout) in tr
  }

  /** A success carries the value the function returned; a definite failure, the error it raised. */
  lemma {:induction false} ReportsAreHonest(tr: Trace, c: nat)
    requires IsRun(tr) && c in After(tr).reports
    ensures Evidence(tr, c, After(tr).reports[c])
  {
    AlwaysInv(tr);
    if After(tr).reports[c].Indeterminate? {
      IndeterminateInTrace(tr, c);
    } else {
      EndedInTrace(tr, c);
    }
  }

  lemma {:induction false} EndedInTrace(tr: Trace, c: nat)
    requires c in After(tr).ended
    ensures End(c, After(tr).ended[c]) in tr
  {
    var before, a := tr[..|tr| - 1], tr[|tr| - 1];
    assert tr == before + [a];
    if !(a.End? && a.c == c) {
      EndedInTrace(before, c);
    }
  }

  lemma {:induction false} IndeterminateInTrace(tr: Trace, c: nat)
    requires IsRun(tr) && c in After(tr).reports && After(tr).reports[c] == Indeterminate
    ensures GiveUp(c) in tr || End(c, RaisedTimeout) in tr
  {
    var before, a := tr[..|tr| - 1], tr[|tr| - 1];
    assert tr == before + [a];
    if a == Observe(c) {
      EndedInTrace(before, c);
    } else if a != GiveUp(c) {
      IndeterminateInTrace(before, c);
    }
  }

  /** A waiter that gave up before its call started has cancelled it: it never starts afterwards. */
  lemma {:induction false} CancelledNeverStarts(tr: Trace, n: nat, c: nat)
    requires IsRun(tr) && n <= |tr|
    requires c in After(tr[..n]).reports && c !in Started(tr[..n])
    ensures c !in Started(tr)
  {
    if n == |tr| {
      assert tr[..n] == tr;
    } else {
      var before := tr[..|tr| - 1];
      assert before[..n] == tr[..n];
      CancelledNeverStarts(before, n, c);
      ReportsAreFinal(before, n, c);
      AlwaysInv(before);
    }
  }

  /**
   The workers a set of calls can park: an abandoned call is one that was
   reported indeterminate, so if at most `k` calls were, at most `k` of the
   workers are parked.
   */
  lemma {:induction false} ParkedAreIndeterminate(tr: Trace, k: nat)
    requires IsRun(tr)
    requires |Unknown(After(tr))| <= k
    ensures |Abandoned(After(tr))| <= k
  {
    AlwaysInv(tr);
    AbandonedUnknown(After(tr), Started(tr), Told(tr));
    SubsetSize(Abandoned(After(tr)), Unknown(After(tr)));
  }

  lemma AbandonedUnknown(s: State, started: seq<nat>, told: seq<nat>)
    requires Inv(s, started, told)
    ensures Abandoned(s) <= Unknown(s)
  {
  }

  /**
   A call whose function ended while its waiter is waiting can be reported with
   exactly what happened: the value it returned, the error it raised, or, if that
   was a timeout error, as an unknown outcome.
   */
  lemma {:induction false} EndedCanBeReported(tr: Trace, c: nat, x: Ending)
    requires IsRun(tr) && End(c, x) in tr && c !in After(tr).reports
    ensures IsRun(tr + [Observe(c)]) && c in After(tr + [Observe(c)]).reports
    ensures var r := After(tr + [Observe(c)]).reports[c];
            && (forall v :: x == Returned(v) ==> r == Success(v))
            && (forall e :: x == Raised(e) ==> r == Failure(e))
            && (x == RaisedTimeout ==> r == Indeterminate)
  {
    EndsOnce(tr, c, x);
    AlwaysInv(tr);
    Snoc(tr, Observe(c));
  }

  /** A function that ended has ended that way for good. */
  lemma {:induction false} EndsOnce(tr: Trace, c: nat, x: Ending)
    requires IsRun(tr) && End(c, x) in tr
    ensures c in After(tr).ended && After(tr).ended[c] == x
  {
    hide Inv, Enabled, Next;
    var before, a := tr[..|tr| - 1], tr[|tr| - 1];
    assert tr == before + [a];
    AlwaysInv(before);
    if End(c, x) in before {
      EndsOnce(before, c, x);
    }
    EndedStays(After(before), Started(before), Told(before), a, c);
  }

  lemma EndedStays(s: State, started: seq<nat>, told: seq<nat>, a: Action, c: nat)
    requires Inv(s, started, told) && Enabled(s, a)
    ensures c in s.ended ==> c in Next(s, a).ended && Next(s, a).ended[c] == s.ended[c]
    ensures a.End? && a.c == c ==> c in Next(s, a).ended && Next(s, a).ended[c] == a.ending
  {
  }

  /**
   A started function can end in any way until it has ended, whether or not
   anyone still waits for it, and a waiter can give up on a call in any state,
   which is then reported as unknown.
   */
  lemma {:induction false} AnythingCanHappen(tr: Trace, c: nat, x: Ending)
    requires IsRun(tr)
    ensures c in Started(tr) && (forall y :: End(c, y) !in tr) ==> IsRun(tr + [End(c, x)])
    ensures c < After(tr).submitted && c !in After(tr).reports ==>
              && IsRun(tr + [GiveUp(c)]) && c in After(tr + [GiveUp(c)]).reports
              && After(tr + [GiveUp(c)]).reports[c] == Indeterminate
    ensures IsRun(tr + [Submit]) && After(tr + [Submit]).submitted == After(tr).submitted + 1
  {
    AlwaysInv(tr);
    Snoc(tr, Submit);
    if c in Started(tr) && (forall y :: End(c, y) !in tr) {
      if c in After(tr).ended {
        EndedInTrace(tr, c);
      }
      Snoc(tr, End(c, x));
    }
    if c < After(tr).submitted && c !in After(tr).reports {
      Snoc(tr, GiveUp(c));
    }
  }

  predicate NoEnd(more: Trace) {
    forall i :: 0 <= i < |more| ==> !more[i].End?
  }

  /** Without any function ending, a continuation of the run starts another call. */
  ghost predicate Advances(tr: Trace) {
    exists more :: NoEnd(more) && IsRun(tr + more) && Started(tr + more) != Started(tr)
  }

  /**
   The pool stalls until some function ends if and only if functions, abandoned
   ones included, hold all eight workers.
   */
  lemma {:induction false} StuckOnlyWhenFull(tr: Trace)
    requires IsRun(tr)
    ensures Advances(tr) <==> |After(tr).running| < 8
  {
    AlwaysInv(tr);
    if |After(tr).running| < MAX_WORKERS {
      var more := NextStart(tr);
      assert NoEnd(more);
    } else {
      forall more | NoEnd(more) && IsRun(tr + more) ensures Started(tr + more) == Started(tr) {
        FullStalls(tr, more);
      }
    }
  }

  lemma Snoc(tr: Trace, a: Action)
    requires IsRun(tr) && Enabled(After(tr), a)
    ensures IsRun(tr + [a]) && After(tr + [a]) == Next(After(tr), a)
    ensures Started(tr + [a]) == Started(tr) + if a.Start? then [a.c] else []
  {
    assert (tr + [a])[..|tr|] == tr;
  }

  /** With a free worker the next call starts; if none is queued, a new one. */
  lemma NextStart(tr: Trace) returns (more: Trace)
    requires IsRun(tr) && |After(tr).running| < MAX_WORKERS
    ensures NoEnd(more) && IsRun(tr + more) && Started(tr + more) != Started(tr)
  {
    hide After, IsRun, Started;
    more := [];
    assert tr + more == tr;
    if After(tr).queue == [] {
      Snoc(tr, Submit);
      more := [Submit];
    }
    var c := After(tr + more).queue[0];
    Snoc(tr + more, Start(c));
    assert tr + (more + [Start(c)]) == tr + more + [Start(c)];
    more := more + [Start(c)];
    assert |Started(tr + more)| == |Started(tr)| + 1;
  }

  lemma {:induction false} FullStalls(tr: Trace, more: Trace)
    requires IsRun(tr + more) && NoEnd(more) && |After(tr).running| == MAX_WORKERS
    ensures Started(tr + more) == Started(tr) && After(tr + more).running == After(tr).running
  {
    if more == [] {
      assert tr + more == tr;
    } else {
      var n := |more| - 1;
      assert tr + more == (tr + more[..n]) + [more[n]];
      assert (tr + more)[..|tr + more| - 1] == tr + more[..n];
      FullStalls(tr, more[..n]);
    }
  }

  /** The call at the head of the queue starts, if need be after some function ended. */
  lemma {:induction false} HeadStarts(tr: Trace) returns (more: Trace)
    requires IsRun(tr) && After(tr).queue != []
    ensures IsRun(tr + more) && Started(tr + more) == Started(tr) + [After(tr).queue[0]]
    ensures After(tr + more).queue == After(tr).queue[1..]
    ensures forall i :: 0 <= i < |more| ==> more[i].Start? || more[i].End?
  {
    hide After, IsRun, Started;
    more := [];
    assert tr + more == tr;
    if |After(tr).running| >= MAX_WORKERS {
      more := SomeEnd(tr);
    }
    var h := After(tr).queue[0];
    Snoc(tr + more, Start(h));
    assert tr + (more + [Start(h)]) == tr + more + [Start(h)];
    more := more + [Start(h)];
  }

  lemma SomeEnd(tr: Trace) returns (more: Trace)
    requires IsRun(tr) && |After(tr).running| >= MAX_WORKERS
    ensures |more| == 1 && more[0].End? && IsRun(tr + more) && Started(tr + more) == Started(tr)
    ensures After(tr + more).queue == After(tr).queue && |After(tr + more).running| < MAX_WORKERS
  {
    assert |After(tr).running| <= MAX_WORKERS by { AlwaysInv(tr); }
    hide After, IsRun, Started;
    assert |After(tr).running| != 0;
    var d :| d in After(tr).running;
    Snoc(tr, End(d, Returned(0)));
    more := [End(d, Returned(0))];
  }

  /**
   Nobody is overtaken for ever: a queued call can still start, without anyone
   giving up, as soon as enough of the functions before it end.
   */
  lemma {:induction false} QueuedCanStart(tr: Trace, c: nat) returns (more: Trace)
    requires IsRun(tr) && c in After(tr).queue
    ensures IsRun(tr + more) && c in Started(tr + more)
    ensures forall i :: 0 <= i < |more| ==> more[i].Start? || more[i].End?
    decreases |After(tr).queue|
  {
    hide After, IsRun, Started;
    more := HeadStarts(tr);
    if c != After(tr).queue[0] {
      var rest := QueuedCanStart(tr + more, c);
      assert tr + (more + rest) == tr + more + rest;
      more := more + rest;
    }
  }
}
