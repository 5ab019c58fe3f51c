/**
 Retrying many tasks: the cap, the batched loop with its circuit breaker, and
 the accounting of the result.
 */
module BulkRetry {
  import opened Options
  import opened PySlices
  import opened Retry
  import opened Sets
  import Breaker
  import OffloadPool

  const HARD_CAP := 10_000
  const BATCH := 100

  // ---------------------------------------------------------------------
  // The cap
  // ---------------------------------------------------------------------

  function EffectiveCap(max: int): int { if max < HARD_CAP then max else HARD_CAP }

  /** `ids[:effective_cap]` when there are more of them than that. */
  function Effective(ids: seq<string>, max: int): seq<string> {
    if |ids| > EffectiveCap(max) then SliceTo(ids, EffectiveCap(max)) else ids
  }

  /** For a non-negative `max` the ids attempted come from a prefix within both caps. */
  lemma {:induction false} CapHolds(ids: seq<string>, max: int)
    requires max >= 0
    ensures Effective(ids, max) <= ids
    ensures |Effective(ids, max)| == if |ids| <= max && |ids| <= 10_000 then |ids|
                                      else if max <= 10_000 then max else 10_000
    ensures |Effective(ids, max)| <= max && |Effective(ids, max)| <= 10_000
    ensures |ids| > EffectiveCap(max) <==> Effective(ids, max) != ids
  {
  }

  /** A negative `max` cuts from the end instead. */
  lemma {:induction false} EffectiveIs(ids: seq<string>, max: int)
    ensures Effective(ids, max) <= ids
    ensures |Effective(ids, max)| ==
            if max < 0 then (if |ids| + max < 0 then 0 else |ids| + max)
            else if max < 10_000 then (if |ids| < max then |ids| else max)
            else if |ids| < 10_000 then |ids| else 10_000
  {
  }

  /** So the hard cap, documented to hold for every `max`, holds exactly under this condition ... */
  lemma HardCapHoldsIff(ids: seq<string>, max: int)
    ensures |Effective(ids, max)| <= 10_000 <==> max >= 0 || |ids| <= 10_000 - max
  {
  }

  /** ... and the requested cap exactly for a non-negative one. */
  lemma RequestedCapHoldsIff(ids: seq<string>, max: int)
    ensures |Effective(ids, max)| <= max <==> max >= 0
  {
  }

  // ---------------------------------------------------------------------
  // What the loop records
  // ---------------------------------------------------------------------

  function ClassOf(r: CommandResult): Breaker.Class {
    if r.details.Some? && r.details.value.indeterminate then Breaker.Timeout
    else if r.status == Success then Breaker.Success
    else Breaker.Neutral
  }

  function Classes(rs: seq<CommandResult>): seq<Breaker.Class> {
    seq(|rs|, i requires 0 <= i < |rs| => ClassOf(rs[i]))
  }

  /** The attempt goes into `new_task_ids`; otherwise it goes into `failures`. */
  predicate Good(r: CommandResult) {
    r.status == Success && r.details.Some? && r.details.value.newTaskId.Some?
  }

  function Message(r: CommandResult): string
  {
    if r.status == Success && r.details.Some? then "missing new_task_id"
    else if r.error.Some? && r.error.value != "" then r.error.value
    else "unknown error"
  }

  /** Attempt `i` is the last one of its id with its kind of outcome. */
  ghost predicate LastOfKind(ids: seq<string>, rs: seq<CommandResult>, i: nat)
    requires |ids| == |rs| && i < |ids|
  {
    forall j :: i < j < |ids| ==> ids[j] != ids[i] || Good(rs[j]) != Good(rs[i])
  }

  ghost predicate SomeAttempt(ids: seq<string>, rs: seq<CommandResult>, t: string, good: bool)
    requires |ids| == |rs|
  {
    exists i :: 0 <= i < |ids| && ids[i] == t && Good(rs[i]) == good
  }

  /** The two maps say, for each id, how its last success and its last failure went. */
  ghost predicate Recorded(ids: seq<string>, rs: seq<CommandResult>,
                           newTaskIds: map<string, string>, failures: map<string, string>)
    requires |ids| == |rs|
  {
    && (forall t :: t in newTaskIds <==> SomeAttempt(ids, rs, t, true))
    && (forall t :: t in failures <==> SomeAttempt(ids, rs, t, false))
    && (forall i {:trigger LastOfKind(ids, rs, i)} :: 0 <= i < |ids| && LastOfKind(ids, rs, i) ==>
          if Good(rs[i]) then ids[i] in newTaskIds && newTaskIds[ids[i]] == rs[i].details.value.newTaskId.value
          else ids[i] in failures && failures[ids[i]] == Message(rs[i]))
  }

  lemma RecordNext(ids: seq<string>, rs: seq<CommandResult>,
                   newTaskIds: map<string, string>, failures: map<string, string>,
                   t: string, r: CommandResult)
    requires |ids| == |rs| && Recorded(ids, rs, newTaskIds, failures)
    ensures Recorded(ids + [t], rs + [r],
                     if Good(r) then newTaskIds[t := r.details.value.newTaskId.value] else newTaskIds,
                     if Good(r) then failures else failures[t := Message(r)])
  {
    var ids', rs' := ids + [t], rs + [r];
    var n' := if Good(r) then newTaskIds[t := r.details.value.newTaskId.value] else newTaskIds;
    var f' := if Good(r) then failures else failures[t := Message(r)];
    forall u, good
      ensures SomeAttempt(ids', rs', u, good) <==>
              SomeAttempt(ids, rs, u, good) || (u == t && good == Good(r))
    {
      SomeNext(ids, rs, t, r, u, good);
    }
    forall i | 0 <= i < |ids'| && LastOfKind(ids', rs', i)
      ensures if Good(rs'[i]) then ids'[i] in n' && n'[ids'[i]] == rs'[i].details.value.newTaskId.value
              else ids'[i] in f' && f'[ids'[i]] == Message(rs'[i])
    {
      if i < |ids| {
        assert ids'[|ids|] == t && rs'[|ids|] == r;
        forall j | i < j < |ids| ensures ids[j] != ids[i] || Good(rs[j]) != Good(rs[i]) {
          assert ids'[j] == ids[j] && rs'[j] == rs[j];
        }
        assert LastOfKind(ids, rs, i);
      }
    }
  }

  lemma SomeNext(ids: seq<string>, rs: seq<CommandResult>, t: string, r: CommandResult, u: string, good: bool)
    requires |ids| == |rs|
    ensures SomeAttempt(ids + [t], rs + [r], u, good) <==>
            SomeAttempt(ids, rs, u, good) || (u == t && good == Good(r))
  {
    var ids', rs' := ids + [t], rs + [r];
    if SomeAttempt(ids, rs, u, good) {
      var i :| 0 <= i < |ids| && ids[i] == u && Good(rs[i]) == good;
      assert ids'[i] == u && Good(rs'[i]) == good;
    }
    if u == t && good == Good(r) {
      assert ids'[|ids|] == u && Good(rs'[|ids|]) == good;
    }
  }

  // ---------------------------------------------------------------------
  // The run
  // ---------------------------------------------------------------------

  /** What the brain sent along, and everything outside that the attempts depend on. */
  datatype Command = Command(
    ids: seq<string>,
    max: int,
    names: map<string, PyVal>,
    priorities: map<string, RawPriority>,
    worlds: nat -> World)

  function Asked(c: Command, t: string): Request {
    Request(t,
            if t in c.names && c.names[t].Str? then Some(c.names[t].s) else None,
            None, None,
            if t in c.priorities then c.priorities[t] else NoPriority)
  }

  /** The outcome of attempt `i`, should it be made. */
  function Outcome(c: Command, i: nat): CommandResult
    requires i < |Effective(c.ids, c.max)|
  {
    ActionResult(Asked(c, Effective(c.ids, c.max)[i]), NoEta, c.worlds(i))
  }

  function Outcomes(c: Command): seq<CommandResult> {
    seq(|Effective(c.ids, c.max)|, i requires 0 <= i < |Effective(c.ids, c.max)| => Outcome(c, i))
  }

  /** The `send_task` calls of the first `n` attempts. */
  function AllSends(c: Command, n: nat): seq<Send>
    requires n <= |Effective(c.ids, c.max)|
  {
    if n == 0 then []
    else AllSends(c, n - 1) + ActionSends(Asked(c, Effective(c.ids, c.max)[n - 1]), NoEta, c.worlds(n - 1))
  }

  lemma SendsNext(c: Command, n: nat)
    requires n < |Effective(c.ids, c.max)|
    ensures AllSends(c, n + 1) ==
            AllSends(c, n) + ActionSends(Asked(c, Effective(c.ids, c.max)[n]), NoEta, c.worlds(n))
  {
  }

  lemma NoSendsYet(c: Command)
    ensures AllSends(c, 0) == []
  {
  }

  datatype BulkResult =
    | NoIds
    | Summary(requested: nat, succeeded: nat, failed: nat, skipped: int, circuitBroken: bool, capped: bool,
              newTaskIds: map<string, string>, failures: map<string, string>)

  /**
   The flat specification, for `ids` and the outcome each would have.  It says
   nothing of batches: attempt the ids in order, up to and including the one
   that trips the breaker.
   */
  ghost predicate FlatOver(ids: seq<string>, rs: seq<CommandResult>, r: BulkResult, attempted: nat)
    requires |ids| == |rs|
  {
    && Breaker.StopsAfter(Classes(rs), attempted)
    && r.Summary? && r.requested == |ids| && r.skipped == |ids| - attempted
    && (r.circuitBroken <==> Breaker.Tripped(Classes(rs)[..attempted]))
    && Recorded(ids[..attempted], rs[..attempted], r.newTaskIds, r.failures)
    && r.succeeded == |r.newTaskIds| && r.failed == |r.failures|
  }

  ghost predicate Flat(c: Command, r: BulkResult, attempted: nat) {
    if c.ids == [] then r.NoIds? && attempted == 0
    else
      && FlatOver(Effective(c.ids, c.max), Outcomes(c), r, attempted)
      && (r.capped <==> |c.ids| > EffectiveCap(c.max))
  }

  /** The state of the loop after `n` attempts. */
  ghost predicate LoopInv(c: Command, n: nat, pending: nat, broken: bool,
                          newTaskIds: map<string, string>, failures: map<string, string>)
  {
    var ids, rs := Effective(c.ids, c.max), Outcomes(c);
    && n <= |ids|
    && pending == Breaker.Pending(Classes(rs)[..n])
    && (broken <==> pending >= Breaker.BREAK_AFTER)
    && (forall m :: 0 <= m < n ==> !Breaker.Tripped(Classes(rs)[..m]))
    && Recorded(ids[..n], rs[..n], newTaskIds, failures)
  }

  lemma {:induction false} LoopStep(c: Command, n: nat, pending: nat,
                                    newTaskIds: map<string, string>, failures: map<string, string>)
    requires LoopInv(c, n, pending, false, newTaskIds, failures)
    requires n < |Effective(c.ids, c.max)|
    ensures var t, r := Effective(c.ids, c.max)[n], Outcome(c, n);
            var pending' := match ClassOf(r)
                            case Timeout => pending + 1
                            case Success => 0
                            case Neutral => pending;
            LoopInv(c, n + 1, pending', pending' >= Breaker.BREAK_AFTER,
                    if Good(r) then newTaskIds[t := r.details.value.newTaskId.value] else newTaskIds,
                    if Good(r) then failures else failures[t := Message(r)])
  {
    var ids, rs := Effective(c.ids, c.max), Outcomes(c);
    var cs := Classes(rs);
    assert cs[..n + 1][..n] == cs[..n];
    Breaker.CounterIsBreaker(cs[..n]);
    assert ids[..n + 1] == ids[..n] + [ids[n]];
    assert rs[..n + 1] == rs[..n] + [rs[n]];
    RecordNext(ids[..n], rs[..n], newTaskIds, failures, ids[n], rs[n]);
  }

  lemma {:induction false} LoopEnds(c: Command, n: nat, pending: nat, broken: bool,
                 newTaskIds: map<string, string>, failures: map<string, string>)
    requires LoopInv(c, n, pending, broken, newTaskIds, failures) && c.ids != []
    requires broken || n == |Effective(c.ids, c.max)|
    ensures n <= |Effective(c.ids, c.max)|
    ensures Flat(c, Summary(|Effective(c.ids, c.max)|, |newTaskIds|, |failures|,
                            |Effective(c.ids, c.max)| - n, broken, |c.ids| > EffectiveCap(c.max),
                            newTaskIds, failures), n)
  {
    Breaker.CounterIsBreaker(Classes(Outcomes(c))[..n]);
  }

  lemma LoopStarts(c: Command)
    ensures LoopInv(c, 0, 0, false, map[], map[])
  {
    var ids, rs := Effective(c.ids, c.max), Outcomes(c);
    assert Classes(rs)[..0] == [] && ids[..0] == [] && rs[..0] == [];
  }

  /** The nested, batched loop meets the flat specification, for any batch size. */
  method BulkRetryAction(app: CeleryApp, c: Command, batch: nat := BATCH) returns (r: BulkResult, ghost attempted: nat)
    requires batch > 0
    modifies app
    ensures Flat(c, r, attempted)
    ensures attempted <= |Effective(c.ids, c.max)| && app.sent == old(app.sent) + AllSends(c, attempted)
  {
    hide LoopInv, Flat, AllSends, Effective, ActionSends, ActionResult;
    if c.ids == [] {
      NoIdsIsFlat(c);
      NoSendsYet(c);
      return NoIds, 0;
    }
    var ids := Effective(c.ids, c.max);
    var newTaskIds: map<string, string> := map[];
    var failures: map<string, string> := map[];
    var consecutiveTimeouts: nat := 0;
    var brokerUnhealthy := false;
    var processed := 0;
    LoopStarts(c);
    NoSendsYet(c);
    var batchStart := 0;
    while batchStart < |ids| && !brokerUnhealthy
      invariant LoopInv(c, processed, consecutiveTimeouts, brokerUnhealthy, newTaskIds, failures)
      invariant processed <= |ids|
      invariant !brokerUnhealthy ==> processed == if batchStart < |ids| then batchStart else |ids|
      invariant app.sent == old(app.sent) + AllSends(c, processed)
    {
      var end := if batchStart + batch < |ids| then batchStart + batch else |ids|;
      while processed < end && !brokerUnhealthy
        invariant LoopInv(c, processed, consecutiveTimeouts, brokerUnhealthy, newTaskIds, failures)
        invariant processed <= end
        invariant app.sent == old(app.sent) + AllSends(c, processed)
        decreases end - processed, !brokerUnhealthy
      {
        LoopStep(c, processed, consecutiveTimeouts, newTaskIds, failures);
        SendsNext(c, processed);
        var t := ids[processed];
        var single := app.RetryTaskAction(Asked(c, t), NoEta, c.worlds(processed));
        processed := processed + 1;
        if single.details.Some? && single.details.value.indeterminate {
          consecutiveTimeouts := consecutiveTimeouts + 1;
        } else if single.status == Success {
          consecutiveTimeouts := 0;
        }
        if single.status == Success && single.details.Some? {
          if single.details.value.newTaskId.Some? {
            newTaskIds := newTaskIds[t := single.details.value.newTaskId.value];
          } else {
            failures := failures[t := "missing new_task_id"];
          }
        } else {
          failures := failures[t := Message(single)];
        }
        if consecutiveTimeouts >= Breaker.BREAK_AFTER {
          brokerUnhealthy := true;
        }
      }
      batchStart := batchStart + batch;
    }
    attempted := processed;
    LoopEnds(c, attempted, consecutiveTimeouts, brokerUnhealthy, newTaskIds, failures);
    r := Summary(|ids|, |newTaskIds|, |failures|, |ids| - processed, brokerUnhealthy,
                 |c.ids| > EffectiveCap(c.max), newTaskIds, failures);
  }

  /** `capped` says that there were more ids than asked for, or than the hard cap. */
  lemma {:induction false} CappedIff(c: Command, r: BulkResult, n: nat)
    ensures Flat(c, r, n) && c.ids != [] ==> (r.capped <==> |c.ids| > c.max || |c.ids| > 10_000)
  {
  }

  /** A run without a timeout attempts everything. */
  lemma {:induction false} NoTimeoutAttemptsAll(ids: seq<string>, rs: seq<CommandResult>, r: BulkResult, n: nat)
    requires |ids| == |rs| && FlatOver(ids, rs, r, n) && Breaker.Timeout !in Classes(rs)
    ensures n == |ids| == r.requested && r.skipped == 0 && !r.circuitBroken
  {
    hide Recorded, Breaker.Tripped;
    Breaker.NoTimeoutNoTrip(Classes(rs)[..n]);
  }

  /** A bulk retry whose backend never answers: each attempt is a definite failure. */
  function Unanswered(ids: seq<string>, max: int): Command {
    Command(ids, max, map[], map[], _ => World(false, Raises(false), Sent(None), InTime))
  }

  lemma UnansweredIsNoTimeout(ids: seq<string>, max: int)
    ensures Breaker.Timeout !in Classes(Outcomes(Unanswered(ids, max)))
  {
    hide Effective;
    var c := Unanswered(ids, max);
    forall i | 0 <= i < |Outcomes(c)| ensures Classes(Outcomes(c))[i] != Breaker.Timeout {
      assert c.worlds(i) == World(false, Raises(false), Sent(None), InTime);
    }
  }

  /** The documented clamp fails: with `max = -1` and 10002 ids this run attempts 10001 of them. */
  lemma {:induction false} HardCapCanBeExceeded(ids: seq<string>, r: BulkResult, n: nat)
    requires |ids| == 10_002
    ensures |Effective(ids, -1)| == 10_001
    ensures Flat(Unanswered(ids, -1), r, n) ==> n == r.requested == 10_001 && r.skipped == 0 && !r.circuitBroken
  {
    if Flat(Unanswered(ids, -1), r, n) {
      hide FlatOver, Outcomes, Classes;
      var c := Unanswered(ids, -1);
      UnansweredIsNoTimeout(ids, -1);
      NoTimeoutAttemptsAll(Effective(ids, -1), Outcomes(c), r, n);
    }
  }

  lemma NoIdsIsFlat(c: Command)
    requires c.ids == []
    ensures Flat(c, NoIds, 0)
  {
  }

  /** The specification leaves nothing open. */
  lemma {:induction false} FlatOverIsUnique(ids: seq<string>, rs: seq<CommandResult>,
                                            r: BulkResult, n: nat, q: BulkResult, m: nat)
    requires |ids| == |rs| && FlatOver(ids, rs, r, n) && FlatOver(ids, rs, q, m)
    ensures n == m && r == q.(capped := r.capped)
  {
    Breaker.StopsAfterUnique(Classes(rs), n, m);
    RecordedUnique(ids[..n], rs[..n], r.newTaskIds, r.failures, q.newTaskIds, q.failures);
  }

  lemma {:induction false} FlatIsUnique(c: Command, r: BulkResult, n: nat, q: BulkResult, m: nat)
    ensures Flat(c, r, n) && Flat(c, q, m) ==> r == q && n == m
  {
    if c.ids != [] && Flat(c, r, n) && Flat(c, q, m) {
      FlatOverIsUnique(Effective(c.ids, c.max), Outcomes(c), r, n, q, m);
    }
  }

  lemma {:induction false} LastExists(ids: seq<string>, rs: seq<CommandResult>, i: nat) returns (k: nat)
    requires |ids| == |rs| && i < |ids|
    ensures i <= k < |ids| && ids[k] == ids[i] && Good(rs[k]) == Good(rs[i]) && LastOfKind(ids, rs, k)
    decreases |ids| - i
  {
    if LastOfKind(ids, rs, i) {
      k := i;
    } else {
      var j :| i < j < |ids| && ids[j] == ids[i] && Good(rs[j]) == Good(rs[i]);
      k := LastExists(ids, rs, j);
    }
  }

  lemma {:induction false} RecordedUnique(ids: seq<string>, rs: seq<CommandResult>,
                       n1: map<string, string>, f1: map<string, string>,
                       n2: map<string, string>, f2: map<string, string>)
    requires |ids| == |rs| && Recorded(ids, rs, n1, f1) && Recorded(ids, rs, n2, f2)
    ensures n1 == n2 && f1 == f2
  {
    forall t | t in n1 ensures t in n2 && n1[t] == n2[t] {
      var i :| 0 <= i < |ids| && ids[i] == t && Good(rs[i]) == true;
      var k := LastExists(ids, rs, i);
    }
    forall t | t in f1 ensures t in f2 && f1[t] == f2[t] {
      var i :| 0 <= i < |ids| && ids[i] == t && Good(rs[i]) == false;
      var k := LastExists(ids, rs, i);
    }
    assert n1.Keys == n2.Keys && f1.Keys == f2.Keys;
  }

  // ---------------------------------------------------------------------
  // The result in terms of the attempts' own results
  // ---------------------------------------------------------------------

  /** The outcome of the attempt is unknown: the one signal of a hung broker. */
  predicate OutcomeUnknown(r: CommandResult) {
    r.details.Some? && r.details.value.indeterminate
  }

  /** Attempts `i`, `j` and `k` of the first `n` had unknown outcomes, and none since `i` succeeded. */
  ghost predicate HungSince(rs: seq<CommandResult>, n: nat, i: nat, j: nat, k: nat) {
    && i < j < k < n <= |rs|
    && OutcomeUnknown(rs[i]) && OutcomeUnknown(rs[j]) && OutcomeUnknown(rs[k])
    && forall m :: i < m < n ==> rs[m].status != Success || OutcomeUnknown(rs[m])
  }

  ghost predicate Hung(rs: seq<CommandResult>, n: nat) {
    exists i, j, k :: HungSince(rs, n, i, j, k)
  }

  /**
   The breaker opens exactly after the first attempt that makes it three unknown
   outcomes without a success in between, definite failures being neutral, and
   nothing is attempted after that; if it never does, everything is attempted.
   */
  lemma {:induction false} BreaksOnResults(ids: seq<string>, rs: seq<CommandResult>, r: BulkResult, n: nat)
    requires |ids| == |rs| && FlatOver(ids, rs, r, n)
    ensures n <= |rs| && (r.circuitBroken <==> Hung(rs, n))
    ensures forall m :: 0 <= m < n ==> !Hung(rs, m)
    ensures n < |rs| ==> Hung(rs, n)
  {
    hide Recorded;
    forall m | 0 <= m <= n ensures Breaker.Tripped(Classes(rs)[..m]) <==> Hung(rs, m) {
      HungIff(rs, m);
    }
  }

  lemma {:induction false} HungIff(rs: seq<CommandResult>, n: nat)
    requires n <= |rs|
    ensures Breaker.Tripped(Classes(rs)[..n]) <==> Hung(rs, n)
  {
    var cs := Classes(rs)[..n];
    forall m | 0 <= m < n
      ensures cs[m] == Breaker.Timeout <==> OutcomeUnknown(rs[m])
      ensures cs[m] == Breaker.Success <==> rs[m].status == Success && !OutcomeUnknown(rs[m])
    {
    }
    hide Classes, OutcomeUnknown;
    if Breaker.Tripped(cs) {
      var i, j, k :| Breaker.TrippedBy(cs, i, j, k);
      assert HungSince(rs, n, i, j, k);
    }
    if Hung(rs, n) {
      var i, j, k :| HungSince(rs, n, i, j, k);
      assert Breaker.TrippedBy(cs, i, j, k);
    }
  }

  /** The attempt was accepted under this new id. */
  predicate AcceptedAs(r: CommandResult, id: string) {
    r.status == Success && r.details.Some? && r.details.value.newTaskId == Some(id)
  }

  /** The attempt counts as a failure, under this text. */
  predicate FailedAs(r: CommandResult, text: string) {
    if r.status == Success && r.details.Some?
    then r.details.value.newTaskId == None && text == "missing new_task_id"
    else text == match r.error case Some(e) => (if e != "" then e else "unknown error") case None => "unknown error"
  }

  /**
   What the two maps say, attempt by attempt: each accepted one is in the one and
   each other one in the other, under what the last such attempt of its id said.
   */
  lemma {:induction false} MapsSay(ids: seq<string>, rs: seq<CommandResult>, r: BulkResult, n: nat, i: nat)
      returns (k: nat)
    requires |ids| == |rs| && FlatOver(ids, rs, r, n) && i < n
    ensures i <= k < n && ids[k] == ids[i]
    ensures (exists id :: AcceptedAs(rs[i], id)) ==>
              && ids[i] in r.newTaskIds && AcceptedAs(rs[k], r.newTaskIds[ids[i]])
              && forall j, id :: k < j < n && ids[j] == ids[i] ==> !AcceptedAs(rs[j], id)
    ensures !(exists id :: AcceptedAs(rs[i], id)) ==>
              && ids[i] in r.failures && FailedAs(rs[k], r.failures[ids[i]])
              && forall j, text :: k < j < n && ids[j] == ids[i] ==> !FailedAs(rs[j], text)
  {
    k := LastExists(ids[..n], rs[..n], i);
    assert AcceptedAs(rs[i], "") || Good(rs[i]) ==> exists id :: AcceptedAs(rs[i], id) by {
      if Good(rs[i]) {
        assert AcceptedAs(rs[i], rs[i].details.value.newTaskId.value);
      }
    }
    forall j | k < j < n && ids[j] == ids[i] ensures Good(rs[j]) != Good(rs[i]) {
      assert ids[..n][j] == ids[j] && rs[..n][j] == rs[j];
    }
  }

  /** Nothing else is in the maps. */
  lemma {:induction false} MapsSayNoMore(ids: seq<string>, rs: seq<CommandResult>, r: BulkResult, n: nat, t: string)
    requires |ids| == |rs| && FlatOver(ids, rs, r, n)
    ensures n <= |ids|
    ensures t in r.newTaskIds ==> exists i, id :: 0 <= i < n && ids[i] == t && AcceptedAs(rs[i], id)
    ensures t in r.failures ==> exists i, text :: 0 <= i < n && ids[i] == t && FailedAs(rs[i], text)
  {
    if t in r.newTaskIds {
      var i :| 0 <= i < n && ids[..n][i] == t && Good(rs[..n][i]) == true;
      assert AcceptedAs(rs[i], rs[i].details.value.newTaskId.value);
    }
    if t in r.failures {
      var i :| 0 <= i < n && ids[..n][i] == t && Good(rs[..n][i]) == false;
      assert FailedAs(rs[i], Message(rs[i]));
    }
  }

  // ---------------------------------------------------------------------
  // Accounting
  // ---------------------------------------------------------------------

  ghost predicate Repeats(ids: seq<string>, rs: seq<CommandResult>, j: nat)
    requires |ids| == |rs| && j < |ids|
  {
    exists i :: 0 <= i < j && ids[i] == ids[j] && Good(rs[i]) == Good(rs[j])
  }

  /** How many attempts repeated an id with the same kind of outcome. */
  ghost function RepeatCount(ids: seq<string>, rs: seq<CommandResult>): nat
    requires |ids| == |rs|
  {
    if ids == [] then 0
    else
      var n := |ids| - 1;
      RepeatCount(ids[..n], rs[..n]) + if Repeats(ids, rs, n) then 1 else 0
  }

  ghost function Tids(ids: seq<string>, rs: seq<CommandResult>, good: bool): set<string>
    requires |ids| == |rs|
  {
    set i | 0 <= i < |ids| && Good(rs[i]) == good :: ids[i]
  }

  lemma {:induction false} Accounted(ids: seq<string>, rs: seq<CommandResult>)
    requires |ids| == |rs|
    ensures |Tids(ids, rs, true)| + |Tids(ids, rs, false)| + RepeatCount(ids, rs) == |ids|
  {
    if ids == [] {
    } else {
      var n := |ids| - 1;
      Accounted(ids[..n], rs[..n]);
      TidsNext(ids, rs, true);
      TidsNext(ids, rs, false);
      RepeatsIff(ids, rs, n);
    }
  }

  lemma {:induction false} RepeatsIff(ids: seq<string>, rs: seq<CommandResult>, n: nat)
    requires |ids| == |rs| && n < |ids|
    ensures Repeats(ids, rs, n) <==> ids[n] in Tids(ids[..n], rs[..n], Good(rs[n]))
  {
    assert forall i :: 0 <= i < n ==> ids[..n][i] == ids[i] && rs[..n][i] == rs[i];
  }

  lemma {:induction false} TidsNext(ids: seq<string>, rs: seq<CommandResult>, good: bool)
    requires |ids| == |rs| && ids != []
    ensures var n := |ids| - 1;
            Tids(ids, rs, good) ==
            Tids(ids[..n], rs[..n], good) + if Good(rs[n]) == good then {ids[n]} else {}
  {
    var n := |ids| - 1;
    assert forall i :: 0 <= i < n ==> ids[..n][i] == ids[i] && rs[..n][i] == rs[i];
  }

  /**
   The summary adds up: what is missing from succeeded + failed + skipped are
   exactly the attempts that repeated an id with the same kind of outcome, so
   nothing is missing when the ids are distinct.
   */
  lemma {:induction false} SummaryAddsUp(ids: seq<string>, rs: seq<CommandResult>, r: BulkResult, n: nat)
    requires |ids| == |rs| && FlatOver(ids, rs, r, n)
    ensures n <= |ids|
    ensures r.succeeded + r.failed + r.skipped + RepeatCount(ids[..n], rs[..n]) == r.requested
    ensures (forall i, j :: 0 <= i < j < n ==> ids[i] != ids[j]) ==>
              r.succeeded + r.failed + r.skipped == r.requested
  {
    Accounted(ids[..n], rs[..n]);
    RecordedKeys(ids[..n], rs[..n], r.newTaskIds, r.failures);
    if forall i, j :: 0 <= i < j < n ==> ids[i] != ids[j] {
      NoRepeats(ids[..n], rs[..n]);
    }
  }

  lemma RecordedKeys(ids: seq<string>, rs: seq<CommandResult>, n: map<string, string>, f: map<string, string>)
    requires |ids| == |rs| && Recorded(ids, rs, n, f)
    ensures |n| == |Tids(ids, rs, true)| && |f| == |Tids(ids, rs, false)|
  {
    assert n.Keys == Tids(ids, rs, true);
    assert f.Keys == Tids(ids, rs, false);
    assert |n| == |n.Keys| && |f| == |f.Keys|;
  }

  lemma {:induction false} NoRepeats(ids: seq<string>, rs: seq<CommandResult>)
    requires |ids| == |rs| && forall i, j :: 0 <= i < j < |ids| ==> ids[i] != ids[j]
    ensures RepeatCount(ids, rs) == 0
  {
    if ids == [] {
    } else {
      NoRepeats(ids[..|ids| - 1], rs[..|ids| - 1]);
    }
  }

  /** The retry of `t`: under the name and priority that the command has for it, with no overrides. */
  ghost predicate AskedFor(c: Command, t: string, q: Request) {
    && q.taskId == t && q.overrideArgs == None && q.overrideKwargs == None
    && (forall n :: q.taskName == Some(n) <==> t in c.names && c.names[t] == Str(n))
    && q.priority == if t in c.priorities then c.priorities[t] else NoPriority
  }

  /** The call is authorised by attempt `i`. */
  ghost predicate BulkAuthorised(s: Send, c: Command, i: nat)
    requires i < |Effective(c.ids, c.max)|
  {
    exists q ::
      && AskedFor(c, Effective(c.ids, c.max)[i], q)
      && Authorised(s, q, NoEta, c.worlds(i).redis, c.worlds(i).backend)
  }

  /** Bulk publishing fails closed too: one authorised call per attempt at the most. */
  lemma {:induction false} BulkFailsClosed(c: Command, n: nat)
    requires n <= |Effective(c.ids, c.max)|
    ensures |AllSends(c, n)| <= n
    ensures forall s :: s in AllSends(c, n) ==> exists i :: 0 <= i < n && BulkAuthorised(s, c, i)
  {
    if n > 0 {
      var t, w := Effective(c.ids, c.max)[n - 1], c.worlds(n - 1);
      var q := Asked(c, t);
      BulkFailsClosed(c, n - 1);
      FailClosed(q, NoEta, w);
      assert AskedFor(c, t, q);
      hide Effective, Authorised, AskedFor, ActionSends;
      assert forall s :: s in ActionSends(q, NoEta, w) ==> BulkAuthorised(s, c, n - 1);
    }
  }

  // ---------------------------------------------------------------------
  // The workers a bulk run can park
  // ---------------------------------------------------------------------

  /**
   The calls `calls`, among whatever others a run of the pool served before,
   between and beside them, are the attempts of a bulk run, with the outcomes
   it saw.
   */
  ghost predicate Offloaded(s: OffloadPool.State, calls: seq<nat>, cs: seq<Breaker.Class>) {
    && |calls| == |cs|
    && forall i :: 0 <= i < |cs| ==>
         calls[i] in s.reports && (s.reports[calls[i]].Indeterminate? <==> cs[i] == Breaker.Timeout)
  }

  /** The workers held by calls of the bulk run that it no longer waits for. */
  ghost function ParkedBy(s: OffloadPool.State, calls: seq<nat>): set<nat> {
    set c | c in OffloadPool.Abandoned(s) && c in calls
  }

  ghost function TimeoutsAt(cs: seq<Breaker.Class>): set<nat> {
    set i: nat | i < |cs| && cs[i] == Breaker.Timeout
  }

  lemma {:induction false} TimeoutsCounted(cs: seq<Breaker.Class>)
    ensures |TimeoutsAt(cs)| == Breaker.Count(cs, Breaker.Timeout)
  {
    if cs == [] {
    } else {
      var n := |cs| - 1;
      TimeoutsCounted(cs[..n]);
      assert TimeoutsAt(cs) == TimeoutsAt(cs[..n]) + if cs[n] == Breaker.Timeout then {n} else {};
    }
  }

  /**
   At any moment of a bulk run, after `m` of its attempts, and whatever else
   the pool is used for, the calls of the bulk run park at most three workers
   beyond two per success: without a success, three of the eight.
   */
  lemma {:induction false} ParkedWorkers(tr: OffloadPool.Trace, calls: seq<nat>, cs: seq<Breaker.Class>, n: nat, m: nat)
    requires OffloadPool.IsRun(tr) && Breaker.StopsAfter(cs, n) && m <= n
    requires Offloaded(OffloadPool.After(tr), calls, cs[..m])
    ensures var parked := ParkedBy(OffloadPool.After(tr), calls);
            && |parked| <= 2 * Breaker.Count(cs[..m], Breaker.Success) + 3
            && (Breaker.Count(cs[..m], Breaker.Success) == 0 ==> |parked| <= 3 < OffloadPool.MAX_WORKERS == 8)
  {
    OffloadPool.AlwaysInv(tr);
    var s := OffloadPool.After(tr);
    OffloadPool.AbandonedUnknown(s, OffloadPool.Started(tr), OffloadPool.Told(tr));
    hide OffloadPool.After, OffloadPool.IsRun, OffloadPool.Inv;
    Breaker.TimeoutBoundWithin(cs, n, m);
    TimeoutsCounted(cs[..m]);
    var slow := set i | i in TimeoutsAt(cs[..m]) :: calls[i];
    CallsSize(TimeoutsAt(cs[..m]), calls);
    SubsetSize(ParkedBy(s, calls), slow);
  }

  lemma {:induction false} CallsSize(at: set<nat>, calls: seq<nat>)
    requires forall i :: i in at ==> i < |calls|
    ensures |set i | i in at :: calls[i]| <= |at|
  {
    var image := set i | i in at :: calls[i];
    if at != {} {
      var i :| i in at;
      CallsSize(at - {i}, calls);
      var rest := set j | j in at - {i} :: calls[j];
      assert image == rest + {calls[i]};
      SubsetSize(image, rest + {calls[i]});
    }
  }
}
