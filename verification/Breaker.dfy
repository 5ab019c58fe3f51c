/**
 The circuit breaker of a bulk retry, stated on the sequence of outcomes: three
 unknown outcomes with no success in between trip it; definite failures are
 neutral.
 */
module Breaker {

  datatype Class = Timeout | Success | Neutral

  const BREAK_AFTER := 3

  /** Three timeouts since the last success. */
  ghost predicate Tripped(s: seq<Class>) {
    exists i, j, k :: TrippedBy(s, i, j, k)
  }

  ghost predicate TrippedBy(s: seq<Class>, i: nat, j: nat, k: nat) {
    && i < j < k < |s| && s[i] == s[j] == s[k] == Timeout
    && forall m :: i < m < |s| ==> s[m] != Success
  }

  /** The shortest prefix that trips the breaker, or everything. */
  ghost predicate StopsAfter(s: seq<Class>, n: nat) {
    && n <= |s|
    && (forall m :: 0 <= m < n ==> !Tripped(s[..m]))
    && (n < |s| ==> Tripped(s[..n]))
  }

  lemma {:induction false} StopsAfterUnique(s: seq<Class>, n: nat, m: nat)
    requires StopsAfter(s, n) && StopsAfter(s, m)
    ensures n == m
  {
  }

  lemma NoTimeoutNoTrip(s: seq<Class>)
    requires Timeout !in s
    ensures !Tripped(s)
  {
  }

  /** The loop's counter. */
  function Pending(s: seq<Class>): nat {
    if s == [] then 0
    else
      match s[|s| - 1]
      case Timeout => Pending(s[..|s| - 1]) + 1
      case Success => 0
      case Neutral => Pending(s[..|s| - 1])
  }

  /** The positions of `c` timeouts, in order, with no success after the first. */
  ghost predicate Since(s: seq<Class>, at: seq<nat>) {
    && (forall a, b :: 0 <= a < b < |at| ==> at[a] < at[b])
    && (forall a :: 0 <= a < |at| ==> at[a] < |s| && s[at[a]] == Timeout)
    && (at != [] ==> forall m :: at[0] < m < |s| ==> s[m] != Success)
  }

  lemma {:induction false} PendingWitness(s: seq<Class>, c: nat) returns (at: seq<nat>)
    requires Pending(s) >= c
    ensures |at| == c && Since(s, at)
  {
    if c == 0 {
      at := [];
    } else {
      var t := s[..|s| - 1];
      if s[|s| - 1] == Timeout {
        at := PendingWitness(t, c - 1);
        at := at + [|s| - 1];
      } else {
        at := PendingWitness(t, c);
      }
      assert forall m :: 0 <= m < |t| ==> t[m] == s[m];
    }
  }

  lemma {:induction false} PendingAtLeast(s: seq<Class>, at: seq<nat>)
    requires Since(s, at)
    ensures Pending(s) >= |at|
  {
    if at != [] {
      assert at[0] < |s|;
      var t := s[..|s| - 1];
      assert forall m :: 0 <= m < |t| ==> t[m] == s[m];
      if at[|at| - 1] == |s| - 1 {
        PendingAtLeast(t, at[..|at| - 1]);
      } else {
        assert at[0] < |s| - 1;
        PendingAtLeast(t, at);
      }
    }
  }

  /** The counter reaches three exactly when the breaker should trip. */
  lemma {:induction false} CounterIsBreaker(s: seq<Class>)
    ensures Pending(s) >= BREAK_AFTER <==> Tripped(s)
  {
    if Pending(s) >= BREAK_AFTER {
      var at := PendingWitness(s, BREAK_AFTER);
      assert TrippedBy(s, at[0], at[1], at[2]);
    }
    if Tripped(s) {
      var i, j, k :| TrippedBy(s, i, j, k);
      PendingAtLeast(s, [i, j, k]);
    }
  }

  function Count(s: seq<Class>, c: Class): nat {
    if s == [] then 0 else Count(s[..|s| - 1], c) + if s[|s| - 1] == c then 1 else 0
  }

  lemma {:induction false} CountAgainstPending(s: seq<Class>)
    requires forall m :: 0 <= m < |s| ==> !Tripped(s[..m])
    ensures Count(s, Timeout) <= 2 * Count(s, Success) + Pending(s) <= 2 * Count(s, Success) + BREAK_AFTER
  {
    if s == [] {
    } else {
      var t := s[..|s| - 1];
      assert forall m :: 0 <= m < |t| ==> t[..m] == s[..m];
      CountAgainstPending(t);
      CounterIsBreaker(t);
    }
  }

  /**
   However timeouts, failures and successes alternate, a bulk run sees at most
   two timeouts per success and three more, or two more if it was not broken off.
   */
  lemma {:induction false} TimeoutBound(s: seq<Class>, n: nat)
    requires StopsAfter(s, n)
    ensures Count(s[..n], Timeout) <= 2 * Count(s[..n], Success) + 3
    ensures !Tripped(s[..n]) ==> Count(s[..n], Timeout) <= 2 * Count(s[..n], Success) + 2
  {
    assert forall m :: 0 <= m < n ==> s[..n][..m] == s[..m];
    CountAgainstPending(s[..n]);
    CounterIsBreaker(s[..n]);
  }

  /** The same at every moment of the run. */
  lemma {:induction false} TimeoutBoundWithin(s: seq<Class>, n: nat, m: nat)
    requires StopsAfter(s, n) && m <= n
    ensures Count(s[..m], Timeout) <= 2 * Count(s[..m], Success) + 3
    ensures m < n ==> Count(s[..m], Timeout) <= 2 * Count(s[..m], Success) + 2
  {
    if m == n {
      TimeoutBound(s, n);
    } else {
      assert forall k :: 0 <= k < m ==> s[..m][..k] == s[..k];
      CountAgainstPending(s[..m]);
      CounterIsBreaker(s[..m]);
    }
  }
}
