/**
 Several agents on one broker: the celery events exchange is a fanout, so each
 agent's monitor receives every event.  The hostname filter makes the agents
 divide the stream between them.
 */
module FanOut {
  import opened Options
  import opened BrokerMonitor
  import AckProtocol

  /** An event that no dispatch, filtered or not, chokes on. */
  predicate WellFormed(e: Event) {
    e.Event? && e.kind != Unhashable
  }

  ghost predicate AllWellFormed(stream: seq<Event>) {
    forall i :: 0 <= i < |stream| ==> WellFormed(stream[i])
  }

  function Flatten(batches: seq<seq<Event>>): seq<Event> {
    if batches == [] then [] else batches[0] + Flatten(batches[1..])
  }

  /** How the stream was cut into messages does not matter. */
  lemma {:induction false} BatchingIrrelevant(local: Option<string>, batches: seq<seq<Event>>)
    requires AllWellFormed(Flatten(batches))
    ensures HandedRun(local, batches) == Selected(local, Flatten(batches))
  {
    if batches == [] {
    } else {
      var b, rest := batches[0], Flatten(batches[1..]);
      var all := Flatten(batches);
      assert all == b + rest;
      assert forall i :: 0 <= i < |b| ==> b[i] == all[i];
      assert forall i :: 0 <= i < |rest| ==> rest[i] == all[i + |b|];
      HandedAt(local, b, |b|);
      assert b[..|b|] == b;
      BatchingIrrelevant(local, batches[1..]);
      SelectedConcat(local, b, rest);
    }
  }

  /** An agent without a filter handles every supported event, in order. */
  lemma {:induction false} UnfilteredHandlesAll(batches: seq<seq<Event>>)
    requires AllWellFormed(Flatten(batches))
    ensures HandedRun(None, batches) == Covered(None, Flatten(batches))
  {
    BatchingIrrelevant(None, batches);
    UnfilteredSelection(Flatten(batches));
  }

  predicate SupportedEvent(e: Event) {
    e.Event? && (e.kind == Started || e.kind == Succeeded || e.kind == Failed || e.kind == Retried || e.kind == Revoked)
  }

  lemma TakesIff(local: Option<string>, e: Event)
    ensures Takes(local, e) <==> SupportedEvent(e) && (local == None || local == Some(e.host))
  {
  }

  /** The supported events that come from one of the given hosts (from anywhere, if `None`). */
  function Covered(hosts: Option<seq<string>>, stream: seq<Event>): seq<Event> {
    if stream == [] then []
    else
      var e := stream[0];
      var kept := SupportedEvent(e) && (hosts == None || e.host in hosts.value);
      (if kept then [e] else []) + Covered(hosts, stream[1..])
  }

  lemma {:induction false} UnfilteredSelection(stream: seq<Event>)
    ensures Selected(None, stream) == Covered(None, stream)
  {
    if stream == [] {
    } else {
      UnfilteredSelection(stream[1..]);
    }
  }

  ghost predicate DistinctHosts(hosts: seq<string>) {
    forall i, j :: 0 <= i < j < |hosts| ==> hosts[i] != hosts[j]
  }

  /** All handler calls at all agents, agent `a` filtering on `hosts[a]`. */
  function Total(hosts: seq<string>, stream: seq<Event>): multiset<Event> {
    if hosts == [] then multiset{}
    else multiset(Selected(Some(hosts[0]), stream)) + Total(hosts[1..], stream)
  }

  function TotalRun(hosts: seq<string>, batches: seq<seq<seq<Event>>>): multiset<Event>
    requires |batches| == |hosts|
  {
    if hosts == [] then multiset{}
    else multiset(HandedRun(Some(hosts[0]), batches[0])) + TotalRun(hosts[1..], batches[1..])
  }

  lemma {:induction false} OneMoreHost(h: string, hosts: seq<string>, stream: seq<Event>)
    requires h !in hosts
    ensures multiset(Covered(Some([h] + hosts), stream)) ==
            multiset(Selected(Some(h), stream)) + multiset(Covered(Some(hosts), stream))
  {
    hide Takes, SupportedEvent;
    if stream == [] {
    } else {
      OneMoreHost(h, hosts, stream[1..]);
      TakesIff(Some(h), stream[0]);
      assert stream[0].Event? ==>
          (stream[0].host in [h] + hosts <==> stream[0].host == h || stream[0].host in hosts);
    }
  }

  lemma {:induction false} NobodyCovered(stream: seq<Event>)
    ensures Covered(Some([]), stream) == []
  {
    if stream == [] {
    } else {
      NobodyCovered(stream[1..]);
    }
  }

  lemma {:induction false} DistinctPartition(hosts: seq<string>, stream: seq<Event>)
    requires DistinctHosts(hosts)
    ensures Total(hosts, stream) == multiset(Covered(Some(hosts), stream))
  {
    if hosts == [] {
      NobodyCovered(stream);
    } else {
      DistinctPartition(hosts[1..], stream);
      assert hosts[0] !in hosts[1..];
      OneMoreHost(hosts[0], hosts[1..], stream);
      assert [hosts[0]] + hosts[1..] == hosts;
    }
  }

  lemma {:induction false} TotalRunIsTotal(hosts: seq<string>, batches: seq<seq<seq<Event>>>, stream: seq<Event>)
    requires |batches| == |hosts| && AllWellFormed(stream)
    requires forall a :: 0 <= a < |hosts| ==> Flatten(batches[a]) == stream
    ensures TotalRun(hosts, batches) == Total(hosts, stream)
  {
    if hosts == [] {
    } else {
      BatchingIrrelevant(Some(hosts[0]), batches[0]);
      TotalRunIsTotal(hosts[1..], batches[1..], stream);
    }
  }

  /**
   Fan-out partition: agents with pairwise distinct hostnames that all receive
   the same well-formed stream, however it is batched for each of them, hand
   every supported event of a covered host to a handler exactly once overall,
   and each agent does so in stream order.
   */
  lemma {:induction false} Partition(hosts: seq<string>, batches: seq<seq<seq<Event>>>, stream: seq<Event>)
    requires DistinctHosts(hosts)
    requires |batches| == |hosts| && AllWellFormed(stream)
    requires forall a :: 0 <= a < |hosts| ==> Flatten(batches[a]) == stream
    ensures TotalRun(hosts, batches) == multiset(Covered(Some(hosts), stream))
    ensures forall a :: 0 <= a < |hosts| ==>
              HandedRun(Some(hosts[a]), batches[a]) == Covered(Some([hosts[a]]), stream)
  {
    TotalRunIsTotal(hosts, batches, stream);
    DistinctPartition(hosts, stream);
    forall a | 0 <= a < |hosts|
      ensures HandedRun(Some(hosts[a]), batches[a]) == Covered(Some([hosts[a]]), stream)
    {
      BatchingIrrelevant(Some(hosts[a]), batches[a]);
      OneHostSelection(hosts[a], stream);
    }
  }

  lemma {:induction false} OneHostSelection(h: string, stream: seq<Event>)
    ensures Selected(Some(h), stream) == Covered(Some([h]), stream)
  {
    if stream == [] {
    } else {
      OneHostSelection(h, stream[1..]);
    }
  }

  /** Distinct hostnames are exactly what the partition needs: two agents sharing one duplicate its events. */
  lemma {:induction false} PartitionNeedsDistinctHosts(hosts: seq<string>)
    ensures DistinctHosts(hosts) <==>
            forall stream :: AllWellFormed(stream) ==>
              Total(hosts, stream) == multiset(Covered(Some(hosts), stream))
  {
    if DistinctHosts(hosts) {
      forall stream | AllWellFormed(stream)
        ensures Total(hosts, stream) == multiset(Covered(Some(hosts), stream))
      {
        DistinctPartition(hosts, stream);
      }
    } else {
      var i, j :| 0 <= i < j < |hosts| && hosts[i] == hosts[j];
      var e := Event(hosts[i], Started, "u", "n", Completes);
      assert e.kind.Supported();
      assert [e][1..] == [];
      assert Covered(Some(hosts), [e]) == [e];
      TotalCounts(hosts, e, i, j);
      assert AllWellFormed([e]);
    }
  }

  lemma {:induction false} TotalCounts(hosts: seq<string>, e: Event, i: nat, j: nat)
    requires i < j < |hosts| && e.Event? && e.kind.Supported()
    requires hosts[i] == hosts[j] == e.host
    ensures Total(hosts, [e])[e] >= 2
  {
    assert [e][1..] == [];
    assert Selected(Some(e.host), [e]) == [e];
    if i == 0 {
      TotalCountsOne(hosts[1..], e, j - 1);
    } else {
      TotalCounts(hosts[1..], e, i - 1, j - 1);
    }
  }

  lemma {:induction false} TotalCountsOne(hosts: seq<string>, e: Event, j: nat)
    requires j < |hosts| && e.Event? && e.kind.Supported() && hosts[j] == e.host
    ensures Total(hosts, [e])[e] >= 1
  {
    assert [e][1..] == [];
    assert Selected(Some(e.host), [e]) == [e];
    if j > 0 {
      TotalCountsOne(hosts[1..], e, j - 1);
    }
  }

  // ---------------------------------------------------------------------
  // With failed acks, lost connections and redelivery
  // ---------------------------------------------------------------------

  /** All handler calls at all agents, each after its own run against its own queue. */
  ghost function TotalHandled(worlds: seq<AckProtocol.World>, runs: seq<AckProtocol.Trace>): multiset<Event>
    requires |runs| == |worlds|
  {
    if worlds == [] then multiset{}
    else
      multiset(AllPlain(AckProtocol.After(worlds[0], runs[0]).tally.handled))
      + TotalHandled(worlds[1..], runs[1..])
  }

  /** The agent with host `h` got message `m` with these events, and has got rid of it. */
  ghost predicate Done(w: AckProtocol.World, run: AckProtocol.Trace, m: nat, events: seq<Event>, h: string) {
    && w.local == Some(h) && w.body(m) == events
    && AckProtocol.IsRun(w, run) && m in AckProtocol.After(w, run).removed
  }

  /**
   At least once over all agents, whether or not they share hostnames: whatever
   acks failed, connections broke and handlers raised at each of them, once a
   well-formed message is gone from every agent's queue, each supported event
   in it from a covered host has been handed to a handler at least as often as
   it occurs there.
   */
  lemma {:induction false} AtLeastOnceOverall(hosts: seq<string>, worlds: seq<AckProtocol.World>,
                                              runs: seq<AckProtocol.Trace>, m: nat, events: seq<Event>)
    requires |worlds| == |runs| == |hosts| && AllWellFormed(events)
    requires forall a :: 0 <= a < |hosts| ==> Done(worlds[a], runs[a], m, events, hosts[a])
    ensures multiset(Covered(Some(hosts), AllPlain(events))) <= TotalHandled(worlds, runs)
  {
    CoveredAtMostTotal(hosts, AllPlain(events));
    TotalIsHandled(hosts, worlds, runs, m, events);
  }

  lemma {:induction false} CoveredAtMostTotal(hosts: seq<string>, stream: seq<Event>)
    ensures multiset(Covered(Some(hosts), stream)) <= Total(hosts, stream)
  {
    if hosts == [] {
      NobodyCovered(stream);
    } else {
      CoveredAtMostTotal(hosts[1..], stream);
      HostAdds(hosts[0], hosts[1..], stream);
      assert [hosts[0]] + hosts[1..] == hosts;
    }
  }

  lemma {:induction false} HostAdds(h: string, hosts: seq<string>, stream: seq<Event>)
    ensures multiset(Covered(Some([h] + hosts), stream)) <=
            multiset(Selected(Some(h), stream)) + multiset(Covered(Some(hosts), stream))
  {
    if stream == [] {
    } else {
      HostAdds(h, hosts, stream[1..]);
      assert stream[0].Event? ==>
          (stream[0].host in [h] + hosts <==> stream[0].host == h || stream[0].host in hosts);
    }
  }

  lemma {:induction false} TotalIsHandled(hosts: seq<string>, worlds: seq<AckProtocol.World>,
                                          runs: seq<AckProtocol.Trace>, m: nat, events: seq<Event>)
    requires |worlds| == |runs| == |hosts| && AllWellFormed(events)
    requires forall a :: 0 <= a < |hosts| ==> Done(worlds[a], runs[a], m, events, hosts[a])
    ensures Total(hosts, AllPlain(events)) <= TotalHandled(worlds, runs)
  {
    if hosts == [] {
    } else {
      hide AckProtocol.IsRun, AckProtocol.After, Selected, Handed;
      var w := worlds[0];
      assert Done(w, runs[0], m, events, hosts[0]);
      AckProtocol.AtLeastOnce(w, runs[0], m);
      assert !Poisoned(w.local, w.body(m));
      ContainsCounts(AllPlain(AckProtocol.After(w, runs[0]).tally.handled), Selected(w.local, AllPlain(events)));
      forall a | 0 <= a < |hosts[1..]| ensures Done(worlds[1..][a], runs[1..][a], m, events, hosts[1..][a]) {
        assert Done(worlds[a + 1], runs[a + 1], m, events, hosts[a + 1]);
      }
      TotalIsHandled(hosts[1..], worlds[1..], runs[1..], m, events);
    }
  }

  lemma ContainsCounts(log: seq<Event>, part: seq<Event>)
    requires AckProtocol.Contains(log, part)
    ensures multiset(part) <= multiset(log)
  {
    var pre, post :| log == pre + part + post;
    assert multiset(log) == multiset(pre) + multiset(part) + multiset(post);
  }
}
