/**
 The bounded uuid -> task-name index of the broker events monitor, as a value:
 the entries of an `OrderedDict` from least to most recently used.  Terminal
 events carry no task name, so the monitor answers them from this index.

 Two results are proved about every run of stores, lookups and pops:
 `RetentionExact` says exactly when an entry survives eviction, and `Refines`
 says that the bounded index only ever forgets, compared with one that never
 evicts.
 */
module NameIndex {
  import opened Options
  import opened Sets

  datatype Entry = Entry(uuid: string, name: string)

  /** What the monitor does to the index; a lookup that misses changes nothing. */
  datatype Op =
    | Store(uuid: string, name: string)
    | Lookup(uuid: string)
    | Pop(uuid: string)

  datatype Bound = Unbounded | AtMost(n: nat)

  ghost predicate Has(c: seq<Entry>, u: string) {
    exists i :: 0 <= i < |c| && c[i].uuid == u
  }

  ghost predicate Distinct(c: seq<Entry>) {
    forall i, j :: 0 <= i < j < |c| ==> c[i].uuid != c[j].uuid
  }

  ghost function Keys(c: seq<Entry>): set<string> {
    set i | 0 <= i < |c| :: c[i].uuid
  }

  function Find(c: seq<Entry>, u: string): (r: Option<string>)
    ensures r.Some? <==> Has(c, u)
    ensures r.Some? ==> Entry(u, r.value) in c
  {
    if c == [] then None
    else if c[0].uuid == u then Some(c[0].name)
    else
      assert forall i :: 1 <= i < |c| ==> c[i] == c[1..][i - 1];
      Find(c[1..], u)
  }

  /** The entries other than `u`'s, in order. */
  function Without(c: seq<Entry>, u: string): seq<Entry> {
    if c == [] then []
    else if c[0].uuid == u then Without(c[1..], u)
    else [c[0]] + Without(c[1..], u)
  }

  lemma {:induction false} WithoutMembers(c: seq<Entry>, u: string)
    ensures forall e :: e in Without(c, u) <==> e in c && e.uuid != u
  {
    if c == [] {
    } else {
      WithoutMembers(c[1..], u);
      assert c == [c[0]] + c[1..];
    }
  }

  /** Evict from the least recently used end until the bound is met. */
  function Trim(c: seq<Entry>, bound: Bound): seq<Entry> {
    if bound.AtMost? && |c| > bound.n then c[|c| - bound.n..] else c
  }

  function Step(c: seq<Entry>, op: Op, bound: Bound): seq<Entry> {
    match op
    case Store(u, n) => Trim(Without(c, u) + [Entry(u, n)], bound)
    case Lookup(u) =>
      (match Find(c, u)
       case Some(n) => Without(c, u) + [Entry(u, n)]
       case None => c)
    case Pop(u) => Without(c, u)
  }

  /** The index after a history of operations, from empty. */
  function Run(h: seq<Op>, bound: Bound): seq<Entry> {
    if h == [] then [] else Step(Run(h[..|h| - 1], bound), h[|h| - 1], bound)
  }

  lemma RunSnoc(h: seq<Op>, op: Op, bound: Bound)
    ensures Run(h + [op], bound) == Step(Run(h, bound), op, bound)
  {
    assert (h + [op])[..|h|] == h;
  }

  lemma RunPrefix(h: seq<Op>, j: nat, bound: Bound)
    requires j < |h|
    ensures Run(h[..j + 1], bound) == Step(Run(h[..j], bound), h[j], bound)
  {
    assert h[..j + 1][..j] == h[..j];
  }

  // ---------------------------------------------------------------------
  // Removing, appending and trimming keep keys distinct
  // ---------------------------------------------------------------------

  lemma {:induction false} WithoutDistinct(c: seq<Entry>, u: string)
    requires Distinct(c)
    ensures Distinct(Without(c, u))
    ensures |Without(c, u)| == if Has(c, u) then |c| - 1 else |c|
  {
    if c == [] {
    } else {
      var t := c[1..];
      WithoutDistinct(t, u);
      WithoutMembers(t, u);
      assert forall i :: 1 <= i < |c| ==> c[i] == t[i - 1];
      if c[0].uuid == u {
        assert !Has(t, u);
      } else {
        assert c[0] in c;
        forall i | 0 <= i < |Without(t, u)| ensures Without(t, u)[i].uuid != c[0].uuid {
          assert Without(t, u)[i] in t;
        }
        assert Has(c, u) <==> Has(t, u);
      }
    }
  }

  lemma AppendDistinct(c: seq<Entry>, u: string, n: string)
    requires Distinct(c)
    ensures Distinct(Without(c, u) + [Entry(u, n)])
    ensures Has(c, u) ==> |Without(c, u) + [Entry(u, n)]| == |c|
  {
    WithoutDistinct(c, u);
    WithoutMembers(c, u);
    forall i | 0 <= i < |Without(c, u)| ensures Without(c, u)[i].uuid != u {
      assert Without(c, u)[i] in Without(c, u);
    }
  }

  lemma StepDistinct(c: seq<Entry>, op: Op, bound: Bound)
    requires Distinct(c) && (bound.AtMost? ==> |c| <= bound.n)
    ensures Distinct(Step(c, op, bound))
    ensures bound.AtMost? ==> |Step(c, op, bound)| <= bound.n
  {
    match op
    case Store(u, n) => AppendDistinct(c, u, n);
    case Lookup(u) =>
      if Find(c, u).Some? { AppendDistinct(c, u, Find(c, u).value); }
    case Pop(u) => WithoutDistinct(c, u);
  }

  /** Over every run the keys are distinct and the bound is respected. */
  lemma {:induction false} RunDistinct(h: seq<Op>, bound: Bound)
    ensures Distinct(Run(h, bound))
    ensures bound.AtMost? ==> |Run(h, bound)| <= bound.n
  {
    if h == [] {
    } else {
      RunDistinct(h[..|h| - 1], bound);
      StepDistinct(Run(h[..|h| - 1], bound), h[|h| - 1], bound);
    }
  }

  // ---------------------------------------------------------------------
  // Exactly when an entry survives
  // ---------------------------------------------------------------------

  /** The entries more recently used than `u`'s. */
  ghost function After(c: seq<Entry>, u: string): seq<Entry>
    requires Has(c, u)
  {
    if c[0].uuid == u then c[1..]
    else
      HasTail(c, u);
      After(c[1..], u)
  }

  lemma HasTail(c: seq<Entry>, u: string)
    requires Has(c, u) && c[0].uuid != u
    ensures Has(c[1..], u)
  {
    var i :| 0 <= i < |c| && c[i].uuid == u;
    assert c[1..][i - 1].uuid == u;
  }

  lemma {:induction false} AfterIsSuffix(c: seq<Entry>, u: string)
    requires Has(c, u)
    ensures |After(c, u)| < |c|
    ensures After(c, u) == c[|c| - |After(c, u)|..]
    ensures c[|c| - |After(c, u)| - 1].uuid == u
  {
    if c[0].uuid == u {
    } else {
      HasTail(c, u);
      AfterIsSuffix(c[1..], u);
    }
  }

  lemma HasCons(e: Entry, c: seq<Entry>, u: string)
    ensures Has([e] + c, u) <==> e.uuid == u || Has(c, u)
    ensures Has([e] + c, u) && e.uuid != u ==> After([e] + c, u) == After(c, u)
    ensures e.uuid == u ==> After([e] + c, u) == c
  {
    var d := [e] + c;
    assert d[0] == e && d[1..] == c;
    if Has(c, u) {
      var i :| 0 <= i < |c| && c[i].uuid == u;
      assert d[i + 1].uuid == u;
    }
    if e.uuid != u && Has(d, u) {
      HasTail(d, u);
    }
  }

  /** Using or popping another key moves at most that key past `u`. */
  lemma {:induction false} AfterOthers(c: seq<Entry>, u: string, v: string, tail: seq<Entry>)
    requires Has(c, u) && v != u
    ensures Has(Without(c, v) + tail, u)
    ensures After(Without(c, v) + tail, u) == Without(After(c, u), v) + tail
  {
    var rest := Without(c[1..], v) + tail;
    if c[0].uuid == v {
      HasTail(c, u);
      AfterOthers(c[1..], u, v, tail);
    } else {
      assert Without(c, v) + tail == [c[0]] + rest;
      HasCons(c[0], rest, u);
      if c[0].uuid != u {
        HasTail(c, u);
        AfterOthers(c[1..], u, v, tail);
      }
    }
  }

  lemma DropHead(c: seq<Entry>, u: string, k: nat)
    requires Distinct(c) && c != [] && c[0].uuid == u && 0 < k <= |c|
    ensures !Has(c[k..], u)
  {
    assert forall i :: 0 <= i < |c[k..]| ==> c[k..][i] == c[i + k];
  }

  lemma {:induction false} DropKeeps(c: seq<Entry>, u: string, k: nat)
    requires Distinct(c) && Has(c, u) && k <= |c|
    ensures Has(c[k..], u) <==> |After(c, u)| < |c| - k
    ensures Has(c[k..], u) ==> After(c[k..], u) == After(c, u)
  {
    if k == 0 {
      AfterIsSuffix(c, u);
      assert c[0..] == c;
    } else if c[0].uuid == u {
      DropHead(c, u, k);
    } else {
      HasTail(c, u);
      SuffixDistinct(c, 1);
      DropKeeps(c[1..], u, k - 1);
      assert c[1..][k - 1..] == c[k..];
    }
  }

  /** Eviction removes `u` exactly when `n` others are more recent. */
  lemma {:induction false} TrimKeeps(c: seq<Entry>, u: string, n: nat)
    requires Distinct(c) && Has(c, u)
    ensures Has(Trim(c, AtMost(n)), u) <==> |After(c, u)| < n
    ensures |After(c, u)| < n ==> After(Trim(c, AtMost(n)), u) == After(c, u)
  {
    hide After, Has, Distinct;
    if |c| > n {
      DropKeeps(c, u, |c| - n);
    } else {
      AfterIsSuffix(c, u);
    }
  }

  lemma {:induction false} KeysCount(c: seq<Entry>)
    requires Distinct(c)
    ensures |Keys(c)| == |c|
  {
    if c == [] {
    } else {
      var t := c[..|c| - 1];
      KeysCount(t);
      var u := c[|c| - 1].uuid;
      assert Keys(c) == Keys(t) + {u};
      assert u !in Keys(t);
    }
  }

  lemma KeysWithout(c: seq<Entry>, v: string)
    ensures Keys(Without(c, v)) == Keys(c) - {v}
  {
    WithoutMembers(c, v);
    forall k | k in Keys(c) - {v} ensures k in Keys(Without(c, v)) {
      var i :| 0 <= i < |c| && c[i].uuid == k;
      assert c[i] in Without(c, v);
    }
    forall k | k in Keys(Without(c, v)) ensures k in Keys(c) - {v} {
      var i :| 0 <= i < |Without(c, v)| && Without(c, v)[i].uuid == k;
      assert Without(c, v)[i] in Without(c, v);
    }
  }

  /** Operation `j` of the history stored or hit `u`. */
  ghost predicate Uses(h: seq<Op>, j: nat, u: string, n: nat)
    requires j < |h|
  {
    match h[j]
    case Store(v, _) => v == u
    case Lookup(v) => v == u && Has(Run(h[..j], AtMost(n)), u)
    case Pop(_) => false
  }

  ghost function Younger(h: seq<Op>, j: nat, before: set<string>, n: nat): set<string>
    requires j < |h|
  {
    var v := h[j].uuid;
    if Uses(h, j, v, n) then before + {v}
    else if h[j].Pop? then before - {v}
    else before
  }

  /** The keys used after operation `k` and not popped since, at time `j`. */
  ghost function Live(h: seq<Op>, k: nat, j: nat, n: nat): set<string>
    requires k < j <= |h|
  {
    if j == k + 1 then {} else Younger(h, j - 1, Live(h, k, j - 1, n), n)
  }

  /** `k` is the last use of `u` before time `j`, and `u` is not popped in between. */
  ghost predicate LastUse(h: seq<Op>, k: nat, j: nat, u: string, n: nat)
    requires k < j <= |h|
  {
    && Uses(h, k, u, n)
    && forall i :: k < i < j ==> !Uses(h, i, u, n) && h[i] != Pop(u)
  }

  ghost predicate NeverCrowded(h: seq<Op>, k: nat, j: nat, n: nat)
    requires k < j <= |h|
  {
    forall i :: k < i <= j ==> |Live(h, k, i, n)| < n
  }

  lemma UseStep(h: seq<Op>, k: nat, u: string, n: nat)
    requires k < |h| && Uses(h, k, u, n)
    ensures var c := Run(h[..k + 1], AtMost(n));
            (Has(c, u) <==> 0 < n) && (Has(c, u) ==> After(c, u) == [])
  {
    RunPrefix(h, k, AtMost(n));
    RunDistinct(h[..k], AtMost(n));
    var c := Run(h[..k], AtMost(n));
    var name := if h[k].Store? then h[k].name else Find(c, u).value;
    UseMovesLast(c, u, name);
    TrimKeeps(Without(c, u) + [Entry(u, name)], u, n);
    if h[k].Lookup? {
      assert 0 < |c| <= n;
    }
  }

  lemma UseMovesLast(c: seq<Entry>, u: string, name: string)
    requires Distinct(c)
    ensures var d := Without(c, u) + [Entry(u, name)];
            Distinct(d) && Has(d, u) && After(d, u) == []
  {
    var d := Without(c, u) + [Entry(u, name)];
    AppendDistinct(c, u, name);
    assert d[|d| - 1].uuid == u;
    AfterIsSuffix(d, u);
    assert |d| - |After(d, u)| - 1 == |d| - 1;
  }

  /** Storing or hitting another key: it joins the younger ones, and `u` goes if they are `n`. */
  lemma OtherUse(c: seq<Entry>, u: string, v: string, name: string, n: nat)
    requires Distinct(c) && Has(c, u) && v != u
    ensures var d := Without(c, v) + [Entry(v, name)];
            var younger := Keys(After(c, u)) + {v};
            && (Has(Trim(d, AtMost(n)), u) <==> |younger| < n)
            && (Has(Trim(d, AtMost(n)), u) ==> Keys(After(Trim(d, AtMost(n)), u)) == younger)
  {
    var d := Without(c, v) + [Entry(v, name)];
    AppendDistinct(c, v, name);
    AfterOthers(c, u, v, [Entry(v, name)]);
    KeysWithout(After(c, u), v);
    KeysAppend(Without(After(c, u), v), Entry(v, name));
    assert Keys(After(d, u)) == Keys(After(c, u)) + {v};
    AfterIsSuffix(d, u);
    SuffixDistinct(d, |d| - |After(d, u)|);
    KeysCount(After(d, u));
    TrimKeeps(d, u, n);
  }

  lemma OtherPop(c: seq<Entry>, u: string, v: string)
    requires Has(c, u) && v != u
    ensures Has(Without(c, v), u)
    ensures Keys(After(Without(c, v), u)) == Keys(After(c, u)) - {v}
  {
    AfterOthers(c, u, v, []);
    assert Without(c, v) + [] == Without(c, v);
    assert Without(After(c, u), v) + [] == Without(After(c, u), v);
    KeysWithout(After(c, u), v);
  }

  lemma YoungerFewer(c: seq<Entry>, u: string)
    requires Distinct(c) && Has(c, u)
    ensures |Keys(After(c, u))| < |c|
  {
    AfterIsSuffix(c, u);
    SuffixDistinct(c, |c| - |After(c, u)|);
    KeysCount(After(c, u));
  }

  lemma OtherStep(h: seq<Op>, j: nat, u: string, n: nat)
    requires j < |h| && !Uses(h, j, u, n) && h[j] != Pop(u)
    ensures var c, d := Run(h[..j], AtMost(n)), Run(h[..j + 1], AtMost(n));
            if Has(c, u) then
              var younger := Younger(h, j, Keys(After(c, u)), n);
              && (Has(d, u) <==> |younger| < n)
              && (Has(d, u) ==> Keys(After(d, u)) == younger)
            else !Has(d, u)
  {
    RunPrefix(h, j, AtMost(n));
    RunDistinct(h[..j], AtMost(n));
    var c := Run(h[..j], AtMost(n));
    var v := h[j].uuid;
    if Has(c, u) {
      YoungerFewer(c, u);
      assert v != u;
      match h[j] {
        case Store(_, name) => OtherUse(c, u, v, name, n);
        case Lookup(_) =>
          if Has(c, v) {
            var d := Without(c, v) + [Entry(v, Find(c, v).value)];
            OtherUse(c, u, v, Find(c, v).value, n);
            AppendDistinct(c, v, Find(c, v).value);
            assert Trim(d, AtMost(n)) == d;
          }
        case Pop(_) =>
          OtherPop(c, u, v);
          SubsetSize(Keys(After(c, u)) - {v}, Keys(After(c, u)));
      }
    } else if v != u {
      NotReintroduced(c, u, h[j], n);
    }
  }

  lemma NotReintroduced(c: seq<Entry>, u: string, op: Op, n: nat)
    requires !Has(c, u) && op.uuid != u
    ensures !Has(Step(c, op, AtMost(n)), u)
  {
    WithoutMembers(c, op.uuid);
    forall e | e in Step(c, op, AtMost(n)) ensures e.uuid != u {
      if e.uuid != op.uuid {
        assert e in c;
      }
    }
  }

  lemma SuffixDistinct(c: seq<Entry>, k: nat)
    requires Distinct(c) && k <= |c|
    ensures Distinct(c[k..])
  {
  }

  lemma KeysAppend(c: seq<Entry>, e: Entry)
    ensures Keys(c + [e]) == Keys(c) + {e.uuid}
  {
    assert (c + [e])[|c|] == e;
    forall k | k in Keys(c) ensures k in Keys(c + [e]) {
      var i :| 0 <= i < |c| && c[i].uuid == k;
      assert (c + [e])[i].uuid == k;
    }
  }

  lemma NeverCrowdedStep(h: seq<Op>, k: nat, j: nat, n: nat)
    requires k + 1 < j <= |h|
    ensures NeverCrowded(h, k, j, n) <==> NeverCrowded(h, k, j - 1, n) && |Live(h, k, j, n)| < n
  {
  }

  /**
   Retention, exactly: after its last use at `k`, and with no pop of it since,
   a key is still indexed at time `j` if and only if at no moment in between
   were `n` other keys both used since `k` and not popped again.
   */
  lemma {:induction false} RetentionExact(h: seq<Op>, k: nat, j: nat, u: string, n: nat)
    requires k < j <= |h| && LastUse(h, k, j, u, n)
    ensures Has(Run(h[..j], AtMost(n)), u) <==> NeverCrowded(h, k, j, n)
    ensures Has(Run(h[..j], AtMost(n)), u) ==>
              Keys(After(Run(h[..j], AtMost(n)), u)) == Live(h, k, j, n)
    decreases j
  {
    hide Run, After, Has, Keys, Live, NeverCrowded;
    if j == k + 1 {
      RetentionStart(h, k, u, n);
    } else {
      assert LastUse(h, k, j - 1, u, n);
      RetentionExact(h, k, j - 1, u, n);
      RetentionStep(h, k, j, u, n);
    }
  }

  lemma RetentionStart(h: seq<Op>, k: nat, u: string, n: nat)
    requires k < |h| && Uses(h, k, u, n)
    ensures Has(Run(h[..k + 1], AtMost(n)), u) <==> NeverCrowded(h, k, k + 1, n)
    ensures Has(Run(h[..k + 1], AtMost(n)), u) ==>
              Keys(After(Run(h[..k + 1], AtMost(n)), u)) == Live(h, k, k + 1, n)
  {
    hide Run, After, Has;
    UseStep(h, k, u, n);
    assert Live(h, k, k + 1, n) == {};
  }

  lemma RetentionStep(h: seq<Op>, k: nat, j: nat, u: string, n: nat)
    requires k + 1 < j <= |h| && LastUse(h, k, j, u, n)
    requires Has(Run(h[..j - 1], AtMost(n)), u) <==> NeverCrowded(h, k, j - 1, n)
    requires Has(Run(h[..j - 1], AtMost(n)), u) ==>
               Keys(After(Run(h[..j - 1], AtMost(n)), u)) == Live(h, k, j - 1, n)
    ensures Has(Run(h[..j], AtMost(n)), u) <==> NeverCrowded(h, k, j, n)
    ensures Has(Run(h[..j], AtMost(n)), u) ==>
              Keys(After(Run(h[..j], AtMost(n)), u)) == Live(h, k, j, n)
  {
    hide Run, After, Has, Keys, NeverCrowded;
    OtherStep(h, j - 1, u, n);
    NeverCrowdedStep(h, k, j, n);
  }

  /** Every key other than `u` stored or hit after operation `k`. */
  ghost function OthersUsed(h: seq<Op>, k: nat, j: nat, u: string, n: nat): set<string>
    requires k < j <= |h|
  {
    set i | k < i < j && Uses(h, i, h[i].uuid, n) && h[i].uuid != u :: h[i].uuid
  }

  lemma {:induction false} LiveAreUsed(h: seq<Op>, k: nat, i: nat, j: nat, u: string, n: nat)
    requires k < i <= j <= |h| && LastUse(h, k, j, u, n)
    ensures Live(h, k, i, n) <= OthersUsed(h, k, j, u, n)
    decreases i
  {
    if i == k + 1 {
    } else {
      LiveAreUsed(h, k, i - 1, j, u, n);
      var v := h[i - 1].uuid;
      if Uses(h, i - 1, v, n) {
        assert v != u;
        assert v in OthersUsed(h, k, j, u, n);
      }
    }
  }

  /** An answer of the index was stored by this operation or known before it. */
  lemma StepAnswers(c: seq<Entry>, op: Op, bound: Bound, u: string)
    requires Distinct(c)
    ensures var got := Find(Step(c, op, bound), u);
            got == None || got == if op.Store? && op.uuid == u then Some(op.name) else Find(c, u)
  {
    var d := Step(c, op, bound);
    WithoutMembers(c, op.uuid);
    if Find(d, u).Some? {
      var e := Entry(u, Find(d, u).value);
      assert e in d;
      if op.Store? && op.uuid == u {
        assert e in Without(c, u) + [Entry(u, op.name)];
      } else {
        FindUnique(c, e);
      }
    }
  }

  /** The last name stored for `u` is the only one the index can give back. */
  lemma {:induction false} NameIsLastStored(h: seq<Op>, i: nat, j: nat, u: string, name: string, n: nat)
    requires i < j <= |h| && h[i] == Store(u, name)
    requires forall m :: i < m < j ==> !(h[m].Store? && h[m].uuid == u)
    ensures Find(Run(h[..j], AtMost(n)), u) in {None, Some(name)}
    decreases j
  {
    RunPrefix(h, j - 1, AtMost(n));
    RunDistinct(h[..j - 1], AtMost(n));
    var c := Run(h[..j - 1], AtMost(n));
    StepAnswers(c, h[j - 1], AtMost(n), u);
    if j - 1 > i {
      NameIsLastStored(h, i, j - 1, u, name, n);
    }
  }

  lemma {:induction false} FindUnique(c: seq<Entry>, e: Entry)
    requires Distinct(c) && e in c
    ensures Find(c, e.uuid) == Some(e.name)
  {
    var got := Find(c, e.uuid);
    var i :| 0 <= i < |c| && c[i] == e;
    assert Has(c, e.uuid);
    var k :| 0 <= k < |c| && c[k] == Entry(e.uuid, got.value);
    assert i == k;
  }

  lemma {:induction false} FindIff(c: seq<Entry>, u: string, name: string)
    requires Distinct(c)
    ensures Find(c, u) == Some(name) <==> Entry(u, name) in c
  {
    if Entry(u, name) in c {
      FindUnique(c, Entry(u, name));
    }
  }

  lemma {:induction false} SameFind(a: seq<Entry>, b: seq<Entry>, u: string)
    requires Distinct(a) && Distinct(b)
    requires forall x :: Entry(u, x) in a <==> Entry(u, x) in b
    ensures Find(a, u) == Find(b, u)
  {
    if Find(a, u).Some? {
      FindIff(b, u, Find(a, u).value);
    }
    if Find(b, u).Some? {
      FindIff(a, u, Find(b, u).value);
    }
  }

  /** What one operation does to what is found. */
  lemma {:induction false} StepFinds(c: seq<Entry>, op: Op, n: nat, v: string)
    requires Distinct(c) && |c| <= n && n >= 1
    ensures op.Lookup? ==> Find(Step(c, op, AtMost(n)), v) == Find(c, v)
    ensures op.Pop? ==> Find(Step(c, op, AtMost(n)), v) == if v == op.uuid then None else Find(c, v)
    ensures op.Store? && v == op.uuid ==> Find(Step(c, op, AtMost(n)), v) == Some(op.name)
    ensures op.Store? && v != op.uuid ==> Find(Step(c, op, AtMost(n)), v) in {Find(c, v), None}
  {
    var after := Step(c, op, AtMost(n));
    StepDistinct(c, op, AtMost(n));
    WithoutMembers(c, op.uuid);
    match op
    case Lookup(u) =>
      if Find(c, u).Some? {
        FindUnique(c, Entry(u, Find(c, u).value));
        forall x ensures Entry(v, x) in after <==> Entry(v, x) in c {
          FindIff(c, v, x);
        }
        SameFind(after, c, v);
      }
    case Pop(u) =>
      if v != u {
        SameFind(after, c, v);
      }
    case Store(u, name) =>
      var long := Without(c, u) + [Entry(u, name)];
      AppendDistinct(c, u, name);
      assert after[|after| - 1] == Entry(u, name);
      FindUnique(after, Entry(u, name));
      if v != u && Find(after, v).Some? {
        var x := Find(after, v).value;
        assert Entry(v, x) in long;
        FindIff(c, v, x);
      }
  }

  /**
   Retention as callers read it: a name stored at `i`, last used at `k`, not
   stored again and not popped, is still found as long as fewer than `n`
   distinct other keys were stored or hit since `k`.
   */
  lemma {:induction false} Retention(h: seq<Op>, i: nat, k: nat, u: string, name: string, n: nat)
    requires i <= k < |h| && h[i] == Store(u, name)
    requires forall m :: i < m < |h| ==> !(h[m].Store? && h[m].uuid == u)
    requires LastUse(h, k, |h|, u, n)
    requires |OthersUsed(h, k, |h|, u, n)| < n
    ensures Find(Run(h, AtMost(n)), u) == Some(name)
  {
    forall m | k < m <= |h| ensures |Live(h, k, m, n)| < n {
      LiveAreUsed(h, k, m, |h|, u, n);
      SubsetSize(Live(h, k, m, n), OthersUsed(h, k, |h|, u, n));
    }
    assert h[..|h|] == h;
    RetentionExact(h, k, |h|, u, n);
    NameIsLastStored(h, i, |h|, u, name, n);
  }

  // ---------------------------------------------------------------------
  // The bounded index refines the one that never evicts
  // ---------------------------------------------------------------------

  ghost predicate SubSeq(a: seq<Entry>, b: seq<Entry>)
    decreases |b|
  {
    || a == []
    || (b != [] && ((a[0] == b[0] && SubSeq(a[1..], b[1..])) || SubSeq(a, b[1..])))
  }

  lemma SubSeqSkip(a: seq<Entry>, e: Entry, b: seq<Entry>)
    requires SubSeq(a, b)
    ensures SubSeq(a, [e] + b)
  {
    assert ([e] + b)[1..] == b;
  }

  lemma {:induction false} SubSeqTail(a: seq<Entry>, b: seq<Entry>)
    requires SubSeq(a, b) && a != []
    ensures SubSeq(a[1..], b)
    decreases |b|
  {
    assert [b[0]] + b[1..] == b;
    if !(a[0] == b[0] && SubSeq(a[1..], b[1..])) {
      SubSeqTail(a, b[1..]);
    }
    SubSeqSkip(a[1..], b[0], b[1..]);
  }

  lemma {:induction false} SubSeqDrop(a: seq<Entry>, b: seq<Entry>, k: nat)
    requires SubSeq(a, b) && k <= |a|
    ensures SubSeq(a[k..], b)
  {
    if k == 0 {
      assert a[0..] == a;
    } else {
      SubSeqTail(a, b);
      SubSeqDrop(a[1..], b, k - 1);
      assert a[1..][k - 1..] == a[k..];
    }
  }

  lemma {:induction false} SubSeqWithout(a: seq<Entry>, b: seq<Entry>, v: string)
    requires SubSeq(a, b)
    ensures SubSeq(Without(a, v), Without(b, v))
    decreases |b|
  {
    if a == [] {
    } else if a[0] == b[0] && SubSeq(a[1..], b[1..]) {
      SubSeqWithout(a[1..], b[1..], v);
      if b[0].uuid != v {
        assert Without(a, v)[1..] == Without(a[1..], v);
        assert Without(b, v)[1..] == Without(b[1..], v);
      }
    } else {
      SubSeqWithout(a, b[1..], v);
      if b[0].uuid != v {
        SubSeqSkip(Without(a, v), b[0], Without(b[1..], v));
      }
    }
  }

  lemma {:induction false} SubSeqAppend(a: seq<Entry>, b: seq<Entry>, e: Entry)
    requires SubSeq(a, b)
    ensures SubSeq(a + [e], b + [e])
    decreases |b|
  {
    if b == [] {
      assert (a + [e])[1..] == [];
    } else {
      assert (b + [e])[1..] == b[1..] + [e];
      if a == [] {
        SubSeqAppend([], b[1..], e);
        assert [] + [e] == [e];
      } else if a[0] == b[0] && SubSeq(a[1..], b[1..]) {
        SubSeqAppend(a[1..], b[1..], e);
        assert (a + [e])[1..] == a[1..] + [e];
      } else {
        SubSeqAppend(a, b[1..], e);
      }
    }
  }

  lemma {:induction false} SubSeqMember(a: seq<Entry>, b: seq<Entry>, e: Entry)
    requires SubSeq(a, b) && e in a
    ensures e in b
    decreases |b|
  {
    if a[0] == b[0] && SubSeq(a[1..], b[1..]) {
      if e != a[0] {
        SubSeqMember(a[1..], b[1..], e);
      }
    } else {
      SubSeqMember(a, b[1..], e);
    }
  }

  lemma {:induction false} WithoutAbsent(c: seq<Entry>, v: string)
    requires !Has(c, v)
    ensures Without(c, v) == c
  {
    if c == [] {
    } else {
      assert c[0].uuid != v;
      assert forall i :: 0 <= i < |c[1..]| ==> c[1..][i] == c[i + 1];
      WithoutAbsent(c[1..], v);
    }
  }

  lemma RefinesStep(b: seq<Entry>, full: seq<Entry>, op: Op, n: nat)
    requires SubSeq(b, full) && Distinct(b) && Distinct(full)
    ensures SubSeq(Step(b, op, AtMost(n)), Step(full, op, Unbounded))
  {
    SubSeqWithout(b, full, op.uuid);
    match op
    case Store(u, name) =>
      var e := Entry(u, name);
      SubSeqAppend(Without(b, u), Without(full, u), e);
      var c := Without(b, u) + [e];
      if |c| > n {
        SubSeqDrop(c, Without(full, u) + [e], |c| - n);
      }
    case Lookup(u) =>
      if Find(b, u).Some? {
        var e := Entry(u, Find(b, u).value);
        SubSeqMember(b, full, e);
        FindUnique(full, e);
        SubSeqAppend(Without(b, u), Without(full, u), e);
      } else {
        WithoutAbsent(b, u);
        if Find(full, u).Some? {
          SubSeqSkipLast(b, Without(full, u), Entry(u, Find(full, u).value));
        }
      }
    case Pop(u) =>
  }

  lemma {:induction false} SubSeqSkipLast(a: seq<Entry>, b: seq<Entry>, e: Entry)
    requires SubSeq(a, b)
    ensures SubSeq(a, b + [e])
    decreases |b|
  {
    if a == [] {
    } else {
      assert (b + [e])[1..] == b[1..] + [e];
      if a[0] == b[0] && SubSeq(a[1..], b[1..]) {
        SubSeqSkipLast(a[1..], b[1..], e);
      } else {
        SubSeqSkipLast(a, b[1..], e);
      }
    }
  }

  /**
   After any history the bounded entries are an order-preserving sub-sequence
   of the never-evicting index's entries, names included.
   */
  lemma {:induction false} Refines(h: seq<Op>, n: nat)
    ensures SubSeq(Run(h, AtMost(n)), Run(h, Unbounded))
  {
    if h == [] {
    } else {
      var p := h[..|h| - 1];
      Refines(p, n);
      RunDistinct(p, AtMost(n));
      RunDistinct(p, Unbounded);
      RefinesStep(Run(p, AtMost(n)), Run(p, Unbounded), h[|h| - 1], n);
    }
  }

  /** A bounded lookup may miss, but never answers with a different name. */
  lemma {:induction false} AnswersAgree(h: seq<Op>, n: nat, u: string)
    requires Find(Run(h, AtMost(n)), u).Some?
    ensures Find(Run(h, AtMost(n)), u) == Find(Run(h, Unbounded), u)
  {
    Refines(h, n);
    RunDistinct(h, Unbounded);
    var e := Entry(u, Find(Run(h, AtMost(n)), u).value);
    SubSeqMember(Run(h, AtMost(n)), Run(h, Unbounded), e);
    FindUnique(Run(h, Unbounded), e);
  }
}
