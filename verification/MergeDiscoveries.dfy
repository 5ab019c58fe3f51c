/** Merging what the running app and the static scan found, runtime winning, sorted by task name. */
module MergeDiscoveries {
  import opened Options

  /** A task definition; `rest` stands for everything but its name. */
  datatype Def = Def(name: string, rest: nat)

  /** Python's order on strings: by code point, a prefix first. */
  predicate Less(a: string, b: string) {
    if b == "" then false
    else if a == "" then true
    else a[0] < b[0] || (a[0] == b[0] && Less(a[1..], b[1..]))
  }

  lemma {:induction false} LessTotal(a: string, b: string)
    ensures a == b || Less(a, b) || Less(b, a)
    ensures !(Less(a, b) && Less(b, a)) && !Less(a, a)
  {
    if a != "" && b != "" {
      LessTotal(a[1..], b[1..]);
      assert a == [a[0]] + a[1..] && b == [b[0]] + b[1..];
    }
    if a != "" {
      LessIrreflexive(a);
    }
  }

  /** `a` and `b` first differ at `k`, where `a` ends or has the smaller character. */
  predicate DiffersAt(a: string, b: string, k: nat) {
    && k <= |a| && k < |b| && a[..k] == b[..k]
    && (k == |a| || a[k] < b[k])
  }

  lemma {:induction false} LessIff(a: string, b: string)
    ensures Less(a, b) <==> exists k: nat :: DiffersAt(a, b, k)
  {
    if b == "" {
    } else if a == "" {
      assert DiffersAt(a, b, 0);
    } else {
      LessIff(a[1..], b[1..]);
      if a[0] < b[0] {
        assert DiffersAt(a, b, 0);
      } else if Less(a, b) {
        var k: nat :| DiffersAt(a[1..], b[1..], k);
        assert a[..k + 1] == [a[0]] + a[1..][..k] && b[..k + 1] == [b[0]] + b[1..][..k];
        assert DiffersAt(a, b, k + 1);
      }
      if k: nat :| DiffersAt(a, b, k) && k > 0 {
        assert a[0] == a[..k][0] == b[..k][0] == b[0];
        assert a[1..][..k - 1] == a[..k][1..] && b[1..][..k - 1] == b[..k][1..];
        assert DiffersAt(a[1..], b[1..], k - 1);
      }
    }
  }

  lemma {:induction false} LessIrreflexive(a: string)
    ensures !Less(a, a)
  {
    if a != "" {
      LessIrreflexive(a[1..]);
    }
  }

  lemma {:induction false} LessTransitive(a: string, b: string, c: string)
    requires Less(a, b) && Less(b, c)
    ensures Less(a, c)
  {
    if a != "" && a[0] == b[0] == c[0] {
      LessTransitive(a[1..], b[1..], c[1..]);
    }
  }

  ghost predicate StrictlySorted(s: seq<Def>) {
    forall i, j :: 0 <= i < j < |s| ==> Less(s[i].name, s[j].name)
  }

  /** The last definition of a name. */
  function LastOf(s: seq<Def>, n: string): Option<Def> {
    if s == [] then None
    else if s[|s| - 1].name == n then Some(s[|s| - 1])
    else LastOf(s[..|s| - 1], n)
  }

  function Either(a: Option<Def>, b: Option<Def>): Option<Def> {
    if a.Some? then a else b
  }

  /** A right-biased union: every name of either list, under its last runtime definition, else its last static one. */
  ghost predicate IsMerge(out: seq<Def>, runtime: seq<Def>, scanned: seq<Def>) {
    && StrictlySorted(out)
    && forall n :: LastOf(out, n) == Either(LastOf(runtime, n), LastOf(scanned, n))
  }

  // ---------------------------------------------------------------------
  // Sorting the values of a dictionary
  // ---------------------------------------------------------------------

  function Insert(s: seq<Def>, d: Def): seq<Def> {
    if s == [] || Less(d.name, s[0].name) then [d] + s else [s[0]] + Insert(s[1..], d)
  }

  function Sort(s: seq<Def>): seq<Def> {
    if s == [] then [] else Insert(Sort(s[1..]), s[0])
  }

  lemma {:induction false} InsertMembers(s: seq<Def>, d: Def)
    ensures multiset(Insert(s, d)) == multiset(s) + multiset{d}
  {
    if s == [] || Less(d.name, s[0].name) {
    } else {
      InsertMembers(s[1..], d);
      assert s == [s[0]] + s[1..];
    }
  }

  lemma {:induction false} InsertSorted(s: seq<Def>, d: Def)
    requires StrictlySorted(s) && forall i :: 0 <= i < |s| ==> s[i].name != d.name
    ensures StrictlySorted(Insert(s, d))
  {
    if s == [] {
    } else if Less(d.name, s[0].name) {
      forall j | 0 < j < |s| ensures Less(d.name, s[j].name) {
        LessTransitive(d.name, s[0].name, s[j].name);
      }
    } else {
      LessTotal(d.name, s[0].name);
      InsertSorted(s[1..], d);
      InsertMembers(s[1..], d);
      var t := Insert(s[1..], d);
      forall j | 0 <= j < |t| ensures Less(s[0].name, t[j].name) {
        assert t[j] in multiset(t);
        if t[j] != d {
          assert t[j] in s[1..];
        }
      }
    }
  }

  ghost predicate DistinctNames(s: seq<Def>) {
    forall i, j :: 0 <= i < j < |s| ==> s[i].name != s[j].name
  }

  lemma {:induction false} SortSorts(s: seq<Def>)
    requires DistinctNames(s)
    ensures StrictlySorted(Sort(s)) && multiset(Sort(s)) == multiset(s)
  {
    if s == [] {
    } else {
      SortSorts(s[1..]);
      InsertMembers(Sort(s[1..]), s[0]);
      assert s == [s[0]] + s[1..];
      forall i | 0 <= i < |Sort(s[1..])| ensures Sort(s[1..])[i].name != s[0].name {
        assert Sort(s[1..])[i] in multiset(s[1..]);
      }
      InsertSorted(Sort(s[1..]), s[0]);
    }
  }

  lemma SortedDistinct(s: seq<Def>)
    requires StrictlySorted(s)
    ensures DistinctNames(s)
  {
    forall i, j | 0 <= i < j < |s| ensures s[i].name != s[j].name {
      LessIrreflexive(s[i].name);
    }
  }

  lemma {:induction false} LastOfMember(s: seq<Def>, n: string)
    ensures LastOf(s, n).Some? ==> LastOf(s, n).value in s && LastOf(s, n).value.name == n
    ensures LastOf(s, n) == None ==> forall d :: d in s ==> d.name != n
  {
    if s != [] {
      LastOfMember(s[..|s| - 1], n);
      assert s == s[..|s| - 1] + [s[|s| - 1]];
    }
  }

  /** Among distinct names the last definition is the only one. */
  lemma {:induction false} LastOfDistinct(s: seq<Def>, d: Def)
    requires DistinctNames(s) && d in s
    ensures LastOf(s, d.name) == Some(d)
  {
    LastOfMember(s, d.name);
    var e := LastOf(s, d.name).value;
    var i :| 0 <= i < |s| && s[i] == d;
    var j :| 0 <= j < |s| && s[j] == e;
    assert i == j;
  }

  /** Lists of distinct names that are permutations of one another define the same. */
  lemma PermutationDefinesSame(s: seq<Def>, t: seq<Def>, n: string)
    requires DistinctNames(s) && DistinctNames(t) && multiset(s) == multiset(t)
    ensures LastOf(s, n) == LastOf(t, n)
  {
    LastOfMember(s, n);
    LastOfMember(t, n);
    assert forall d :: d in s <==> d in multiset(s);
    assert forall d :: d in t <==> d in multiset(t);
    if LastOf(s, n).Some? {
      LastOfDistinct(t, LastOf(s, n).value);
    }
  }

  // ---------------------------------------------------------------------
  // The merge
  // ---------------------------------------------------------------------

  function Lookup(m: map<string, Def>, n: string): Option<Def> {
    if n in m then Some(m[n]) else None
  }

  /** A Python dictionary: its entries, and its keys in insertion order. */
  ghost predicate Dictionary(order: seq<string>, m: map<string, Def>) {
    && (forall i, j :: 0 <= i < j < |order| ==> order[i] != order[j])
    && (forall n :: n in order <==> n in m)
    && (forall n :: n in m ==> m[n].name == n)
  }

  function Values(order: seq<string>, m: map<string, Def>): seq<Def>
    requires forall n :: n in order ==> n in m
  {
    seq(|order|, i requires 0 <= i < |order| => m[order[i]])
  }

  lemma SortedValues(order: seq<string>, m: map<string, Def>)
    requires Dictionary(order, m)
    ensures StrictlySorted(Sort(Values(order, m)))
    ensures forall n :: LastOf(Sort(Values(order, m)), n) == Lookup(m, n)
  {
    var vs := Values(order, m);
    SortSorts(vs);
    SortedDistinct(Sort(vs));
    forall n ensures LastOf(Sort(vs), n) == Lookup(m, n) {
      PermutationDefinesSame(Sort(vs), vs, n);
      LastOfMember(vs, n);
      if n in m {
        var i :| 0 <= i < |order| && order[i] == n;
        assert vs[i] == m[n];
        LastOfDistinct(vs, m[n]);
      }
    }
  }

  method Overwrite(order: seq<string>, m: map<string, Def>, d: Def)
      returns (order': seq<string>, m': map<string, Def>)
    requires Dictionary(order, m)
    ensures Dictionary(order', m') && m' == m[d.name := d]
  {
    order' := if d.name in m then order else order + [d.name];
    m' := m[d.name := d];
  }

  /** Static definitions first, then the runtime ones over them, then sorted. */
  method Merge(runtime: seq<Def>, scanned: seq<Def>) returns (out: seq<Def>)
    ensures IsMerge(out, runtime, scanned)
  {
    var order: seq<string>, byName: map<string, Def> := [], map[];
    for i := 0 to |scanned|
      invariant Dictionary(order, byName)
      invariant forall n :: Lookup(byName, n) == LastOf(scanned[..i], n)
    {
      assert scanned[..i + 1][..i] == scanned[..i];
      order, byName := Overwrite(order, byName, scanned[i]);
    }
    assert scanned[..|scanned|] == scanned;
    for i := 0 to |runtime|
      invariant Dictionary(order, byName)
      invariant forall n :: Lookup(byName, n) == Either(LastOf(runtime[..i], n), LastOf(scanned, n))
    {
      assert runtime[..i + 1][..i] == runtime[..i];
      order, byName := Overwrite(order, byName, runtime[i]);
    }
    assert runtime[..|runtime|] == runtime;
    SortedValues(order, byName);
    out := Sort(Values(order, byName));
  }

  // ---------------------------------------------------------------------
  // Its laws
  // ---------------------------------------------------------------------

  /** A strictly sorted list is determined by what it defines. */
  lemma {:induction false} SortedUnique(a: seq<Def>, b: seq<Def>)
    requires StrictlySorted(a) && StrictlySorted(b)
    requires forall n :: LastOf(a, n) == LastOf(b, n)
    ensures a == b
  {
    SortedDistinct(a);
    SortedDistinct(b);
    if a == [] || b == [] {
      if a != [] { LastOfDistinct(a, a[0]); }
      if b != [] { LastOfDistinct(b, b[0]); }
    } else {
      HeadsAgree(a, b);
      forall n ensures LastOf(a[1..], n) == LastOf(b[1..], n) {
        LastOfTail(a, n);
        LastOfTail(b, n);
      }
      SortedUnique(a[1..], b[1..]);
      assert a == [a[0]] + a[1..] && b == [b[0]] + b[1..];
    }
  }

  lemma HeadsAgree(a: seq<Def>, b: seq<Def>)
    requires StrictlySorted(a) && StrictlySorted(b) && a != [] && b != []
    requires forall n :: LastOf(a, n) == LastOf(b, n)
    ensures a[0] == b[0]
  {
    SortedDistinct(a);
    SortedDistinct(b);
    LastOfDistinct(a, a[0]);
    LastOfDistinct(b, b[0]);
    LastOfMember(b, a[0].name);
    LastOfMember(a, b[0].name);
    var i :| 0 <= i < |b| && b[i] == a[0];
    var j :| 0 <= j < |a| && a[j] == b[0];
    LessTotal(a[0].name, b[0].name);
  }

  lemma LastOfTail(a: seq<Def>, n: string)
    requires DistinctNames(a) && a != []
    ensures LastOf(a[1..], n) == if n == a[0].name then None else LastOf(a, n)
  {
    LastOfMember(a[1..], n);
    LastOfMember(a, n);
    assert forall d :: d in a[1..] ==> d in a;
    assert forall i :: 1 <= i < |a| ==> a[i] == a[1..][i - 1];
    if n != a[0].name && LastOf(a, n).Some? {
      LastOfDistinct(a[1..], LastOf(a, n).value);
    }
  }

  /** The result is determined by the inputs, and by no more than the last definition of each name in them. */
  lemma {:induction false} MergeUnique(x: seq<Def>, y: seq<Def>, r: seq<Def>, s: seq<Def>, r': seq<Def>, s': seq<Def>)
    requires IsMerge(x, r, s) && IsMerge(y, r', s')
    requires forall n :: LastOf(r, n) == LastOf(r', n) && LastOf(s, n) == LastOf(s', n)
    ensures x == y
  {
    SortedUnique(x, y);
  }

  /** Inputs with distinct names may come in any order. */
  lemma {:induction false} MergeIgnoresOrder(x: seq<Def>, y: seq<Def>,
                                             r: seq<Def>, s: seq<Def>, r': seq<Def>, s': seq<Def>)
    requires IsMerge(x, r, s) && IsMerge(y, r', s')
    requires DistinctNames(r) && DistinctNames(r') && multiset(r) == multiset(r')
    requires DistinctNames(s) && DistinctNames(s') && multiset(s) == multiset(s')
    ensures x == y
  {
    forall n ensures LastOf(r, n) == LastOf(r', n) && LastOf(s, n) == LastOf(s', n) {
      PermutationDefinesSame(r, r', n);
      PermutationDefinesSame(s, s', n);
    }
    MergeUnique(x, y, r, s, r', s');
  }

  lemma {:induction false} MergeIdempotent(m: seq<Def>, r: seq<Def>, s: seq<Def>, again: seq<Def>)
    requires IsMerge(m, r, s) && IsMerge(again, m, m)
    ensures again == m
  {
    SortedUnique(again, m);
  }

  lemma {:induction false} MergeAssociative(a: seq<Def>, b: seq<Def>, c: seq<Def>,
                         ab: seq<Def>, bc: seq<Def>, left: seq<Def>, right: seq<Def>)
    requires IsMerge(ab, a, b) && IsMerge(bc, b, c)
    requires IsMerge(left, ab, c) && IsMerge(right, a, bc)
    ensures left == right
  {
    SortedUnique(left, right);
  }

  /** Runtime wins, and nothing that either side found is lost or invented. */
  lemma {:induction false} RuntimeWins(m: seq<Def>, r: seq<Def>, s: seq<Def>, d: Def)
    requires IsMerge(m, r, s)
    ensures d in m <==> LastOf(r, d.name) == Some(d)
                        || (LastOf(r, d.name) == None && LastOf(s, d.name) == Some(d))
  {
    SortedDistinct(m);
    LastOfMember(m, d.name);
    if d in m {
      LastOfDistinct(m, d);
    }
  }
}
