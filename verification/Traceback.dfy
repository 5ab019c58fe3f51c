/** Cutting a traceback to its tail, where the innermost call and the exception line are. */
module Traceback {
  import opened PySlices

  const MARKER: string := "[... traceback truncated ...]\n"
  const MAX_CHARS := 4096
  const RECONCILE_CHARS := 2000

  function Tail(t: string, limit: int): string {
    if |t| <= limit then t else MARKER + SliceFrom(t, -limit)
  }

  /** The last `n` characters, or all of them. */
  function Last(t: string, n: nat): string {
    if n <= |t| then t[|t| - n..] else t
  }

  /** The result ends in what the original ends in. */
  lemma KeepsTheEnd(t: string, limit: int)
    requires limit > 0
    ensures Last(Tail(t, limit), if limit < |t| then limit else |t|) == Last(t, limit)
    ensures Tail(t, limit) == if |t| <= limit then t else "[... traceback truncated ...]\n" + Last(t, limit)
  {
    if |t| > limit {
      var r := MARKER + SliceFrom(t, -limit);
      assert r[|r| - limit..] == SliceFrom(t, -limit);
    }
  }

  lemma SuffixOfConcat(a: string, b: string, m: nat)
    requires m <= |b|
    ensures (a + b)[|a + b| - m..] == b[|b| - m..]
  {
  }

  /** Tails compose: cutting twice is cutting once to the smaller limit, despite the marker. */
  lemma TailsCompose(t: string, n: int, m: int)
    requires 0 < m <= n
    ensures Tail(Tail(t, n), m) == Tail(t, m)
  {
    if |t| > n {
      var once := SliceFrom(t, -n);
      SuffixOfConcat(MARKER, once, m);
      assert once == t[|t| - n..] && once[n - m..] == t[|t| - m..];
      assert SliceFrom(MARKER + once, -m) == SliceFrom(t, -m);
    }
  }

  /** What the event keeps and what a reconcile result keeps agree. */
  lemma EventThenReconcile(t: string)
    ensures MAX_CHARS == 4096 && RECONCILE_CHARS == 2000
    ensures Tail(Tail(t, MAX_CHARS), RECONCILE_CHARS) == Tail(t, RECONCILE_CHARS)
    ensures Tail(Tail(t, MAX_CHARS), MAX_CHARS) == Tail(t, MAX_CHARS)
    ensures Tail(Tail(t, RECONCILE_CHARS), RECONCILE_CHARS) == Tail(t, RECONCILE_CHARS)
  {
    TailsCompose(t, MAX_CHARS, RECONCILE_CHARS);
    TailsCompose(t, MAX_CHARS, MAX_CHARS);
    TailsCompose(t, RECONCILE_CHARS, RECONCILE_CHARS);
  }

  /** The documented length bound, `limit` plus the marker, holds exactly for these inputs: `[-0:]` cuts nothing. */
  lemma LengthBoundIff(t: string, limit: int)
    ensures |Tail(t, limit)| <= limit + |MARKER| <==> limit > 0 || (limit == 0 && t == "")
  {
  }

  /** With limit 0 a non-empty traceback is kept whole, behind the marker. */
  lemma ZeroKeepsEverything(t: string)
    requires t != ""
    ensures Tail(t, 0) == "[... traceback truncated ...]\n" + t
  {
    assert t[0..] == t;
  }
}
