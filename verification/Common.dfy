/** An optional value: Python's `None` or something. */
module Options {
  datatype Option<+T> = None | Some(value: T)
}

/** Python's one-sided slices, whose index counts from the end when it is negative. */
module PySlices {

  /** `s[:end]` */
  function SliceTo<T>(s: seq<T>, end: int): (r: seq<T>)
    ensures r <= s
    ensures |r| == if end < 0 then (if |s| + end < 0 then 0 else |s| + end)
                   else if end < |s| then end else |s|
  {
    if end >= |s| then s
    else if end >= 0 then s[..end]
    else if |s| + end >= 0 then s[..|s| + end]
    else []
  }

  /** `s[start:]` */
  function SliceFrom<T>(s: seq<T>, start: int): (r: seq<T>)
    ensures |r| <= |s| && r == s[|s| - |r|..]
    ensures |r| == if start < 0 then (if -start < |s| then -start else |s|)
                   else if start < |s| then |s| - start else 0
  {
    if start >= |s| then []
    else if start >= 0 then s[start..]
    else if |s| + start >= 0 then s[|s| + start..]
    else s
  }
}

module Sets {
  lemma SubsetSize<T>(a: set<T>, b: set<T>)
    requires a <= b
    ensures |a| <= |b|
  {
    assert b == a + (b - a);
  }
}
