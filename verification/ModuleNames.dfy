/**
 Static discovery's naming: the dotted module name of a file from its package
 directories, and the task decorators of a function.
 */
module ModuleNames {
  import opened Options

  // ---------------------------------------------------------------------
  // Module names
  // ---------------------------------------------------------------------

  /** A directory on the way up; `package` says that it holds an `__init__.py`. */
  datatype Dir = Dir(name: string, package: bool)

  /**
   The directories above a file, the file's own first.  The last one is the top
   of the path, whose parent is itself.
   */
  type Chain = c: seq<Dir> | c != [] witness [Dir("", false)]

  /** The directory after `k` moves to the parent. */
  function Up(c: Chain, k: nat): Dir {
    if k < |c| then c[k] else c[|c| - 1]
  }

  function Join(parts: seq<string>): string {
    if parts == [] then ""
    else if |parts| == 1 then parts[0]
    else parts[0] + "." + Join(parts[1..])
  }

  function Reversed<T>(s: seq<T>): (r: seq<T>)
    ensures |r| == |s| && forall i :: 0 <= i < |s| ==> r[i] == s[|s| - 1 - i]
  {
    if s == [] then [] else Reversed(s[1..]) + [s[0]]
  }

  /** The unbroken run of package directories that ends at the file's directory. */
  ghost predicate MaximalRun(c: Chain, n: nat) {
    && n < |c| && !c[n].package
    && forall i :: 0 <= i < n ==> c[i].package
  }

  /** The loop's walk from the `k`-th directory, given up after `fuel` moves: where it stops. */
  function Walk(c: Chain, k: nat, fuel: nat): Option<nat>
    decreases fuel
  {
    if !Up(c, k).package then Some(k)
    else if fuel == 0 then None
    else Walk(c, k + 1, fuel - 1)
  }

  /**
   The walk ends, at the end of the maximal run of packages, if and only if some
   ancestor is not a package directory.  It takes as many moves as that run is
   long: with fewer it is still under way, and with all ancestors packages it is
   so after any number, as the top is its own parent.
   */
  lemma {:induction false} WalkEndsIff(c: Chain, fuel: nat)
    ensures Walk(c, 0, fuel).Some? <==> exists n :: 0 <= n <= fuel && MaximalRun(c, n)
    ensures Walk(c, 0, fuel).Some? ==> MaximalRun(c, Walk(c, 0, fuel).value)
    ensures (forall i :: 0 <= i < |c| ==> c[i].package) ==> Walk(c, 0, fuel) == None
    ensures (exists i :: 0 <= i < |c| && !c[i].package) && fuel >= |c| - 1 ==> Walk(c, 0, fuel).Some?
  {
    WalkFrom(c, 0, fuel);
  }

  lemma {:induction false} WalkFrom(c: Chain, k: nat, fuel: nat)
    requires forall i :: 0 <= i < k && i < |c| ==> c[i].package
    ensures Walk(c, k, fuel).Some? <==> exists n :: k <= n <= k + fuel && MaximalRun(c, n)
    ensures Walk(c, k, fuel).Some? ==> MaximalRun(c, Walk(c, k, fuel).value)
    ensures (forall i :: 0 <= i < |c| ==> c[i].package) ==> Walk(c, k, fuel) == None
    ensures (exists i :: 0 <= i < |c| && !c[i].package) && k + fuel >= |c| - 1 ==> Walk(c, k, fuel).Some?
    decreases fuel
  {
    if !Up(c, k).package {
      assert MaximalRun(c, k);
    } else if fuel > 0 {
      WalkFrom(c, k + 1, fuel - 1);
    }
  }

  lemma MaximalRunUnique(c: Chain, n: nat, m: nat)
    requires MaximalRun(c, n) && MaximalRun(c, m)
    ensures n == m
  {
  }

  /** The names of the first `n` directories from the top down, then the stem. */
  function PathParts(c: Chain, n: nat, stem: string): (parts: seq<string>)
    requires n <= |c|
    ensures |parts| == n + 1 && parts[n] == stem
    ensures forall i :: 0 <= i < n ==> parts[n - 1 - i] == c[i].name
  {
    if n == 0 then [stem] else [c[n - 1].name] + PathParts(c, n - 1, stem)
  }

  /** The name a file gets from a run of `n` package directories; none without one. */
  function NameFrom(c: Chain, n: nat, stem: string): Option<string>
    requires n <= |c|
  {
    if n == 0 then None else Some(Join(PathParts(c, n, stem)))
  }

  /** The loop names the file after the maximal run of package directories above it. */
  method GuessModuleName(c: Chain, stem: string) returns (r: Option<string>)
    requires exists i :: 0 <= i < |c| && !c[i].package
    ensures exists n: nat :: MaximalRun(c, n)
    ensures forall n: nat :: MaximalRun(c, n) ==> r == NameFrom(c, n, stem)
  {
    var parts: seq<string> := [];
    var current := 0;
    while c[current].package
      invariant 0 <= current < |c| && |parts| == current
      invariant forall i :: 0 <= i < current ==> c[i].package && parts[i] == c[i].name
      decreases |c| - current
    {
      parts := parts + [c[current].name];
      assert exists i :: current < i < |c| && !c[i].package;
      current := current + 1;
    }
    assert MaximalRun(c, current);
    forall n: nat | MaximalRun(c, n) ensures n == current {
      MaximalRunUnique(c, n, current);
    }
    if parts == [] {
      return None;
    }
    parts := Reversed(parts);
    parts := parts + [stem];
    assert parts == PathParts(c, current, stem);
    r := Some(Join(parts));
  }

  function Split(s: string): (r: seq<string>)
    ensures r != []
  {
    if s == "" then [""]
    else
      var rest := Split(s[1..]);
      if s[0] == '.' then [""] + rest else [[s[0]] + rest[0]] + rest[1..]
  }

  predicate NoDot(s: string) { '.' !in s }

  lemma {:induction false} SplitPlain(p: string)
    requires NoDot(p)
    ensures Split(p) == [p]
  {
    if p == "" {
    } else {
      assert NoDot(p[1..]);
      SplitPlain(p[1..]);
      assert [p[0]] + p[1..] == p;
      assert p[0] in p;
    }
  }

  lemma {:induction false} SplitAfter(p: string, rest: string)
    requires NoDot(p)
    ensures Split(p + "." + rest) == [p] + Split(rest)
  {
    var s := p + "." + rest;
    if p == "" {
      assert s[0] == '.' && s[1..] == rest;
    } else {
      assert NoDot(p[1..]);
      SplitAfter(p[1..], rest);
      assert s[1..] == p[1..] + "." + rest;
      assert p[0] in p && s[0] == p[0];
      assert [p[0]] + p[1..] == p;
    }
  }

  /** Splitting a dotted name gives its parts back, and the last part split. */
  lemma {:induction false} SplitJoin(parts: seq<string>)
    requires parts != [] && forall i :: 0 <= i < |parts| - 1 ==> NoDot(parts[i])
    ensures Split(Join(parts)) == parts[..|parts| - 1] + Split(parts[|parts| - 1])
  {
    hide Split;
    if |parts| == 1 {
      assert parts[..0] + Split(parts[0]) == Split(parts[0]);
    } else {
      var n, t := |parts| - 1, parts[1..];
      SplitJoin(t);
      SplitAfter(parts[0], Join(t));
      assert t[|t| - 1] == parts[n];
      assert parts[..n] == [parts[0]] + t[..n - 1];
      var last := Split(parts[n]);
      assert [parts[0]] + (t[..n - 1] + last) == ([parts[0]] + t[..n - 1]) + last;
    }
  }

  /**
   Where no directory name has a dot, the module name gives the directories
   back, top down, and then the stem, split at whatever dots it has.
   */
  lemma {:induction false} NameDeterminesPath(c: Chain, n: nat, stem: string)
    requires 0 < n <= |c| && forall i :: 0 <= i < n ==> NoDot(c[i].name)
    ensures Split(NameFrom(c, n, stem).value) == PathParts(c, n, stem)[..n] + Split(stem)
  {
    var parts := PathParts(c, n, stem);
    forall i | 0 <= i < n ensures NoDot(parts[i]) {
      assert parts[n - 1 - (n - 1 - i)] == c[n - 1 - i].name;
    }
    SplitJoin(parts);
  }

  // ---------------------------------------------------------------------
  // Decorators
  // ---------------------------------------------------------------------

  datatype Expr =
    | Name(id: string)
    | Attribute(value: Expr, attr: string)
    | Call(func: Expr)
    | OtherExpr

  /** `@app.task(...)` is `@app.task`, however often it is called. */
  function Peeled(e: Expr): Expr {
    if e.Call? then Peeled(e.func) else e
  }

  /** The attributes from the outermost in, then the name they hang on, if there is one. */
  function AttributeParts(e: Expr): seq<string> {
    match e
    case Attribute(value, attr) => [attr] + AttributeParts(value)
    case Name(id) => [id]
    case _ => []
  }

  /** The attribute walk of the loop. */
  method DottedParts(e: Expr) returns (parts: seq<string>)
    requires e.Attribute?
    ensures parts == AttributeParts(e)
  {
    parts := [e.attr];
    var current := e.value;
    while current.Attribute?
      invariant AttributeParts(e) == parts + AttributeParts(current)
      decreases current
    {
      parts := parts + [current.attr];
      current := current.value;
    }
    if current.Name? {
      parts := parts + [current.id];
    }
  }

  function DecoratorName(e: Expr): Option<string> {
    match e
    case Call(func) => DecoratorName(func)
    case Name(id) => Some(id)
    case Attribute(_, _) => Some(Join(Reversed(AttributeParts(e))))
    case OtherExpr => None
  }

  method ComputeDecoratorName(e: Expr) returns (r: Option<string>)
    ensures r == DecoratorName(e)
    decreases e
  {
    if e.Call? {
      r := ComputeDecoratorName(e.func);
    } else if e.Name? {
      r := Some(e.id);
    } else if e.Attribute? {
      var parts := DottedParts(e);
      r := Some(Join(Reversed(parts)));
    } else {
      r := None;
    }
  }

  /** `name.rsplit(".", 1)[-1]` */
  function ShortName(name: string): string {
    var parts := Split(name);
    parts[|parts| - 1]
  }

  /** The identifier a decorator ends in. */
  function LastIdentifier(e: Expr): Option<string> {
    match Peeled(e)
    case Name(id) => Some(id)
    case Attribute(_, attr) => Some(attr)
    case _ => None
  }

  predicate Identifiers(e: Expr) {
    match e
    case Name(id) => NoDot(id)
    case Attribute(value, attr) => NoDot(attr) && Identifiers(value)
    case Call(func) => Identifiers(func)
    case OtherExpr => true
  }

  lemma {:induction false} PartsHaveNoDot(e: Expr)
    requires Identifiers(e)
    ensures forall i :: 0 <= i < |AttributeParts(e)| ==> NoDot(AttributeParts(e)[i])
  {
    if e.Attribute? {
      PartsHaveNoDot(e.value);
    }
  }

  /** The short name of a decorator is its last identifier, through any calls around it. */
  lemma {:induction false} ShortNameIsLast(e: Expr)
    requires Identifiers(e)
    ensures DecoratorName(e).Some? <==> LastIdentifier(e).Some?
    ensures DecoratorName(e).Some? ==> Some(ShortName(DecoratorName(e).value)) == LastIdentifier(e)
  {
    match e
    case Call(func) => ShortNameIsLast(func);
    case Name(id) => SplitPlain(id);
    case Attribute(_, attr) =>
      var parts := AttributeParts(e);
      PartsHaveNoDot(e);
      SplitJoin(Reversed(parts));
      assert Reversed(parts)[|parts| - 1] == parts[0];
      SplitPlain(parts[0]);
    case OtherExpr =>
  }

  /** A function is a task when some decorator ends in `task` or `shared_task`. */
  method HasTaskDecorator(decorators: seq<Expr>) returns (r: bool)
    requires forall i :: 0 <= i < |decorators| ==> Identifiers(decorators[i])
    ensures r <==> exists i :: 0 <= i < |decorators| &&
                     LastIdentifier(decorators[i]) in {Some("shared_task"), Some("task")}
  {
    for i := 0 to |decorators|
      invariant forall k :: 0 <= k < i ==> LastIdentifier(decorators[k]) !in {Some("shared_task"), Some("task")}
    {
      var name := ComputeDecoratorName(decorators[i]);
      ShortNameIsLast(decorators[i]);
      if name == None {
        continue;
      }
      if ShortName(name.value) in {"shared_task", "task"} {
        return true;
      }
    }
    return false;
  }
}
