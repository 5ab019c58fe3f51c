/**
 Telling from the command line whether this process is a Celery worker: the
 launcher in front of `celery`, then Celery's global options, then the
 subcommand.
 */
module Launcher {

  const WITH_VALUE: set<string> :=
    {"-A", "--app", "-b", "--broker", "--result-backend", "--loader", "--config", "--workdir"}

  const CELERY: set<string> := {"celery", "celery.exe"}

  const WRAPPERS: set<string> :=
    {"uv", "uv.exe", "pipx", "pipx.exe", "poetry", "poetry.exe",
     "hatch", "hatch.exe", "rye", "rye.exe", "pdm", "pdm.exe"}

  predicate Dashed(s: string) { s != "" && s[0] == '-' }

  /** `Path(p).name`: the last component that is neither empty nor `.`. */
  function BaseName(p: string): string {
    LastComponent(p, "", "")
  }

  /** `last` is the name so far, `part` the component being read. */
  function LastComponent(p: string, last: string, part: string): string {
    var kept := if part == "" || part == "." then last else part;
    if p == "" then kept
    else if p[0] == '/' then LastComponent(p[1..], kept, "")
    else LastComponent(p[1..], last, part + [p[0]])
  }

  predicate IsPython(name: string) { "python" <= name || "pypy" <= name }

  /** The scan of what follows `celery`. */
  function Scan(rest: seq<string>): bool {
    if rest == [] then false
    else if rest[0] in WITH_VALUE then (if |rest| == 1 then false else Scan(rest[2..]))
    else if Dashed(rest[0]) then Scan(rest[1..])
    else rest[0] == "worker"
  }

  method ArgvHasWorkerSubcommand(remaining: seq<string>) returns (r: bool)
    ensures r == Scan(remaining)
  {
    var index := 0;
    while index < |remaining|
      invariant 0 <= index <= |remaining| + 1
      invariant Scan(remaining) == if index < |remaining| then Scan(remaining[index..]) else false
    {
      var arg := remaining[index];
      if arg in WITH_VALUE {
        assert index + 2 < |remaining| ==> remaining[index..][2..] == remaining[index + 2..];
        index := index + 2;
        continue;
      }
      if Dashed(arg) {
        assert remaining[index..][1..] == remaining[index + 1..];
        index := index + 1;
        continue;
      }
      return arg == "worker";
    }
    return false;
  }

  /** The place of the first `celery` token, or the end. */
  function FirstCelery(argv: seq<string>): (i: nat)
    ensures i <= |argv| && (i < |argv| ==> argv[i] in CELERY)
    ensures forall k :: 0 <= k < i ==> argv[k] !in CELERY
  {
    if argv == [] || argv[0] in CELERY then 0
    else
      assert forall k :: 1 <= k < |argv| ==> argv[k] == argv[1..][k - 1];
      FirstCelery(argv[1..]) + 1
  }

  /** What the wrapper branch amounts to: the scan after the first `celery` token. */
  function AfterFirstCelery(args: seq<string>): bool {
    var i := FirstCelery(args);
    i < |args| && Scan(args[i + 1..])
  }

  lemma {:induction false} FirstCeleryAt(argv: seq<string>, i: nat)
    requires i < |argv| && argv[i] in CELERY && forall k :: 0 <= k < i ==> argv[k] !in CELERY
    ensures FirstCelery(argv) == i
  {
  }

  lemma {:induction false} NoCelery(argv: seq<string>)
    requires forall k :: 0 <= k < |argv| ==> argv[k] !in CELERY
    ensures FirstCelery(argv) == |argv|
  {
  }

  /**
   Below a wrapper the loop looks for `celery` or for `python -m celery`; the
   contract says that the second arm never changes the answer.
   */
  method WrapperScan(argv: seq<string>) returns (r: bool)
    requires argv != []
    ensures r == AfterFirstCelery(argv[1..])
  {
    for i := 1 to |argv|
      invariant forall k :: 0 <= k < i - 1 ==> argv[1..][k] !in CELERY
    {
      var arg := argv[i];
      if arg in CELERY {
        FirstCeleryAt(argv[1..], i - 1);
        assert argv[1..][i..] == argv[i + 1..];
        r := ArgvHasWorkerSubcommand(argv[i + 1..]);
        return;
      }
      if IsPython(BaseName(arg)) && |argv| > i + 2 && argv[i + 1] == "-m" && argv[i + 2] == "celery" {
        FirstCeleryAt(argv[1..], i + 1);
        assert argv[1..][i + 2..] == argv[i + 3..];
        r := ArgvHasWorkerSubcommand(argv[i + 3..]);
        return;
      }
    }
    NoCelery(argv[1..]);
    return false;
  }

  function IsWorkerInvocation(argv: seq<string>): bool {
    if argv == [] then false
    else
      var prog := BaseName(argv[0]);
      if prog in CELERY then Scan(argv[1..])
      else if IsPython(prog) && |argv| > 2 && argv[1] == "-m" && argv[2] == "celery" then Scan(argv[3..])
      else if prog in {"uvx", "uvx.exe"} && |argv| > 1 && argv[1] == "celery" then Scan(argv[2..])
      else if prog in WRAPPERS then AfterFirstCelery(argv[1..])
      else false
  }

  // ---------------------------------------------------------------------
  // Detection undoes rendering
  // ---------------------------------------------------------------------

  /** Celery's global options that take their value from the next token. */
  predicate TakesValue(option: string) {
    option in {"-A", "--app", "-b", "--broker", "--result-backend", "--loader", "--config", "--workdir"}
  }

  /** A global option: with a value in the next token, or a flag or attached value in one token. */
  datatype GlobalOption = Separate(option: string, value: string) | OneToken(token: string) {
    predicate Valid() {
      match this
      case Separate(option, _) => TakesValue(option)
      case OneToken(token) => "-" <= token && !TakesValue(token)
    }

    function Tokens(): seq<string> {
      match this
      case Separate(option, value) => [option, value]
      case OneToken(token) => [token]
    }
  }

  function Render(options: seq<GlobalOption>): seq<string> {
    if options == [] then [] else options[0].Tokens() + Render(options[1..])
  }

  lemma {:induction false} ScanRendered(options: seq<GlobalOption>, sub: string, rest: seq<string>)
    requires forall i :: 0 <= i < |options| ==> options[i].Valid()
    requires !Dashed(sub)
    ensures Scan(Render(options) + [sub] + rest) == (sub == "worker")
  {
    if options == [] {
      assert Render(options) + [sub] + rest == [sub] + rest;
      assert ([sub] + rest)[0] == sub && sub !in WITH_VALUE;
    } else {
      var tail := Render(options[1..]) + [sub] + rest;
      var all := Render(options) + [sub] + rest;
      var tokens := options[0].Tokens();
      assert options[0].Valid();
      assert all == tokens + tail;
      assert all[|tokens|..] == tail;
      ScanRendered(options[1..], sub, rest);
    }
  }

  // ---------------------------------------------------------------------
  // Program paths
  // ---------------------------------------------------------------------

  /** What a path may end in after its last name: empty and `.` components. */
  predicate Trailing(t: string) {
    t == "" || (t[0] == '/' && (Trailing(t[1..]) || (|t| > 1 && t[1] == '.' && Trailing(t[2..]))))
  }

  /** A program by its name, with any directory before it. */
  datatype Program = Program(dir: string, name: string, tail: string) {
    predicate Valid() {
      && (dir == "" || dir[|dir| - 1] == '/') && Trailing(tail)
      && '/' !in name && name != "" && name != "."
    }

    function Path(): string { dir + name + tail }
  }

  function Kept(last: string, part: string): string {
    if part == "" || part == "." then last else part
  }

  lemma {:induction false} ReadDir(dir: string, rest: string, last: string, part: string) returns (l: string)
    requires dir != "" && dir[|dir| - 1] == '/'
    ensures LastComponent(dir + rest, last, part) == LastComponent(rest, l, "")
  {
    assert (dir + rest)[1..] == dir[1..] + rest;
    if |dir| == 1 {
      l := Kept(last, part);
    } else if dir[0] == '/' {
      l := ReadDir(dir[1..], rest, Kept(last, part), "");
    } else {
      l := ReadDir(dir[1..], rest, last, part + [dir[0]]);
    }
  }

  lemma {:induction false} ReadName(name: string, rest: string, last: string, part: string)
    requires '/' !in name
    ensures LastComponent(name + rest, last, part) == LastComponent(rest, last, part + name)
  {
    if name == "" {
      assert name + rest == rest && part + name == part;
    } else {
      assert name[0] in name;
      assert (name + rest)[1..] == name[1..] + rest;
      ReadName(name[1..], rest, last, part + [name[0]]);
      assert part + [name[0]] + name[1..] == part + name;
    }
  }

  lemma {:induction false} ReadTrailing(t: string, last: string, part: string)
    requires Trailing(t)
    ensures LastComponent(t, last, part) == Kept(last, part)
  {
    if t == "" {
    } else if Trailing(t[1..]) {
      ReadTrailing(t[1..], Kept(last, part), "");
    } else {
      ReadTrailing(t[2..], Kept(last, part), ".");
      assert t[1..][1..] == t[2..] && "" + [t[1]] == ".";
    }
  }

  /** The base name of a path is the name of the program, whatever directory it is in. */
  lemma {:induction false} BaseNameOf(p: Program)
    requires p.Valid()
    ensures BaseName(p.Path()) == p.name
  {
    var l := "";
    assert p.Path() == p.dir + (p.name + p.tail);
    if p.dir != "" {
      l := ReadDir(p.dir, p.name + p.tail, "", "");
    } else {
      assert p.Path() == p.name + p.tail;
    }
    ReadName(p.name, p.tail, l, "");
    assert "" + p.name == p.name;
    ReadTrailing(p.tail, l, p.name);
  }

  lemma {:induction false} BaseNameIs(dir: string, name: string)
    requires '/' !in name && name != "" && name != "."
    ensures BaseName(name) == name && BaseName(dir + "/" + name) == name
  {
    BaseNameOf(Program("", name, ""));
    assert Program("", name, "").Path() == name;
    BaseNameOf(Program(dir + "/", name, ""));
    assert Program(dir + "/", name, "").Path() == dir + "/" + name;
  }

  lemma {:induction false} TrailingIgnored(a: string, t: string, last: string, part: string)
    requires Trailing(t)
    ensures LastComponent(a + t, last, part) == LastComponent(a, last, part)
  {
    if a == "" {
      assert a + t == t;
      ReadTrailing(t, last, part);
    } else {
      assert (a + t)[1..] == a[1..] + t;
      if a[0] == '/' {
        TrailingIgnored(a[1..], t, Kept(last, part), "");
      } else {
        TrailingIgnored(a[1..], t, last, part + [a[0]]);
      }
    }
  }

  lemma {:induction false} TrailingConcat(a: string, b: string)
    requires Trailing(a) && Trailing(b)
    ensures Trailing(a + b)
  {
    if a == "" {
      assert a + b == b;
    } else if Trailing(a[1..]) {
      TrailingConcat(a[1..], b);
      assert (a + b)[1..] == a[1..] + b;
    } else {
      TrailingConcat(a[2..], b);
      assert (a + b)[2..] == a[2..] + b;
    }
  }

  lemma {:induction false} LastSlash(path: string) returns (dir: string, name: string)
    ensures path == dir + name && '/' !in name && (dir == "" || dir[|dir| - 1] == '/')
  {
    if path == "" || path[|path| - 1] == '/' {
      dir, name := path, "";
    } else {
      dir, name := LastSlash(path[..|path| - 1]);
      name := name + [path[|path| - 1]];
    }
  }

  lemma NoName(name: string)
    requires name == "" || name == "."
    ensures BaseName(name) == ""
  {
    assert "."[1..] == "" && "" + ["."[0]] == ".";
  }

  /** Every path with a base name is a program of that name in some directory. */
  lemma {:induction false} PathParses(path: string) returns (p: Program)
    requires BaseName(path) != ""
    ensures p.Valid() && p.Path() == path && p.name == BaseName(path)
    decreases |path|
  {
    var dir, name := LastSlash(path);
    if name != "" && name != "." {
      p := Program(dir, name, "");
      assert p.Path() == path;
      BaseNameOf(p);
    } else {
      assert dir == "" ==> path == name;
      NoName(name);
      var up, t := dir[..|dir| - 1], "/" + name;
      assert path == up + t;
      assert t[1..] == name && (name == "." ==> t[1] == '.' && t[2..] == "");
      assert Trailing("");
      TrailingIgnored(up, t, "", "");
      p := PathParses(up);
      TrailingConcat(p.tail, t);
      p := Program(p.dir, p.name, p.tail + t);
    }
  }

  /** How a celery command line starts: up to and including the `celery` token. */
  datatype Form =
    | Direct(program: Program)
    | PythonM(program: Program)
    | Uvx(program: Program)
    | Wrapped(program: Program, between: seq<string>, celery: string)
  {
    predicate Valid() {
      && program.Valid()
      && match this
         case Direct(p) => p.name in {"celery", "celery.exe"}
         case PythonM(p) => "python" <= p.name || "pypy" <= p.name
         case Uvx(p) => p.name in {"uvx", "uvx.exe"}
         case Wrapped(p, between, celery) =>
           && p.name in {"uv", "pipx", "poetry", "hatch", "rye", "pdm",
                         "uv.exe", "pipx.exe", "poetry.exe", "hatch.exe", "rye.exe", "pdm.exe"}
           && celery in {"celery", "celery.exe"}
           && forall i :: 0 <= i < |between| ==> between[i] !in {"celery", "celery.exe"}
    }

    function Tokens(): seq<string> {
      match this
      case Direct(p) => [p.Path()]
      case PythonM(p) => [p.Path(), "-m", "celery"]
      case Uvx(p) => [p.Path(), "celery"]
      case Wrapped(p, between, celery) => [p.Path()] + between + [celery]
    }
  }

  /** No program name belongs to two forms. */
  lemma NamesApart(name: string)
    ensures name in CELERY ==> !IsPython(name)
    ensures name in {"uvx", "uvx.exe"} ==> name !in CELERY && !IsPython(name) && name !in WRAPPERS
    ensures name in WRAPPERS ==> name !in CELERY && !IsPython(name)
  {
    assert "python"[0] == 'p' && "python"[1] == 'y' && "pypy"[0] == 'p' && "pypy"[1] == 'y';
  }

  /** The launcher's tokens hand over to the scan of what follows them. */
  lemma FormScans(form: Form, tail: seq<string>)
    requires form.Valid()
    ensures IsWorkerInvocation(form.Tokens() + tail) == Scan(tail)
  {
    BaseNameOf(form.program);
    var path := form.program.Path();
    match form
    case Direct(_) => DirectScans(path, tail);
    case PythonM(_) => PythonScans(path, tail);
    case Uvx(_) => UvxScans(path, tail);
    case Wrapped(_, between, celery) => WrappedScans(path, between, celery, tail);
  }

  lemma DirectScans(path: string, tail: seq<string>)
    requires BaseName(path) in CELERY
    ensures IsWorkerInvocation([path] + tail) == Scan(tail)
  {
    assert ([path] + tail)[1..] == tail;
  }

  lemma PythonScans(path: string, tail: seq<string>)
    requires IsPython(BaseName(path))
    ensures IsWorkerInvocation([path, "-m", "celery"] + tail) == Scan(tail)
  {
    NamesApart(BaseName(path));
    assert ([path, "-m", "celery"] + tail)[3..] == tail;
  }

  lemma UvxScans(path: string, tail: seq<string>)
    requires BaseName(path) in {"uvx", "uvx.exe"}
    ensures IsWorkerInvocation([path, "celery"] + tail) == Scan(tail)
  {
    NamesApart(BaseName(path));
    assert ([path, "celery"] + tail)[2..] == tail;
  }

  lemma {:induction false} WrappedScans(path: string, between: seq<string>, celery: string, tail: seq<string>)
    requires BaseName(path) in WRAPPERS && celery in CELERY
    requires forall i :: 0 <= i < |between| ==> between[i] !in CELERY
    ensures IsWorkerInvocation([path] + between + [celery] + tail) == Scan(tail)
  {
    var name := BaseName(path);
    NamesApart(name);
    var argv := [path] + between + [celery] + tail;
    var args := between + [celery] + tail;
    assert argv[0] == path && argv[1..] == args;
    assert name !in {"uvx", "uvx.exe"};
    FirstCeleryAt(args, |between|);
    assert args[|between| + 1..] == tail;
  }

  /**
   For any global options, values called `worker` included, and any subcommand
   that is no option, under every supported launcher, the process is taken for
   a worker exactly when the subcommand is `worker`.
   */
  lemma {:induction false} DetectionUndoesRendering(form: Form, options: seq<GlobalOption>,
                                                    sub: string, rest: seq<string>)
    requires form.Valid() && !Dashed(sub)
    requires forall i :: 0 <= i < |options| ==> options[i].Valid()
    ensures IsWorkerInvocation(form.Tokens() + (Render(options) + [sub] + rest)) == (sub == "worker")
  {
    ScanRendered(options, sub, rest);
    FormScans(form, Render(options) + [sub] + rest);
  }

  /** A command line that a launcher form, valid global options and a subcommand make up. */
  predicate IsCommand(argv: seq<string>, form: Form, options: seq<GlobalOption>, sub: string, rest: seq<string>) {
    && form.Valid() && (forall i :: 0 <= i < |options| ==> options[i].Valid())
    && argv == form.Tokens() + (Render(options) + [sub] + rest)
  }

  ghost predicate IsWorkerCommand(argv: seq<string>) {
    exists form, options, rest :: IsCommand(argv, form, options, "worker", rest)
  }

  /** Whatever the scan accepts are global options followed by `worker`. */
  lemma {:induction false} ScanParses(tokens: seq<string>) returns (options: seq<GlobalOption>, rest: seq<string>)
    requires Scan(tokens)
    ensures forall i :: 0 <= i < |options| ==> options[i].Valid()
    ensures tokens == Render(options) + ["worker"] + rest
  {
    if tokens[0] in WITH_VALUE {
      options, rest := ScanParses(tokens[2..]);
      options := [Separate(tokens[0], tokens[1])] + options;
    } else if Dashed(tokens[0]) {
      options, rest := ScanParses(tokens[1..]);
      options := [OneToken(tokens[0])] + options;
    } else {
      options, rest := [], tokens[1..];
    }
  }

  /** Whatever the dispatch accepts starts with a launcher form, and the scan accepts what follows. */
  lemma DispatchParses(argv: seq<string>) returns (form: Form, tail: seq<string>)
    requires IsWorkerInvocation(argv)
    ensures form.Valid() && argv == form.Tokens() + tail && Scan(tail)
  {
    hide BaseName, Scan, Trailing;
    var prog := BaseName(argv[0]);
    NamesApart(prog);
    assert prog != "";
    var p := PathParses(argv[0]);
    if prog in CELERY {
      form, tail := Direct(p), argv[1..];
    } else if IsPython(prog) {
      form, tail := PythonM(p), argv[3..];
    } else if prog in {"uvx", "uvx.exe"} {
      form, tail := Uvx(p), argv[2..];
    } else {
      var args := argv[1..];
      var i := FirstCelery(args);
      form, tail := Wrapped(p, args[..i], args[i]), args[i + 1..];
      assert argv == [argv[0]] + args && args == args[..i] + [args[i]] + args[i + 1..];
    }
  }

  /**
   Detection is exactly the inverse of rendering: it accepts the command lines
   that some supported launcher, some global options and the subcommand
   `worker` make up, and no others.
   */
  lemma {:induction false} WorkerCommandIff(argv: seq<string>)
    ensures IsWorkerInvocation(argv) <==> IsWorkerCommand(argv)
  {
    if IsWorkerInvocation(argv) {
      var form, tail := DispatchParses(argv);
      var options, rest := ScanParses(tail);
      assert IsCommand(argv, form, options, "worker", rest);
    }
    if IsWorkerCommand(argv) {
      var form, options, rest :| IsCommand(argv, form, options, "worker", rest);
      DetectionUndoesRendering(form, options, "worker", rest);
    }
  }

  method IsCeleryWorkerInvocation(argv: seq<string>) returns (r: bool)
    ensures r <==> IsWorkerCommand(argv)
  {
    WorkerCommandIff(argv);
    if argv == [] {
      return false;
    }
    var prog := BaseName(argv[0]);
    if prog in CELERY {
      r := ArgvHasWorkerSubcommand(argv[1..]);
      return;
    }
    if IsPython(prog) && |argv| > 2 && argv[1] == "-m" && argv[2] == "celery" {
      r := ArgvHasWorkerSubcommand(argv[3..]);
      return;
    }
    if prog in {"uvx", "uvx.exe"} && |argv| > 1 && argv[1] == "celery" {
      r := ArgvHasWorkerSubcommand(argv[2..]);
      return;
    }
    if prog in WRAPPERS {
      r := WrapperScan(argv);
      return;
    }
    return false;
  }
}
