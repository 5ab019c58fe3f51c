/**
 Retrying one task: which name, arguments and priority are sent, and when the
 retry is refused instead.  `send_task` calls are recorded; what the result
 backend holds and how the calls end are inputs.
 */
module Retry {
  import opened Options

  /** An argument value, told apart by an identity. */
  datatype Value = Value(id: nat)

  /** A value read from an attribute or a dictionary: missing, a string, or something else. */
  datatype PyVal = Absent | Str(s: string) | Other(truthy: bool) {
    predicate Truthy() { (Str? && s != "") || (Other? && truthy) }
  }

  datatype Info = NotADict | Dict(name: PyVal, task: PyVal)

  datatype StoredArgs = Sequence(items: seq<Value>) | NoSequence
  datatype StoredKwargs = Mapping(items: map<string, Value>) | NoMapping

  /** What the result backend says about a task; it may also not answer. */
  datatype Backend =
    | Answers(name: PyVal, info: Info, args: StoredArgs, kwargs: StoredKwargs)
    | Raises(timeout: bool)

  /** How `send_task` ends: with a task id, without one, or by raising. */
  datatype SendEnds = Sent(id: Option<string>) | SendRaises(timeout: bool)

  // ---------------------------------------------------------------------
  // Names
  // ---------------------------------------------------------------------

  /** A display placeholder is not a name to publish under. */
  predicate Placeholder(name: string) {
    "<unknown" <= name || name == "unknown"
  }

  predicate Publishable(name: string) {
    name != "" && !Placeholder(name)
  }

  /** The backend's name for the task, if it has one. */
  function ResolveTaskName(name: PyVal, info: Info): Option<string> {
    if name.Str? && name.s != "" then Some(name.s)
    else if info.Dict? then
      var candidate := if info.name.Truthy() then info.name else info.task;
      if candidate.Str? then Some(candidate.s) else None
    else None
  }

  /** What the event mapper is given as a task: nothing, a string, or an object with name attributes. */
  datatype TaskArg = NoTask | NameOnly(s: string) | TaskObject(name: Option<string>)

  function Strip(s: string): string {
    StripRight(StripLeft(s))
  }

  predicate IsSpace(c: char) {
    c in {' ', '\t', '\n', '\r', 11 as char, 12 as char}
  }

  function StripLeft(s: string): string {
    if s != "" && IsSpace(s[0]) then StripLeft(s[1..]) else s
  }

  function StripRight(s: string): string {
    if s != "" && IsSpace(s[|s| - 1]) then StripRight(s[..|s| - 1]) else s
  }

  function Short(taskId: string): string {
    if |taskId| <= 8 then taskId else taskId[..8]
  }

  /** The name an event is reported under; absent strings are empty. */
  function MapperName(task: TaskArg, hint: string, taskId: string, queue: string): string {
    if task.NameOnly? && task.s != "" then task.s
    else if task.TaskObject? && task.name.Some? && task.name.value != "" then task.name.value
    else if Strip(hint) != "" then Strip(hint)
    else if queue != "" && Short(taskId) != "" then "<unknown:" + queue + ":" + Short(taskId) + ">"
    else if queue != "" then "<unknown:" + queue + ">"
    else if Short(taskId) != "" then "<unknown:" + Short(taskId) + ">"
    else "<unknown>"
  }

  /** Nothing the mapper was given names the task. */
  predicate Nameless(task: TaskArg, hint: string) {
    && (task.NameOnly? ==> task.s == "")
    && (task.TaskObject? && task.name.Some? ==> task.name.value == "")
    && Strip(hint) == ""
  }

  // ---------------------------------------------------------------------
  // Arguments
  // ---------------------------------------------------------------------

  /** Each half is the override or what the backend stored; without a source for both, nothing. */
  function ResolveArgs(args: StoredArgs, kwargs: StoredKwargs,
                       overrideArgs: Option<seq<Value>>, overrideKwargs: Option<map<string, Value>>)
      : Option<(seq<Value>, map<string, Value>)>
  {
    var argsResolvable := overrideArgs.Some? || args.Sequence?;
    var kwargsResolvable := overrideKwargs.Some? || kwargs.Mapping?;
    if !argsResolvable || !kwargsResolvable then None
    else Some((if overrideArgs.Some? then overrideArgs.value else args.items,
               if overrideKwargs.Some? then overrideKwargs.value else kwargs.items))
  }

  // ---------------------------------------------------------------------
  // Priorities
  // ---------------------------------------------------------------------

  datatype RawPriority = NoPriority | Bool(b: bool) | Int(n: int) | Label(s: string) | OtherRaw

  function Lower(s: string): string {
    seq(|s|, i requires 0 <= i < |s| =>
      if 'A' <= s[i] <= 'Z' then (s[i] as int - 'A' as int + 'a' as int) as char else s[i])
  }

  const AMQP_LABELS: map<string, int> := map["critical" := 9, "high" := 6, "normal" := 3, "low" := 0]
  const REDIS_LABELS: map<string, int> := map["critical" := 0, "high" := 3, "normal" := 6, "low" := 9]

  function CoercePriority(raw: RawPriority, redis: bool): (r: Option<int>)
    ensures r.Some? ==> 0 <= r.value <= 255
  {
    match raw
    case Int(n) => if 0 <= n <= 255 then Some(n) else None
    case Label(s) =>
      var labels := if redis then REDIS_LABELS else AMQP_LABELS;
      var named := Lower(Strip(s));
      if named in labels then Some(labels[named]) else None
    case _ => None
  }

  /** AMQP serves large numbers first and Redis small ones; a label ranks the same on both. */
  lemma LabelsRankAlike(a: string, b: string)
    ensures var ra, rb := CoercePriority(Label(a), true), CoercePriority(Label(b), true);
            var qa, qb := CoercePriority(Label(a), false), CoercePriority(Label(b), false);
            && (ra.Some? <==> qa.Some?)
            && (ra.Some? && rb.Some? ==> (ra.value < rb.value <==> qa.value > qb.value))
  {
    LabelsMirror(a);
    LabelsMirror(b);
  }

  lemma LabelsMirror(a: string)
    ensures var r, q := CoercePriority(Label(a), true), CoercePriority(Label(a), false);
            (r.Some? <==> q.Some?) && (r.Some? ==> r.value + q.value == 9)
  {
  }

  // ---------------------------------------------------------------------
  // One retry
  // ---------------------------------------------------------------------

  /** One `send_task` call. */
  datatype Send = Send(name: string, args: seq<Value>, kwargs: map<string, Value>,
                       eta: Option<int>, priority: Option<int>)

  /** What the operator asked for. */
  datatype Request = Request(
    taskId: string,
    taskName: Option<string>,
    overrideArgs: Option<seq<Value>>,
    overrideKwargs: Option<map<string, Value>>,
    priority: RawPriority)

  datatype Refusal = NoName | NoArgs | NoTaskId

  datatype IoResult =
    | Retried(name: string, newTaskId: string, priority: Option<int>)
    | Refused(why: Refusal)
    | Raised(timeout: bool)

  /** The name to publish under: the supplied one if it can be, else the backend's if it can be. */
  function ChosenName(taskName: Option<string>, b: Backend): Option<string>
    requires b.Answers?
  {
    if taskName.Some? && Publishable(taskName.value) then taskName
    else
      var n := ResolveTaskName(b.name, b.info);
      if n.Some? && Publishable(n.value) then n else None
  }

  /** The calls a retry makes. */
  function Sends(q: Request, eta: Option<int>, redis: bool, b: Backend): seq<Send> {
    if b.Raises? then []
    else
      var n := ChosenName(q.taskName, b);
      var a := ResolveArgs(b.args, b.kwargs, q.overrideArgs, q.overrideKwargs);
      if n == None || a == None then []
      else [Send(n.value, a.value.0, a.value.1, eta, CoercePriority(q.priority, redis))]
  }

  function IoEnds(q: Request, eta: Option<int>, redis: bool, b: Backend, ends: SendEnds): IoResult {
    if b.Raises? then Raised(b.timeout)
    else if ChosenName(q.taskName, b) == None then Refused(NoName)
    else if Sends(q, eta, redis, b) == [] then Refused(NoArgs)
    else
      match ends
      case SendRaises(timeout) => Raised(timeout)
      case Sent(None) => Refused(NoTaskId)
      case Sent(Some(id)) =>
        if id == "" then Refused(NoTaskId)
        else Retried(ChosenName(q.taskName, b).value, id, CoercePriority(q.priority, redis))
  }

  datatype Status = Success | Failed

  /** The dictionary of a command result, as far as a retry or a bulk retry reads it. */
  datatype Details = Details(indeterminate: bool, newTaskId: Option<string>)

  datatype CommandResult = CommandResult(status: Status, error: Option<string>, details: Option<Details>)

  function Definite(error: string): CommandResult { CommandResult(Failed, Some(error), None) }

  const INDETERMINATE := CommandResult(Failed, Some("retry: INDETERMINATE"), Some(Details(true, None)))

  /** The wait for the offloaded call: it ends in time, or times out before or after the call started. */
  datatype Wait = InTime | TimesOutRunning | TimesOutQueued

  datatype Eta = NoEta | At(when: int) | Invalid

  /** Everything outside a retry that it depends on. */
  datatype World = World(redis: bool, backend: Backend, ends: SendEnds, wait: Wait)

  function EtaOf(eta: Eta): Option<int> { if eta.At? then Some(eta.when) else None }

  /** The `send_task` calls of one retry, whenever its function gets to make them. */
  function ActionSends(q: Request, eta: Eta, w: World): seq<Send> {
    if eta.Invalid? || w.wait == TimesOutQueued then []
    else Sends(q, EtaOf(eta), w.redis, w.backend)
  }

  function ActionResult(q: Request, eta: Eta, w: World): CommandResult {
    if eta.Invalid? then Definite("invalid eta")
    else if w.wait != InTime then INDETERMINATE
    else
      match IoEnds(q, EtaOf(eta), w.redis, w.backend, w.ends)
      case Retried(_, id, _) => CommandResult(Success, None, Some(Details(false, Some(id))))
      case Refused(_) => Definite("refused")
      case Raised(timeout) => if timeout then INDETERMINATE else Definite("send_task failed")
  }

  /** The Celery application; `sent` records its `send_task` calls by attempt. */
  class CeleryApp {
    var sent: seq<Send>

    constructor ()
      ensures sent == []
    {
      sent := [];
    }

    method DoRetryIo(q: Request, eta: Option<int>, redis: bool, b: Backend, ends: SendEnds) returns (r: IoResult)
      modifies this
      ensures sent == old(sent) + Sends(q, eta, redis, b)
      ensures r == IoEnds(q, eta, redis, b, ends)
    {
      var priority := CoercePriority(q.priority, redis);
      if b.Raises? {
        return Raised(b.timeout);
      }
      var supplied := q.taskName;
      if supplied.Some? && (supplied.value == "" || "<unknown" <= supplied.value || supplied.value == "unknown") {
        supplied := None;
      }
      var name := if supplied.Some? then supplied else ResolveTaskName(b.name, b.info);
      if name == None || name.value == "" || "<unknown" <= name.value || name.value == "unknown" {
        return Refused(NoName);
      }
      var resolved := ResolveArgs(b.args, b.kwargs, q.overrideArgs, q.overrideKwargs);
      if resolved == None {
        return Refused(NoArgs);
      }
      var (args, kwargs) := resolved.value;
      sent := sent + [Send(name.value, args, kwargs, eta, priority)];
      match ends {
        case SendRaises(timeout) => r := Raised(timeout);
        case Sent(id) =>
          if id == None || id.value == "" {
            return Refused(NoTaskId);
          }
          r := Retried(name.value, id.value, priority);
      }
    }

    method RetryTaskAction(q: Request, eta: Eta, w: World) returns (r: CommandResult)
      modifies this
      ensures sent == old(sent) + ActionSends(q, eta, w)
      ensures r == ActionResult(q, eta, w)
    {
      if eta.Invalid? {
        return Definite("invalid eta");
      }
      if w.wait == TimesOutQueued {
        return INDETERMINATE;
      }
      var io := DoRetryIo(q, EtaOf(eta), w.redis, w.backend, w.ends);
      if w.wait == TimesOutRunning {
        return INDETERMINATE;
      }
      match io {
        case Retried(_, id, _) => r := CommandResult(Success, None, Some(Details(false, Some(id))));
        case Refused(_) => r := Definite("refused");
        case Raised(timeout) => r := if timeout then INDETERMINATE else Definite("send_task failed");
      }
    }
  }

  // ---------------------------------------------------------------------
  // Failing closed
  // ---------------------------------------------------------------------

  /** A name that can be published: neither empty, nor `unknown`, nor an `<unknown...` placeholder. */
  predicate RealName(n: string) { n != "" && n != "unknown" && !("<unknown" <= n) }

  /**
   The result backend names the task `n`: as the result's own name or, when that
   is no non-empty string, under `name` in the result's dictionary or, when that
   is falsy, under `task`.
   */
  predicate BackendNames(b: Backend, n: string) {
    b.Answers? &&
    if b.name.Str? && b.name.s != "" then n == b.name.s
    else if b.info.NotADict? then false
    else
      match b.info.name
      case Str(s) => if s != "" then n == s else b.info.task == Str(n)
      case Other(truthy) => !truthy && b.info.task == Str(n)
      case Absent => b.info.task == Str(n)
  }

  lemma BackendNamesIff(b: Backend, n: string)
    ensures BackendNames(b, n) <==> b.Answers? && ResolveTaskName(b.name, b.info) == Some(n)
  {
  }

  /** The supplied name is authoritative; the backend's counts only without a real one. */
  predicate NamedFor(q: Request, b: Backend, n: string) {
    if q.taskName.Some? && RealName(q.taskName.value) then n == q.taskName.value
    else BackendNames(b, n) && RealName(n)
  }

  lemma {:induction false} ChosenIff(q: Request, b: Backend, n: string)
    requires b.Answers?
    ensures ChosenName(q.taskName, b) == Some(n) <==> NamedFor(q, b, n)
  {
    BackendNamesIff(b, n);
  }

  /** The number a priority is sent as: integers as they are, labels by the transport's own scale. */
  predicate SentPriority(raw: RawPriority, redis: bool, p: int) {
    match raw
    case Int(n) => p == n && 0 <= n <= 255
    case Label(s) =>
      var l := Lower(Strip(s));
      || (l == "critical" && p == (if redis then 0 else 9))
      || (l == "high" && p == (if redis then 3 else 6))
      || (l == "normal" && p == (if redis then 6 else 3))
      || (l == "low" && p == (if redis then 9 else 0))
    case _ => false
  }

  lemma {:induction false} SentPriorityIff(raw: RawPriority, redis: bool, p: int)
    ensures CoercePriority(raw, redis) == Some(p) <==> SentPriority(raw, redis, p)
  {
  }

  lemma {:induction false} LowerMeans(s: string)
    ensures |Lower(s)| == |s| && forall i :: 0 <= i < |s| ==>
              Lower(s)[i] as int == s[i] as int + if 65 <= s[i] as int <= 90 then 32 else 0
  {
  }

  /** Stripping removes the white space around a text, and nothing else. */
  lemma {:induction false} StripMeans(s: string) returns (left: string, right: string)
    ensures s == left + Strip(s) + right
    ensures forall c :: c in left + right ==> c as int in {9, 10, 11, 12, 13, 32}
    ensures Strip(s) != "" ==> Strip(s)[0] as int !in {9, 10, 11, 12, 13, 32}
    ensures Strip(s) != "" ==> Strip(s)[|Strip(s)| - 1] as int !in {9, 10, 11, 12, 13, 32}
  {
    left := StripLeftMeans(s);
    right := StripRightMeans(StripLeft(s));
    var m := StripLeft(s);
    if Strip(s) != "" {
      assert Strip(s)[0] == m[0];
    }
  }

  lemma {:induction false} StripLeftMeans(s: string) returns (left: string)
    ensures s == left + StripLeft(s) && forall c :: c in left ==> IsSpace(c)
    ensures StripLeft(s) != "" ==> !IsSpace(StripLeft(s)[0])
  {
    left := "";
    if s != "" && IsSpace(s[0]) {
      left := StripLeftMeans(s[1..]);
      left := [s[0]] + left;
    }
  }

  lemma {:induction false} StripRightMeans(s: string) returns (right: string)
    ensures s == StripRight(s) + right && forall c :: c in right ==> IsSpace(c)
    ensures StripRight(s) != "" ==> !IsSpace(StripRight(s)[|StripRight(s)| - 1])
  {
    right := "";
    if s != "" && IsSpace(s[|s| - 1]) {
      right := StripRightMeans(s[..|s| - 1]);
      right := right + [s[|s| - 1]];
    }
  }

  /** Labels are told apart regardless of case and surrounding space, and the transports differ. */
  lemma LabelExample()
    ensures Lower(Strip(" High\n")) == "high"
    ensures CoercePriority(Label(" High\n"), false) == Some(6) && CoercePriority(Label(" High\n"), true) == Some(3)
  {
    assert StripLeft(" High\n") == "High\n" by {
      assert " High\n"[1..] == "High\n";
    }
    assert StripRight("High\n") == "High" by {
      assert "High\n"[..4] == "High";
    }
  }

  /**
   A call that may be published: under the one name the request is authorised
   to use, with both argument halves from an authoritative source, and with the
   eta and the priority that were asked for, or none.
   */
  ghost predicate Authorised(s: Send, q: Request, eta: Eta, redis: bool, b: Backend) {
    && b.Answers? && NamedFor(q, b, s.name)
    && (if q.overrideArgs.Some? then s.args == q.overrideArgs.value
        else b.args.Sequence? && s.args == b.args.items)
    && (if q.overrideKwargs.Some? then s.kwargs == q.overrideKwargs.value
        else b.kwargs.Mapping? && s.kwargs == b.kwargs.items)
    && (match eta case At(when) => s.eta == Some(when) case NoEta => s.eta == None case Invalid => false)
    && (forall p :: s.priority == Some(p) <==> SentPriority(q.priority, redis, p))
  }

  /**
   Every retry publishes at most once and only what is authorised; it publishes
   exactly when a name and both argument halves can be had.
   */
  lemma {:induction false} FailClosed(q: Request, eta: Eta, w: World)
    ensures |ActionSends(q, eta, w)| <= 1
    ensures forall s :: s in ActionSends(q, eta, w) ==> Authorised(s, q, eta, w.redis, w.backend) && RealName(s.name)
    ensures |ActionSends(q, eta, w)| == 1 <==>
            && !eta.Invalid? && w.wait != TimesOutQueued && w.backend.Answers?
            && (exists n :: NamedFor(q, w.backend, n))
            && (q.overrideArgs.Some? || w.backend.args.Sequence?)
            && (q.overrideKwargs.Some? || w.backend.kwargs.Mapping?)
  {
    var b := w.backend;
    if b.Answers? {
      var chosen := ChosenName(q.taskName, b);
      forall n ensures chosen == Some(n) <==> NamedFor(q, b, n) {
        ChosenIff(q, b, n);
      }
      if chosen.Some? {
        assert NamedFor(q, b, chosen.value);
      }
      forall p ensures CoercePriority(q.priority, w.redis) == Some(p) <==> SentPriority(q.priority, w.redis, p) {
        SentPriorityIff(q.priority, w.redis, p);
      }
    }
  }

  /** With a real name supplied, no other name is ever sent, whatever the backend says. */
  lemma {:induction false} SuppliedNameWins(q: Request, eta: Eta, w: World, s: Send)
    requires s in ActionSends(q, eta, w)
    requires q.taskName.Some?
    requires q.taskName.value != "" && q.taskName.value != "unknown" && !("<unknown" <= q.taskName.value)
    ensures s.name == q.taskName.value
  {
    FailClosed(q, eta, w);
  }

  /** What the I/O function ends with, and which refusal for which reason. */
  lemma {:induction false} IoEndsIff(q: Request, eta: Option<int>, redis: bool, b: Backend, ends: SendEnds)
    ensures var r, named := IoEnds(q, eta, redis, b, ends), exists n :: NamedFor(q, b, n);
            var halves := b.Answers? && (q.overrideArgs.Some? || b.args.Sequence?)
                                     && (q.overrideKwargs.Some? || b.kwargs.Mapping?);
            var sent := b.Answers? && named && halves;
            && (r == Refused(NoName) <==> b.Answers? && !named)
            && (r == Refused(NoArgs) <==> b.Answers? && named && !halves)
            && (r == Refused(NoTaskId) <==> sent && (ends == Sent(None) || ends == Sent(Some(""))))
            && (forall t :: r == Raised(t) <==> b == Raises(t) || (sent && ends == SendRaises(t)))
            && (r.Retried? ==>
                  && ends == Sent(Some(r.newTaskId)) && |Sends(q, eta, redis, b)| == 1
                  && Sends(q, eta, redis, b)[0].name == r.name && Sends(q, eta, redis, b)[0].priority == r.priority)
  {
    if b.Answers? {
      var chosen := ChosenName(q.taskName, b);
      forall n ensures chosen == Some(n) <==> NamedFor(q, b, n) {
        ChosenIff(q, b, n);
      }
      if chosen.Some? {
        assert NamedFor(q, b, chosen.value);
      }
    }
  }

  /** How the mapper names a task: by what it is given, then the event's own name, then the placeholder. */
  lemma {:induction false} MapperNameCases(s: string, hint: string, taskId: string, queue: string)
    ensures s != "" ==>
              && MapperName(NameOnly(s), hint, taskId, queue) == s
              && MapperName(TaskObject(Some(s)), hint, taskId, queue) == s
    ensures forall task :: task in {NoTask, NameOnly(""), TaskObject(None), TaskObject(Some(""))} ==>
              MapperName(task, hint, taskId, queue) ==
                if Strip(hint) != "" then Strip(hint)
                else if queue != "" && taskId != ""
                then "<unknown:" + queue + ":" + (if |taskId| < 8 then taskId else taskId[..8]) + ">"
                else if queue != "" then "<unknown:" + queue + ">"
                else if taskId != "" then "<unknown:" + (if |taskId| < 8 then taskId else taskId[..8]) + ">"
                else "<unknown>"
  {
    assert |taskId| == 8 ==> taskId[..8] == taskId;
  }

  /** A reported success was published once under the reported id; an unknown outcome is never called definite. */
  lemma ResultsAreHonest(q: Request, eta: Eta, w: World)
    ensures var r := ActionResult(q, eta, w);
            && (r.status == Success <==>
                  w.wait == InTime && |ActionSends(q, eta, w)| == 1
                  && w.ends.Sent? && w.ends.id.Some? && w.ends.id.value != "")
            && (r.status == Success ==> r.details == Some(Details(false, w.ends.id)))
            && (r.details.Some? && r.details.value.indeterminate <==>
                  !eta.Invalid? && (w.wait != InTime
                    || w.backend == Raises(true)
                    || (w.ends == SendRaises(true) && |ActionSends(q, eta, w)| == 1)))
  {
  }

  /** The report says that the retry failed, and does not say that the outcome is unknown. */
  predicate DefiniteFailure(r: CommandResult) {
    r.status == Failed && !(r.details.Some? && r.details.value.indeterminate)
  }

  /** The ways in which `send_task` ends that are reported as definite failures. */
  predicate EndsAsFailure(ends: SendEnds) {
    match ends
    case SendRaises(timeout) => !timeout
    case Sent(id) => id == None || id == Some("")
  }

  /**
   A definite failure does not mean that nothing was published.  It means so
   exactly unless the call was made, the wait did not time out, and `send_task`
   raised or returned no task id.
   */
  lemma {:induction false} DefiniteAfterCallIff(q: Request, eta: Eta, w: World)
    ensures DefiniteFailure(ActionResult(q, eta, w)) && ActionSends(q, eta, w) != []
            <==> |ActionSends(q, eta, w)| == 1 && w.wait == InTime && EndsAsFailure(w.ends)
  {
    FailClosed(q, eta, w);
    ResultsAreHonest(q, eta, w);
  }

  /** It happens: this retry publishes its task and reports a definite failure. */
  lemma PublishedButFailed() returns (q: Request, w: World)
    ensures w.ends == Sent(None) && DefiniteFailure(ActionResult(q, NoEta, w))
    ensures ActionSends(q, NoEta, w) == [Send("app.add", [], map[], None, None)]
  {
    q := Request("id", Some("app.add"), Some([]), Some(map[]), NoPriority);
    w := World(false, Answers(Absent, NotADict, NoSequence, NoMapping), Sent(None), InTime);
    assert "app.add"[0] == 'a' && "<unknown"[0] == '<';
  }

  /** So does this one, whose call raised: what the broker got nobody can tell, yet the failure is definite. */
  lemma RaisedButFailed() returns (q: Request, w: World)
    ensures w.ends == SendRaises(false) && DefiniteFailure(ActionResult(q, NoEta, w))
    ensures ActionSends(q, NoEta, w) == [Send("app.add", [], map[], None, None)]
  {
    q, w := PublishedButFailed();
    w := w.(ends := SendRaises(false));
  }

  /** No placeholder the mapper can build is ever published as a name, whatever the queue and id. */
  lemma PlaceholdersNeverPublished(task: TaskArg, hint: string, taskId: string, queue: string,
                                   q: Request, eta: Eta, w: World)
    requires Nameless(task, hint)
    ensures var name := MapperName(task, hint, taskId, queue);
            Placeholder(name) && forall s :: s in ActionSends(q, eta, w) ==> s.name != name
  {
    var rest := MapperName(task, hint, taskId, queue)[|"<unknown"|..];
    var name := MapperName(task, hint, taskId, queue);
    assert "<unknown:" == "<unknown" + ":";
    assert "<unknown>" == "<unknown" + ">";
    assert name == "<unknown" + rest;
  }

  /** With a placeholder supplied as the name, only the backend's own name can be published. */
  lemma PlaceholderFallsBack(q: Request, eta: Eta, w: World)
    requires q.taskName.Some? && Placeholder(q.taskName.value)
    ensures ActionSends(q, eta, w) == ActionSends(q.(taskName := None), eta, w)
    ensures ActionResult(q, eta, w) == ActionResult(q.(taskName := None), eta, w)
  {
  }
}
