/**
 Double-checked lazy creation of a process-wide singleton under a module lock,
 by any number of threads, with processes forking at any moment.  A fork copies
 the memory of the parent, its locks included, but only the forking thread.

 The offload pool (`_get_executor`) is the machine with an after-fork handler,
 which installs a fresh lock and drops the inherited pool.  Signal registration
 (`register_worker_bootstrap`) is the same machine without one: there "built"
 means that the signals are connected and the flag is set.
 */
module LazyInit {
  import opened Options

  /** A pool, told apart by the process that built it and its serial number there. */
  datatype Pool = Pool(owner: nat, serial: nat)

  /** Where a thread is in the function. */
  datatype PC =
    | Idle
    | SawNone                  // the first check found nothing
    | Waiting(lock: nat)       // has the lock object, not yet acquired
    | Holding(lock: nat)       // acquired, second check not made
    | Building(lock: nat)      // the second check found nothing
    | Leaving(lock: nat, ok: bool)
    | Answering                // about to read the global and return it
  {
    /** Between acquiring the lock and releasing it. */
    predicate Inside() { Holding? || Building? || Leaving? }
  }

  datatype Proc = Proc(
    value: Option<Pool>,       // the module global
    lock: nat,                 // the module lock object
    held: map<nat, nat>,       // lock object -> the thread that acquired it
    pcs: map<nat, PC>,         // the threads that exist in this process
    forking: bool,             // just forked, after-fork handlers not yet run
    builds: nat,               // how often this memory image has built the value
    answers: seq<Option<Pool>>)

  datatype State = State(procs: map<nat, Proc>, locks: nat)

  datatype Step =
    | Spawn(u: nat)
    | Check
    | LoadLock
    | Acquire
    | Recheck
    | Build(ok: bool)          // may fail: no thread pool, or celery not importable
    | Release
    | Answer

  datatype Action =
    | Local(p: nat, t: nat, step: Step)
    | Fork(p: nat, t: nat, q: nat)
    | AfterFork(p: nat)

  predicate StepEnabled(r: Proc, t: nat, step: Step) {
    !r.forking && t in r.pcs &&
    match step
    case Spawn(u) => u !in r.pcs
    case Check => r.pcs[t] == Idle
    case LoadLock => r.pcs[t] == SawNone
    case Acquire => r.pcs[t].Waiting? && r.pcs[t].lock !in r.held
    case Recheck => r.pcs[t].Holding?
    case Build(_) => r.pcs[t].Building?
    case Release => r.pcs[t].Leaving?
    case Answer => r.pcs[t] == Answering
  }

  function At(r: Proc, t: nat, pc: PC): Proc {
    r.(pcs := r.pcs[t := pc])
  }

  function StepNext(r: Proc, p: nat, t: nat, step: Step): Proc
    requires StepEnabled(r, t, step)
  {
    match step
    case Spawn(u) => At(r, u, Idle)
    case Check => At(r, t, if r.value == None then SawNone else Answering)
    case LoadLock => At(r, t, Waiting(r.lock))
    case Acquire =>
      var l := r.pcs[t].lock;
      At(r, t, Holding(l)).(held := r.held[l := t])
    case Recheck =>
      var l := r.pcs[t].lock;
      At(r, t, if r.value == None then Building(l) else Leaving(l, true))
    case Build(ok) =>
      var l := r.pcs[t].lock;
      if ok
      then At(r, t, Leaving(l, true)).(value := Some(Pool(p, r.builds)), builds := r.builds + 1)
      else At(r, t, Leaving(l, false))
    case Release =>
      var l := r.pcs[t].lock;
      At(r, t, if r.pcs[t].ok then Answering else Idle).(held := r.held - {l})
    case Answer => At(r, t, Idle).(answers := r.answers + [r.value])
  }

  predicate Enabled(s: State, a: Action) {
    match a
    case Local(p, t, step) => p in s.procs && StepEnabled(s.procs[p], t, step)
    case Fork(p, t, q) =>
      && p in s.procs && !s.procs[p].forking && q !in s.procs
      && t in s.procs[p].pcs && s.procs[p].pcs[t] == Idle
    case AfterFork(p) => p in s.procs && s.procs[p].forking
  }

  /** The child's memory right after the fork; `handler` says whether an after-fork handler is pending. */
  function Child(r: Proc, t: nat, handler: bool): Proc {
    r.(pcs := map[t := Idle], forking := handler, answers := [])
  }

  /** What the handler leaves: no pool, and a lock that nothing can hold. */
  function Reset(r: Proc, newLock: nat): Proc {
    r.(value := None, lock := newLock, forking := false, builds := 0)
  }

  function Next(handler: bool, s: State, a: Action): State
    requires Enabled(s, a)
  {
    match a
    case Local(p, t, step) => s.(procs := s.procs[p := StepNext(s.procs[p], p, t, step)])
    case Fork(p, t, q) => s.(procs := s.procs[q := Child(s.procs[p], t, handler)])
    case AfterFork(p) => State(s.procs[p := Reset(s.procs[p], s.locks)], s.locks + 1)
  }

  type Trace = seq<Action>

  /** One process, number 0, with one idle thread and nothing built. */
  const INITIAL := State(map[0 := Proc(None, 0, map[], map[0 := Idle], false, 0, [])], 1)

  /** The state after a trace, if every action of it was possible. */
  function Run(handler: bool, tr: Trace): Option<State> {
    if tr == [] then Some(INITIAL)
    else
      var a := tr[|tr| - 1];
      match Run(handler, tr[..|tr| - 1])
      case None => None
      case Some(s) => if Enabled(s, a) then Some(Next(handler, s, a)) else None
  }

  // ---------------------------------------------------------------------
  // What every process keeps
  // ---------------------------------------------------------------------

  /** Mutual exclusion and at most one build; needs no after-fork handler. */
  ghost predicate Sound(r: Proc) {
    && (forall t :: t in r.pcs && r.pcs[t].Inside() ==>
          r.pcs[t].lock == r.lock && r.lock in r.held && r.held[r.lock] == t)
    && (forall t :: t in r.pcs && r.pcs[t].Waiting? ==> r.pcs[t].lock == r.lock)
    && (forall t :: t in r.pcs && r.pcs[t].Building? ==> r.value == None)
    && (forall t :: t in r.pcs && (r.pcs[t].Answering? || (r.pcs[t].Leaving? && r.pcs[t].ok)) ==>
          r.value.Some?)
    && r.builds == (if r.value.Some? then 1 else 0)
    && (forall i :: 0 <= i < |r.answers| ==> r.answers[i].Some? && r.answers[i] == r.value)
  }

  /** The module lock is only ever held by a thread that exists and is inside. */
  ghost predicate LiveHolder(r: Proc) {
    r.lock in r.held ==> r.held[r.lock] in r.pcs && r.pcs[r.held[r.lock]].Inside()
  }

  ghost predicate Owned(r: Proc, p: nat) {
    r.value.Some? ==> r.value.value.owner == p
  }

  ghost predicate ProcInv(handler: bool, r: Proc, p: nat, locks: nat) {
    && Sound(r)
    && r.lock < locks && (forall l :: l in r.held ==> l < locks)
    && (r.forking ==> r.answers == [] && forall t :: t in r.pcs ==> r.pcs[t] == Idle)
    && (handler && !r.forking ==> LiveHolder(r) && Owned(r, p))
    && (!handler ==> !r.forking)
  }

  ghost predicate Inv(handler: bool, s: State) {
    forall p :: p in s.procs ==> ProcInv(handler, s.procs[p], p, s.locks)
  }

  lemma {:induction false} StepSound(r: Proc, p: nat, t: nat, step: Step)
    requires Sound(r) && StepEnabled(r, t, step)
    ensures Sound(StepNext(r, p, t, step))
  {
  }

  lemma {:induction false} StepLive(r: Proc, p: nat, t: nat, step: Step)
    requires Sound(r) && LiveHolder(r) && Owned(r, p) && StepEnabled(r, t, step)
    ensures LiveHolder(StepNext(r, p, t, step)) && Owned(StepNext(r, p, t, step), p)
  {
  }

  lemma StepInv(handler: bool, s: State, a: Action)
    requires Inv(handler, s) && Enabled(s, a)
    ensures Inv(handler, Next(handler, s, a))
  {
    var r := s.procs[a.p];
    assert ProcInv(handler, r, a.p, s.locks);
    match a
    case Local(p, t, step) =>
      StepSound(r, p, t, step);
      if handler {
        StepLive(r, p, t, step);
      }
      assert ProcInv(handler, StepNext(r, p, t, step), p, s.locks);
    case Fork(p, t, q) => ForkInv(handler, r, t, q, s.locks);
    case AfterFork(p) => ResetInv(handler, r, p, s.locks);
  }

  lemma ForkInv(handler: bool, r: Proc, t: nat, q: nat, locks: nat)
    requires Sound(r) && r.lock < locks && (forall l :: l in r.held ==> l < locks)
    ensures ProcInv(handler, Child(r, t, handler), q, locks)
  {
  }

  lemma ResetInv(handler: bool, r: Proc, p: nat, locks: nat)
    requires r.forking && ProcInv(handler, r, p, locks)
    ensures ProcInv(handler, Reset(r, locks), p, locks + 1)
  {
  }

  lemma {:induction false} RunInv(handler: bool, tr: Trace)
    requires Run(handler, tr).Some?
    ensures Inv(handler, Run(handler, tr).value)
  {
    if tr == [] {
    } else {
      RunInv(handler, tr[..|tr| - 1]);
      StepInv(handler, Run(handler, tr[..|tr| - 1]).value, tr[|tr| - 1]);
    }
  }

  lemma ProcOf(handler: bool, tr: Trace, p: nat)
    requires Run(handler, tr).Some? && p in Run(handler, tr).value.procs
    ensures ProcInv(handler, Run(handler, tr).value.procs[p], p, Run(handler, tr).value.locks)
  {
    RunInv(handler, tr);
  }

  // ---------------------------------------------------------------------
  // The offload pool: with the after-fork handler
  // ---------------------------------------------------------------------

  /** How many pools process `p` created over the run. */
  function BuildsBy(tr: Trace, p: nat): nat {
    if tr == [] then 0
    else
      var a := tr[|tr| - 1];
      BuildsBy(tr[..|tr| - 1], p)
      + if a.Local? && a.p == p && a.step == Build(true) then 1 else 0
  }

  lemma {:induction false} BuildsCounted(tr: Trace, p: nat)
    requires Run(true, tr).Some?
    ensures var s := Run(true, tr).value;
            if p in s.procs && !s.procs[p].forking then BuildsBy(tr, p) == s.procs[p].builds
            else BuildsBy(tr, p) == 0
  {
    if tr == [] {
    } else {
      BuildsCounted(tr[..|tr| - 1], p);
      var before := tr[..|tr| - 1];
      if p in Run(true, before).value.procs {
        ProcOf(true, before, p);
      }
    }
  }

  /** Each process creates at most one pool, whatever the interleaving and wherever it was forked from. */
  lemma {:induction false} OnePoolPerProcess(tr: Trace, p: nat)
    requires Run(true, tr).Some?
    ensures BuildsBy(tr, p) <= 1
  {
    BuildsCounted(tr, p);
    if p in Run(true, tr).value.procs {
      ProcOf(true, tr, p);
    }
  }

  /** Every caller in a process gets the same pool, and that process's own: never an inherited one. */
  lemma {:induction false} SamePoolForAll(tr: Trace, p: nat, i: nat, j: nat)
    requires Run(true, tr).Some?
    requires var s := Run(true, tr).value;
             p in s.procs && !s.procs[p].forking
             && i < |s.procs[p].answers| && j < |s.procs[p].answers|
    ensures var s := Run(true, tr).value;
            && s.procs[p].answers[i].Some?
            && s.procs[p].answers[i].value.owner == p
            && s.procs[p].answers[i] == s.procs[p].answers[j]
  {
    ProcOf(true, tr, p);
  }

  /** A thread that can always take a step: it never waits for anybody. */
  ghost predicate CanStep(r: Proc, t: nat) {
    exists step :: StepEnabled(r, t, step) && !step.Spawn?
  }

  /**
   No thread waits on a lock whose holder is gone: if the lock a thread waits
   for is taken, its holder is a thread of the same process that can run.
   */
  lemma {:induction false} NeverWaitsOnVanished(tr: Trace, p: nat, t: nat)
    requires Run(true, tr).Some?
    requires var s := Run(true, tr).value;
             p in s.procs && !s.procs[p].forking && t in s.procs[p].pcs
    ensures var r := Run(true, tr).value.procs[p];
            CanStep(r, t) || (r.pcs[t].Waiting? && r.pcs[t].lock in r.held
                              && r.held[r.pcs[t].lock] in r.pcs
                              && r.pcs[r.held[r.pcs[t].lock]].Inside()
                              && CanStep(r, r.held[r.pcs[t].lock]))
  {
    ProcOf(true, tr, p);
    var r := Run(true, tr).value.procs[p];
    if r.pcs[t].Waiting? && r.pcs[t].lock in r.held {
      AnybodyElseCanStep(r, r.held[r.pcs[t].lock]);
    } else {
      AnybodyElseCanStep(r, t);
    }
  }

  lemma AnybodyElseCanStep(r: Proc, t: nat)
    requires !r.forking && t in r.pcs
    requires !(r.pcs[t].Waiting? && r.pcs[t].lock in r.held)
    ensures CanStep(r, t)
  {
    match r.pcs[t]
    case Idle => assert StepEnabled(r, t, Check);
    case SawNone => assert StepEnabled(r, t, LoadLock);
    case Waiting(_) => assert StepEnabled(r, t, Acquire);
    case Holding(_) => assert StepEnabled(r, t, Recheck);
    case Building(_) => assert StepEnabled(r, t, Build(true));
    case Leaving(_, _) => assert StepEnabled(r, t, Release);
    case Answering => assert StepEnabled(r, t, Answer);
  }

  // ---------------------------------------------------------------------
  // Signal registration: the same locking without a handler
  // ---------------------------------------------------------------------

  /** The signals are connected at most once in any memory image, forks included. */
  lemma {:induction false} ConnectedAtMostOnce(tr: Trace, p: nat)
    requires Run(false, tr).Some? && p in Run(false, tr).value.procs
    ensures var r := Run(false, tr).value.procs[p];
            r.builds <= 1 && (r.builds == 1 <==> r.value.Some?)
            && forall i :: 0 <= i < |r.answers| ==> r.answers[i].Some? && r.answers[i] == r.value
  {
    ProcOf(false, tr, p);
    assert Sound(Run(false, tr).value.procs[p]);
  }

  /** Nothing built, the lock taken, and nobody inside who could give it back. */
  ghost predicate Wedged(r: Proc) {
    && r.value == None && r.lock in r.held
    && forall t :: t in r.pcs ==> !r.pcs[t].Inside()
  }

  /** It does happen: another thread is inside when the main thread forks. */
  lemma WedgeReachable()
    ensures exists tr, q :: Run(false, tr).Some? && q in Run(false, tr).value.procs
                            && Wedged(Run(false, tr).value.procs[q])
  {
    var tr: Trace := [];
    var s := INITIAL;
    tr, s := Extend(false, tr, s, Local(0, 0, Spawn(1)));
    tr, s := Extend(false, tr, s, Local(0, 1, Check));
    tr, s := Extend(false, tr, s, Local(0, 1, LoadLock));
    tr, s := Extend(false, tr, s, Local(0, 1, Acquire));
    tr, s := Extend(false, tr, s, Fork(0, 0, 1));
    assert Wedged(s.procs[1]);
  }

  lemma Extend(handler: bool, tr: Trace, s: State, a: Action) returns (tr': Trace, s': State)
    requires Run(handler, tr) == Some(s) && Enabled(s, a)
    ensures tr' == tr + [a] && Run(handler, tr') == Some(s') && s' == Next(handler, s, a)
  {
    tr', s' := tr + [a], Next(handler, s, a);
    assert tr'[..|tr|] == tr;
  }

  lemma WedgedStep(r: Proc, p: nat, t: nat, step: Step)
    requires Sound(r) && Wedged(r) && StepEnabled(r, t, step)
    ensures Wedged(StepNext(r, p, t, step)) && StepNext(r, p, t, step).answers == r.answers
  {
  }

  /** A wedged process stays wedged: no later call in it ever connects the signals or gets past the lock. */
  lemma {:induction false} WedgedForever(handler: bool, tr: Trace, n: nat, p: nat)
    requires n <= |tr| && Run(handler, tr).Some? && Run(handler, tr[..n]).Some?
    requires p in Run(handler, tr[..n]).value.procs && Wedged(Run(handler, tr[..n]).value.procs[p])
    requires !Run(handler, tr[..n]).value.procs[p].forking
    ensures p in Run(handler, tr).value.procs && Wedged(Run(handler, tr).value.procs[p])
    ensures !Run(handler, tr).value.procs[p].forking
    ensures Run(handler, tr).value.procs[p].answers == Run(handler, tr[..n]).value.procs[p].answers
  {
    if n == |tr| {
      assert tr[..n] == tr;
    } else {
      var before, a := tr[..|tr| - 1], tr[|tr| - 1];
      assert before[..n] == tr[..n];
      WedgedForever(handler, before, n, p);
      ProcOf(handler, before, p);
      if a.Local? && a.p == p {
        WedgedStep(Run(handler, before).value.procs[p], p, a.t, a.step);
      }
    }
  }

  /** With the handler no process that has run it is ever wedged. */
  lemma {:induction false} HandlerNeverWedged(tr: Trace, p: nat)
    requires Run(true, tr).Some?
    requires p in Run(true, tr).value.procs && !Run(true, tr).value.procs[p].forking
    ensures !Wedged(Run(true, tr).value.procs[p])
  {
    ProcOf(true, tr, p);
  }

  // ---------------------------------------------------------------------
  // Who gets through
  // ---------------------------------------------------------------------

  /** Nobody needs the lock any more: the value is there, and every thread has seen it or has not looked yet. */
  ghost predicate Bypassed(r: Proc) {
    r.value.Some? && forall t :: t in r.pcs ==> r.pcs[t] == Idle || r.pcs[t] == Answering
  }

  ghost predicate Fair(r: Proc) { LiveHolder(r) || Wedged(r) || Bypassed(r) }

  lemma FairStep(r: Proc, p: nat, t: nat, step: Step)
    requires Sound(r) && Fair(r) && StepEnabled(r, t, step)
    ensures Fair(StepNext(r, p, t, step))
  {
    if Wedged(r) {
      WedgedStep(r, p, t, step);
    } else if LiveHolder(r) {
      LiveStep(r, p, t, step);
    }
  }

  lemma {:induction false} LiveStep(r: Proc, p: nat, t: nat, step: Step)
    requires Sound(r) && LiveHolder(r) && StepEnabled(r, t, step)
    ensures LiveHolder(StepNext(r, p, t, step))
  {
  }

  lemma {:induction false} FairRun(handler: bool, tr: Trace, p: nat)
    requires Run(handler, tr).Some? && p in Run(handler, tr).value.procs
    ensures Run(handler, tr).value.procs[p].forking || Fair(Run(handler, tr).value.procs[p])
  {
    if tr == [] {
    } else {
      var before, a := tr[..|tr| - 1], tr[|tr| - 1];
      var s := Run(handler, before).value;
      if p in s.procs {
        FairRun(handler, before, p);
        ProcOf(handler, before, p);
        if a.Local? && a.p == p {
          FairStep(s.procs[p], p, a.t, a.step);
        } else if a.AfterFork? && a.p == p {
          ProcOf(handler, tr, p);
        }
      }
    }
  }

  /**
   In any process, with or without a handler: either it is wedged, or every
   thread can take a step or waits for a live one that can.
   */
  lemma {:induction false} WedgedOrRunning(handler: bool, tr: Trace, p: nat, t: nat)
    requires Run(handler, tr).Some? && p in Run(handler, tr).value.procs
    requires var r := Run(handler, tr).value.procs[p]; !r.forking && t in r.pcs
    ensures var r := Run(handler, tr).value.procs[p];
            || Wedged(r) || CanStep(r, t)
            || (r.pcs[t].Waiting? && r.pcs[t].lock in r.held && r.held[r.pcs[t].lock] in r.pcs
                && r.pcs[r.held[r.pcs[t].lock]].Inside() && CanStep(r, r.held[r.pcs[t].lock]))
  {
    FairRun(handler, tr, p);
    ProcOf(handler, tr, p);
    var r := Run(handler, tr).value.procs[p];
    if r.pcs[t].Waiting? && r.pcs[t].lock in r.held {
      if LiveHolder(r) {
        AnybodyElseCanStep(r, r.held[r.pcs[t].lock]);
      }
    } else {
      AnybodyElseCanStep(r, t);
    }
  }

  /** Some continuation of the run ends with thread `t` of process `p` returning from the function. */
  ghost predicate CanReturn(handler: bool, tr: Trace, p: nat, t: nat) {
    exists more :: Run(handler, tr + more + [Local(p, t, Answer)]).Some?
  }

  /**
   The behaviour of every process at every moment: a thread of it can still get
   through the function, its own or a new call, if and only if the process is
   not wedged.
   */
  lemma {:induction false} CanReturnIff(handler: bool, tr: Trace, p: nat, t: nat)
    requires Run(handler, tr).Some? && p in Run(handler, tr).value.procs
    requires var r := Run(handler, tr).value.procs[p]; !r.forking && t in r.pcs
    ensures CanReturn(handler, tr, p, t) <==> !Wedged(Run(handler, tr).value.procs[p])
  {
    var s := Run(handler, tr).value;
    if Wedged(s.procs[p]) {
      forall more ensures Run(handler, tr + more + [Local(p, t, Answer)]) == None {
        WedgedNeverReturns(handler, tr, more, p, t);
      }
    } else {
      FairRun(handler, tr, p);
      ProcOf(handler, tr, p);
      var tr' := tr;
      if s.procs[p].lock in s.procs[p].held && LiveHolder(s.procs[p]) {
        tr', s := LetGo(handler, tr, s, p, s.procs[p].held[s.procs[p].lock]);
        ProcOf(handler, tr', p);
      }
      var more := PassThrough(handler, tr', s, p, t);
      assert tr + (tr'[|tr|..] + more) + [Local(p, t, Answer)] == tr' + more + [Local(p, t, Answer)];
    }
  }

  /** The holder of the lock finishes its work and releases it. */
  lemma {:induction false} LetGo(handler: bool, tr: Trace, s: State, p: nat, h: nat) returns (tr': Trace, s': State)
    requires Run(handler, tr) == Some(s) && p in s.procs && !s.procs[p].forking
    requires Sound(s.procs[p]) && h in s.procs[p].pcs && s.procs[p].pcs[h].Inside()
    ensures tr <= tr' && Run(handler, tr') == Some(s')
    ensures p in s'.procs && !s'.procs[p].forking && s'.procs[p].pcs.Keys == s.procs[p].pcs.Keys
    ensures s'.procs[p].lock == s.procs[p].lock && s'.procs[p].lock !in s'.procs[p].held
  {
    hide Run, Sound;
    assert s.procs[p].pcs[h].lock == s.procs[p].lock by {
      LocksOf(s.procs[p], h);
    }
    tr', s' := tr, s;
    if s'.procs[p].pcs[h].Holding? {
      tr', s' := Extend(handler, tr', s', Local(p, h, Recheck));
    }
    if s'.procs[p].pcs[h].Building? {
      tr', s' := Extend(handler, tr', s', Local(p, h, Build(true)));
    }
    tr', s' := Extend(handler, tr', s', Local(p, h, Release));
  }

  lemma LocksOf(r: Proc, t: nat)
    requires Sound(r) && t in r.pcs
    ensures r.pcs[t].Waiting? || r.pcs[t].Inside() ==> r.pcs[t].lock == r.lock
    ensures r.pcs[t].Inside() ==> r.lock in r.held
    ensures r.pcs[t].Answering? || (r.pcs[t].Leaving? && r.pcs[t].ok) ==> r.value.Some?
  {
  }

  /** What `t` still has to do, when the lock is free or it need not take it. */
  function Rank(pc: PC): nat {
    match pc
    case Idle => 6
    case SawNone => 5
    case Waiting(_) => 4
    case Holding(_) => 3
    case Building(_) => 2
    case Leaving(_, ok) => if ok then 1 else 7
    case Answering => 0
  }

  /** Step by step `t` gets to where it only has to answer. */
  lemma {:induction false} PassThrough(handler: bool, tr: Trace, s: State, p: nat, t: nat) returns (more: Trace)
    requires Run(handler, tr) == Some(s) && p in s.procs && !s.procs[p].forking && t in s.procs[p].pcs
    requires var r := s.procs[p];
             r.lock !in r.held || Bypassed(r) || r.pcs[t].Inside()
    ensures Run(handler, tr + more + [Local(p, t, Answer)]).Some?
    decreases Rank(s.procs[p].pcs[t])
  {
    var r := s.procs[p];
    assert Sound(r) by {
      ProcOf(handler, tr, p);
    }
    if r.pcs[t].Answering? {
      more := [];
      var tr', s' := Extend(handler, tr, s, Local(p, t, Answer));
      assert tr + more + [Local(p, t, Answer)] == tr';
    } else {
      var step := NextStep(r, t);
      var tr', s' := Extend(handler, tr, s, Local(p, t, step));
      more := PassThrough(handler, tr', s', p, t);
      more := [Local(p, t, step)] + more;
      assert tr + more + [Local(p, t, Answer)] == tr' + more[1..] + [Local(p, t, Answer)];
    }
  }

  lemma NextStep(r: Proc, t: nat) returns (step: Step)
    requires Sound(r) && !r.forking && t in r.pcs && r.pcs[t] != Answering
    requires r.lock !in r.held || Bypassed(r) || r.pcs[t].Inside()
    ensures StepEnabled(r, t, step)
    ensures forall p :: var r' := StepNext(r, p, t, step);
              && t in r'.pcs && !r'.forking && Rank(r'.pcs[t]) < Rank(r.pcs[t])
              && (r'.lock !in r'.held || Bypassed(r') || r'.pcs[t].Inside())
  {
    match r.pcs[t]
    case Idle => step := Check;
    case SawNone => step := LoadLock;
    case Waiting(_) => step := Acquire;
    case Holding(_) => step := Recheck;
    case Building(_) => step := Build(true);
    case Leaving(_, _) => step := Release;
  }

  lemma {:induction false} WedgedNeverReturns(handler: bool, tr: Trace, more: Trace, p: nat, t: nat)
    requires Run(handler, tr).Some? && p in Run(handler, tr).value.procs
    requires Wedged(Run(handler, tr).value.procs[p]) && !Run(handler, tr).value.procs[p].forking
    ensures Run(handler, tr + more + [Local(p, t, Answer)]) == None
  {
    var all := tr + more;
    assert (all + [Local(p, t, Answer)])[..|all|] == all;
    if Run(handler, all).Some? {
      assert all[..|tr|] == tr;
      WedgedForever(handler, all, |tr|, p);
      ProcOf(handler, all, p);
    }
  }

  /** With the handler every call can always get through, in every process, forked ones included. */
  lemma {:induction false} EveryCallCanReturn(tr: Trace, p: nat, t: nat)
    requires Run(true, tr).Some? && p in Run(true, tr).value.procs
    requires var r := Run(true, tr).value.procs[p]; !r.forking && t in r.pcs
    ensures CanReturn(true, tr, p, t)
  {
    HandlerNeverWedged(tr, p);
    CanReturnIff(true, tr, p, t);
  }

  /**
   Without a handler a forked child can get through the function if and only
   if, at the fork, the parent's flag was set or its lock was free.
   */
  lemma {:induction false} ChildWedgedIff(tr: Trace, p: nat, t: nat, q: nat)
    requires Run(false, tr + [Fork(p, t, q)]).Some?
    ensures Run(false, tr).Some? && p in Run(false, tr).value.procs
    ensures var parent := Run(false, tr).value.procs[p];
            && (CanReturn(false, tr + [Fork(p, t, q)], q, t) <==>
                  parent.value.Some? || parent.lock !in parent.held)
            && (Wedged(Run(false, tr + [Fork(p, t, q)]).value.procs[q])
                <==> parent.value == None && parent.lock in parent.held)
  {
    var all := tr + [Fork(p, t, q)];
    assert all[..|tr|] == tr;
    RunInv(false, tr);
    CanReturnIff(false, all, q, t);
  }

  // ---------------------------------------------------------------------
  // What may happen at any time
  // ---------------------------------------------------------------------

  /** A process may be forked at any moment, by any idle thread, whoever holds the lock. */
  lemma {:induction false} ForkAnytime(handler: bool, tr: Trace, p: nat, t: nat, q: nat)
    requires Run(handler, tr).Some? && p in Run(handler, tr).value.procs && q !in Run(handler, tr).value.procs
    requires var r := Run(handler, tr).value.procs[p]; !r.forking && t in r.pcs && r.pcs[t] == Idle
    ensures Run(handler, tr + [Fork(p, t, q)]).Some?
    ensures var parent, child := Run(handler, tr).value.procs[p], Run(handler, tr + [Fork(p, t, q)]).value.procs[q];
            && child.value == parent.value && child.lock == parent.lock && child.held == parent.held
            && child.pcs == map[t := Idle] && child.forking == handler
  {
    var tr', s' := Extend(handler, tr, Run(handler, tr).value, Fork(p, t, q));
  }

  /** Building may fail; the lock is then free again, nothing is built, and the next call tries anew. */
  lemma {:induction false} BuildMayFail(handler: bool, tr: Trace, p: nat, t: nat)
    requires Run(handler, tr).Some? && p in Run(handler, tr).value.procs
    requires var r := Run(handler, tr).value.procs[p]; !r.forking && t in r.pcs && r.pcs[t].Building?
    ensures var all := tr + [Local(p, t, Build(false))] + [Local(p, t, Release)];
            && Run(handler, all).Some? && p in Run(handler, all).value.procs
            && var r := Run(handler, all).value.procs[p];
               r.value == None && r.lock !in r.held && t in r.pcs && r.pcs[t] == Idle
  {
    ProcOf(handler, tr, p);
    var tr', s' := Extend(handler, tr, Run(handler, tr).value, Local(p, t, Build(false)));
    tr', s' := Extend(handler, tr', s', Local(p, t, Release));
  }
}
