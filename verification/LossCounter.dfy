/**
 The overflow loss counter of an adapter, used by any number of threads of one
 process.  Every use first compares the recorded pid with the current one and,
 in a forked child, replaces the lock, zeroes the count and records the pid, in
 this order and without any lock.  Then it counts or reads under the lock.

 The memory of a forked child starts with the parent's count and lock, which
 may be held by a thread that does not exist there.
 */
module LossCounter {
  import opened Options

  const CAP: nat := 0x20_0000_0000_0000 - 1

  function AtCap(n: nat): nat { if n < CAP then n else CAP }

  datatype Use = Record | Read

  datatype PC =
    | Idle
    | SawOther(use: Use)              // found another pid recorded
    | Relocked(use: Use)              // replaced the lock
    | Zeroed(use: Use)                // zeroed the count, pid not yet recorded
    | Ready(use: Use)                 // past the pid check
    | Waiting(lock: nat, use: Use)
    | Locked(lock: nat, use: Use)
    | Loaded(lock: nat, seen: nat)    // recording: has read the count
    | Leaving(lock: nat)
  {
    /** About to zero the count. */
    predicate WillZero() { SawOther? || Relocked? }

    predicate Inside() { Locked? || Loaded? || Leaving? }

    predicate HasLock() { Waiting? || Inside() }

    /** Between fetching the lock and putting the count back. */
    predicate Recording() { ((Waiting? || Locked?) && use == Record) || Loaded? }
  }

  datatype State = State(
    current: bool,            // the recorded pid is this process's
    lock: nat,
    count: nat,
    held: map<nat, nat>,      // lock object -> thread
    pcs: map<nat, PC>,
    locks: nat,               // lock objects that exist
    drops: nat,               // drops recorded in this process
    readings: seq<nat>)

  datatype Step =
    | Spawn(u: nat) | Call(use: Use)
    | NewLock | Zero | SetPid
    | Load | Acquire | Get | Put | Release

  datatype Action = Action(t: nat, step: Step)

  predicate Enabled(s: State, a: Action) {
    a.t in s.pcs &&
    var pc := s.pcs[a.t];
    match a.step
    case Spawn(u) => u !in s.pcs
    case Call(_) => pc == Idle
    case NewLock => pc.SawOther?
    case Zero => pc.Relocked?
    case SetPid => pc.Zeroed?
    case Load => pc.Ready?
    case Acquire => pc.Waiting? && pc.lock !in s.held
    case Get => pc.Locked?
    case Put => pc.Loaded?
    case Release => pc.Leaving?
  }

  function At(s: State, t: nat, pc: PC): State { s.(pcs := s.pcs[t := pc]) }

  function Next(s: State, a: Action): State
    requires Enabled(s, a)
  {
    var t, pc := a.t, s.pcs[a.t];
    match a.step
    case Spawn(u) => At(s, u, Idle)
    case Call(use) => At(s, t, if s.current then Ready(use) else SawOther(use))
    case NewLock => At(s, t, Relocked(pc.use)).(lock := s.locks, locks := s.locks + 1)
    case Zero => At(s, t, Zeroed(pc.use)).(count := 0)
    case SetPid => At(s, t, Ready(pc.use)).(current := true)
    case Load => At(s, t, Waiting(s.lock, pc.use))
    case Acquire => At(s, t, Locked(pc.lock, pc.use)).(held := s.held[pc.lock := t])
    case Get =>
      if pc.use == Read
      then At(s, t, Leaving(pc.lock)).(readings := s.readings + [s.count])
      else At(s, t, Loaded(pc.lock, s.count))
    case Put => At(s, t, Leaving(pc.lock)).(count := AtCap(pc.seen + 1), drops := s.drops + 1)
    case Release => At(s, t, Idle).(held := s.held - {pc.lock})
  }

  /** The state after a trace, if every action of it was possible. */
  function Run(s: State, tr: seq<Action>): Option<State> {
    if tr == [] then Some(s)
    else
      match Run(s, tr[..|tr| - 1])
      case None => None
      case Some(u) => if Enabled(u, tr[|tr| - 1]) then Some(Next(u, tr[|tr| - 1])) else None
  }

  /** A process that constructed the adapter itself. */
  const STARTED := State(true, 0, 0, map[], map[0 := Idle], 1, 0, [])

  /** A forked child: the parent's count, and lock 0, held by a thread that is not there if `taken`. */
  function Forked(count: nat, taken: bool): State {
    State(false, 0, count, if taken then map[0 := 1] else map[], map[0 := Idle], 1, 0, [])
  }

  // ---------------------------------------------------------------------
  // What holds in a forked child under every interleaving
  // ---------------------------------------------------------------------


  ghost predicate ChildInv(s: State, zeroed: bool) {
    && 0 in s.pcs && 0 < s.locks && s.lock < s.locks
    && (forall l :: l in s.held ==> l < s.locks)
    && (s.current ==> zeroed)
    && (forall t :: t in s.pcs ==> ThreadInv(s, t, zeroed))
    && (zeroed ==> s.count <= s.drops && s.lock != 0)
    && (forall l :: l in s.held && l != 0 ==>
          s.held[l] in s.pcs && s.pcs[s.held[l]].Inside() && s.pcs[s.held[l]].lock == l)
    && (forall i :: 0 <= i < |s.readings| ==> s.readings[i] <= s.drops)
  }

  ghost predicate ThreadInv(s: State, t: nat, zeroed: bool)
    requires t in s.pcs
  {
    var pc := s.pcs[t];
    && (pc.Relocked? ==> s.lock != 0)
    && (!pc.Idle? && !pc.WillZero() ==> zeroed)
    && (pc.HasLock() ==> 0 < pc.lock < s.locks)
    && (pc.Inside() ==> pc.lock in s.held && s.held[pc.lock] == t)
    && (pc.Loaded? ==> pc.seen <= s.drops)
  }

  lemma ChildOther(s: State, zeroed: bool, a: Action, t: nat)
    requires ChildInv(s, zeroed) && Enabled(s, a) && t in s.pcs && t != a.t
    ensures t in Next(s, a).pcs && ThreadInv(Next(s, a), t, zeroed || a.step == Zero)
  {
    assert ThreadInv(s, a.t, zeroed);
    assert ThreadInv(s, t, zeroed);
  }

  lemma ChildThreads(s: State, zeroed: bool, a: Action, t: nat)
    requires ChildInv(s, zeroed) && Enabled(s, a) && t in Next(s, a).pcs
    ensures ThreadInv(Next(s, a), t, zeroed || a.step == Zero)
  {
    if t in s.pcs && t != a.t {
      ChildOther(s, zeroed, a, t);
    } else {
      assert ThreadInv(s, a.t, zeroed);
    }
  }

  lemma ChildHolders(s: State, zeroed: bool, a: Action, l: nat)
    requires ChildInv(s, zeroed) && Enabled(s, a) && l in Next(s, a).held
    ensures var u := Next(s, a);
            l < u.locks
            && (l != 0 ==> u.held[l] in u.pcs && u.pcs[u.held[l]].Inside() && u.pcs[u.held[l]].lock == l)
  {
    assert ThreadInv(s, a.t, zeroed);
  }

  lemma ChildCounts(s: State, zeroed: bool, a: Action)
    requires ChildInv(s, zeroed) && Enabled(s, a)
    ensures var u, z := Next(s, a), zeroed || a.step == Zero;
            && 0 in u.pcs && u.lock < u.locks && (u.current ==> z)
            && (z ==> u.count <= u.drops && u.lock != 0)
            && (forall i :: 0 <= i < |u.readings| ==> u.readings[i] <= u.drops)
  {
    assert ThreadInv(s, a.t, zeroed);
  }

  lemma ChildStep(s: State, zeroed: bool, a: Action)
    requires ChildInv(s, zeroed) && Enabled(s, a)
    ensures ChildInv(Next(s, a), zeroed || a.step == Zero)
  {
    hide Next, ThreadInv;
    var u, z := Next(s, a), zeroed || a.step == Zero;
    ChildCounts(s, zeroed, a);
    forall t | t in u.pcs ensures ThreadInv(u, t, z) {
      ChildThreads(s, zeroed, a, t);
    }
    forall l | l in u.held
      ensures l < u.locks
      ensures l != 0 ==> u.held[l] in u.pcs && u.pcs[u.held[l]].Inside() && u.pcs[u.held[l]].lock == l
    {
      ChildHolders(s, zeroed, a, l);
    }
  }

  ghost predicate HasZeroed(tr: seq<Action>) {
    exists i :: 0 <= i < |tr| && tr[i].step == Zero
  }

  lemma {:induction false} ChildRun(count: nat, taken: bool, tr: seq<Action>)
    requires Run(Forked(count, taken), tr).Some?
    ensures ChildInv(Run(Forked(count, taken), tr).value, HasZeroed(tr))
  {
    if tr == [] {
    } else {
      var before, a := tr[..|tr| - 1], tr[|tr| - 1];
      ChildRun(count, taken, before);
      ChildStep(Run(Forked(count, taken), before).value, HasZeroed(before), a);
      assert HasZeroed(tr) <==> HasZeroed(before) || a.step == Zero;
    }
  }

  /**
   In a forked child, under every interleaving: no thread ever waits for the
   inherited lock, one that waits does so for a live thread of this process,
   and no reading contains a drop of the parent's.
   */
  lemma {:induction false} ChildNeverInherits(count: nat, taken: bool, tr: seq<Action>, t: nat)
    requires Run(Forked(count, taken), tr).Some?
    requires t in Run(Forked(count, taken), tr).value.pcs
    ensures var s := Run(Forked(count, taken), tr).value;
            && (s.pcs[t].Waiting? ==> s.pcs[t].lock != 0)
            && (s.pcs[t].Waiting? && s.pcs[t].lock in s.held ==>
                  s.held[s.pcs[t].lock] in s.pcs && s.pcs[s.held[s.pcs[t].lock]].Inside())
            && (s.current ==> s.count <= s.drops)
            && (forall i :: 0 <= i < |s.readings| ==> s.readings[i] <= s.drops)
  {
    ChildRun(count, taken, tr);
    assert ThreadInv(Run(Forked(count, taken), tr).value, t, HasZeroed(tr));
  }

  // ---------------------------------------------------------------------
  // When the count is exact
  // ---------------------------------------------------------------------

  ghost predicate Exact(s: State) { s.count == AtCap(s.drops) }

  /** A lock object is held by at most one thread. */
  ghost predicate Mutex(s: State) {
    forall t :: t in s.pcs && s.pcs[t].Inside() ==> s.pcs[t].lock in s.held && s.held[s.pcs[t].lock] == t
  }

  /**
   The reset is over, on every thread, and no update can get lost: whoever is
   still to record does so under the current lock, and on the current count.
   One drop short of the cap, an update may get lost, as the count stays at the
   cap anyway; then only an older count must not be written back.
   */
  ghost predicate Safe(s: State) {
    && s.current && Exact(s)
    && (forall t :: t in s.pcs ==> !s.pcs[t].WillZero())
    && (forall t :: t in s.pcs && s.pcs[t].Recording() ==> SafeRecorder(s, s.pcs[t]))
  }

  ghost predicate SafeRecorder(s: State, pc: PC)
    requires pc.Recording()
  {
    if s.drops + 1 < CAP
    then pc.lock == s.lock && (pc.Loaded? ==> pc.seen == s.count)
    else pc.Loaded? ==> pc.seen + 1 >= CAP
  }

  lemma SafeStep(s: State, a: Action)
    requires Safe(s) && Mutex(s) && Enabled(s, a)
    ensures Safe(Next(s, a)) && Mutex(Next(s, a))
    ensures a.step == Get && s.pcs[a.t].use == Read ==>
              Next(s, a).readings == s.readings + [AtCap(s.drops)]
  {
    var u := Next(s, a);
    forall t | t in u.pcs && u.pcs[t].Recording() ensures SafeRecorder(u, u.pcs[t]) {
      if t in s.pcs && s.pcs[t].Recording() {
        assert SafeRecorder(s, s.pcs[t]);
      }
      if a.step == Put {
        assert SafeRecorder(s, s.pcs[a.t]);
      }
    }
    if a.step == Put {
      assert SafeRecorder(s, s.pcs[a.t]);
    }
  }

  /** From then on the count is exactly the number of drops, up to the cap, whatever the interleaving. */
  lemma {:induction false} SafeRun(s: State, tr: seq<Action>)
    requires Safe(s) && Mutex(s) && Run(s, tr).Some?
    ensures Safe(Run(s, tr).value) && Mutex(Run(s, tr).value)
  {
    if tr == [] {
    } else {
      SafeRun(s, tr[..|tr| - 1]);
      SafeStep(Run(s, tr[..|tr| - 1]).value, tr[|tr| - 1]);
    }
  }

  /** A process that built the adapter itself always counts exactly. */
  lemma {:induction false} ExactWithoutFork(tr: seq<Action>)
    requires Run(STARTED, tr).Some?
    ensures Exact(Run(STARTED, tr).value)
    ensures var s := Run(STARTED, tr).value;
            s.count == if s.drops < 9_007_199_254_740_991 then s.drops else 9_007_199_254_740_991
  {
    SafeRun(STARTED, tr);
  }

  /** The four steps by which thread `t` resets the inherited counter. */
  function Reset(t: nat, use: Use): seq<Action> {
    [Action(t, Call(use)), Action(t, NewLock), Action(t, Zero), Action(t, SetPid)]
  }

  lemma {:induction false} RunConcat(s: State, a: seq<Action>, b: seq<Action>)
    ensures Run(s, a + b) ==
            match Run(s, a) case None => None case Some(u) => Run(u, b)
  {
    if b == [] {
      assert a + b == a;
    } else {
      var c := b[..|b| - 1];
      RunConcat(s, a, c);
      assert (a + b)[..|a + b| - 1] == a + c;
    }
  }

  lemma LoneReset(count: nat, taken: bool, use: Use) returns (s: State)
    ensures Run(Forked(count, taken), Reset(0, use)) == Some(s)
    ensures s == State(true, 1, 0, if taken then map[0 := 1] else map[], map[0 := Ready(use)], 2, 0, [])
  {
    var start := Forked(count, taken);
    var tr: seq<Action> := [];
    tr, s := Extend(start, tr, start, Action(0, Call(use)));
    tr, s := Extend(start, tr, s, Action(0, NewLock));
    tr, s := Extend(start, tr, s, Action(0, Zero));
    tr, s := Extend(start, tr, s, Action(0, SetPid));
    assert tr == Reset(0, use);
  }

  /** A child whose first use finishes its reset before any other starts counts exactly from there on. */
  lemma {:induction false} ExactAfterLoneReset(count: nat, taken: bool, use: Use, tr: seq<Action>)
    requires Run(Forked(count, taken), Reset(0, use) + tr).Some?
    ensures Exact(Run(Forked(count, taken), Reset(0, use) + tr).value)
  {
    var s := LoneReset(count, taken, use);
    RunConcat(Forked(count, taken), Reset(0, use), tr);
    SafeRun(s, tr);
  }

  /** Some continuation makes the count wrong; given a thread `only`, one in which no other thread records. */
  ghost predicate CanMiscount(s: State, only: Option<nat> := None) {
    exists u :: Leads(s, u, only) && !Exact(u)
  }

  ghost predicate Leads(s: State, u: State, only: Option<nat> := None) {
    exists tr :: Run(s, tr) == Some(u) && RecordedBy(tr, only)
  }

  ghost predicate RecordedBy(tr: seq<Action>, only: Option<nat>) {
    forall i :: 0 <= i < |tr| ==> MayDo(tr[i], only)
  }

  predicate MayDo(a: Action, only: Option<nat>) {
    only.Some? && a.step == Call(Record) ==> a.t == only.value
  }

  /**
   The exact condition, in a forked child and at any moment of any interleaving:
   the count is and stays right on every continuation if and only if the state
   is safe.  It fails in two ways: a thread that saw the old pid may zero drops
   away, and threads under different lock objects may lose an update.
   */
  lemma {:induction false} ExactForeverIff(count: nat, taken: bool, tr: seq<Action>)
    requires Run(Forked(count, taken), tr).Some?
    ensures var s := Run(Forked(count, taken), tr).value;
            !CanMiscount(s) <==> Safe(s)
  {
    var s := Run(Forked(count, taken), tr).value;
    ChildRun(count, taken, tr);
    if Safe(s) {
      ChildMutex(s, HasZeroed(tr));
      forall u | Leads(s, u) ensures Exact(u) {
        var more :| Run(s, more) == Some(u) && RecordedBy(more, None);
        SafeRun(s, more);
      }
    } else {
      LeadsNowhere(s);
      UnsafeMiscounts(s, HasZeroed(tr));
    }
  }

  lemma ChildMutex(s: State, zeroed: bool)
    requires ChildInv(s, zeroed)
    ensures Mutex(s)
  {
    forall t | t in s.pcs && s.pcs[t].Inside()
      ensures s.pcs[t].lock in s.held && s.held[s.pcs[t].lock] == t
    {
      assert ThreadInv(s, t, zeroed);
    }
  }

  lemma UnsafeMiscounts(s: State, zeroed: bool)
    requires ChildInv(s, zeroed) && !Safe(s)
    ensures CanMiscount(s)
  {
    LeadsNowhere(s);
    if t :| t in s.pcs && s.pcs[t].WillZero() {
      LateReset(s, s, zeroed, t);
    } else if !s.current {
      UnresetMiscounts(s, zeroed);
    } else if Exact(s) {
      var t :| t in s.pcs && s.pcs[t].Recording() && !SafeRecorder(s, s.pcs[t]);
      RecorderMiscounts(s, t);
    }
  }

  /** The pid is not yet recorded: somebody may still start a reset. */
  lemma UnresetMiscounts(s: State, zeroed: bool)
    requires ChildInv(s, zeroed) && Leads(s, s) && !s.current
    ensures CanMiscount(s)
  {
    var v := FreshThread(s);
    var u := Go(s, s, zeroed, Action(0, Spawn(v)));
    u := Go(s, u, zeroed, Action(v, Call(Read)));
    LateReset(s, u, zeroed, v);
  }

  /** A thread that saw the old pid zeroes away a drop that another one has counted since. */
  lemma LateReset(s: State, from: State, zeroed: bool, t: nat)
    requires Leads(s, from) && ChildInv(from, zeroed) && t in from.pcs && from.pcs[t].WillZero()
    ensures CanMiscount(s)
  {
    hide ChildInv, Leads, Run;
    var u := from;
    if u.pcs[t].SawOther? {
      u := Go(s, u, zeroed, Action(t, NewLock));
    }
    var v;
    u, v := NewRecorder(s, u, zeroed);
    u, v := BringToPut(s, u, v);
    u := Go(s, u, true, Action(v, Put));
    u := Go(s, u, true, Action(t, Zero));
    assert !Exact(u);
  }

  /** One recorder whose lock is stale, or whose reading is: somebody's update can get lost. */
  lemma RecorderMiscounts(s: State, t: nat)
    requires ChildInv(s, true) && Leads(s, s) && s.current && Exact(s)
    requires t in s.pcs && s.pcs[t].Recording() && !SafeRecorder(s, s.pcs[t])
    ensures CanMiscount(s)
  {
    assert ThreadInv(s, t, true);
    if x :| x in s.pcs && s.pcs[x].Loaded? && AtCap(s.pcs[x].seen + 1) != AtCap(s.drops + 1) {
      var u := Go(s, s, true, Action(x, Put));
    } else {
      assert s.drops + 1 < CAP;
      assert UpToDate(s);
      LostUpdate(s, t);
    }
  }

  /** Two threads load the count under different lock objects, and both put back one more. */
  lemma LostUpdate(s: State, t: nat)
    requires ChildInv(s, true) && Leads(s, s) && s.current && Exact(s) && s.drops + 1 < CAP && UpToDate(s)
    requires t in s.pcs && s.pcs[t].Recording() && s.pcs[t].lock != s.lock
    ensures CanMiscount(s)
  {
    hide ChildInv, Leads, Run;
    HoldersAre(s, true);
    var u, a := BringToPut(s, s, t);
    var b;
    u, b := NewRecorder(s, u, true);
    u, b := BringToPut(s, u, b);
    u := Go(s, u, true, Action(a, Put));
    u := Go(s, u, true, Action(b, Put));
    assert !Exact(u);
  }

  /** Everyone about to put has seen the current count. */
  ghost predicate UpToDate(s: State) {
    forall t :: t in s.pcs && s.pcs[t].Loaded? ==> s.pcs[t].seen == s.count
  }

  /** Another thread comes along and is about to take the current lock. */
  lemma NewRecorder(s: State, from: State, zeroed: bool) returns (u: State, v: nat)
    requires Leads(s, from) && ChildInv(from, zeroed)
    ensures Leads(s, u) && ChildInv(u, true)
    ensures v in u.pcs && u.pcs[v] == Waiting(u.lock, Record)
    ensures u.pcs.Keys == from.pcs.Keys + {v} && forall x :: x in from.pcs ==> u.pcs[x] == from.pcs[x]
    ensures u.drops == from.drops && (from.current ==> u.count == from.count && u.lock == from.lock)
  {
    hide ChildInv, Leads, Run;
    HoldersAre(from, zeroed);
    v := FreshThread(from);
    u := Go(s, from, zeroed, Action(0, Spawn(v)));
    u := Go(s, u, zeroed, Action(v, Call(Record)));
    if !from.current {
      u := Go(s, u, zeroed, Action(v, NewLock));
      u := Go(s, u, zeroed, Action(v, Zero));
      u := Go(s, u, true, Action(v, SetPid));
    }
    u := Go(s, u, true, Action(v, Load));
  }

  /**
   A thread that is to record under a lock, or another one that holds it to
   record, gets as far as having read the count, and no drop is recorded meanwhile.
   */
  lemma BringToPut(s: State, from: State, t: nat) returns (u: State, b: nat)
    requires Leads(s, from) && ChildInv(from, true) && t in from.pcs && from.pcs[t].Recording()
    ensures Leads(s, u) && ChildInv(u, true)
    ensures b in u.pcs && u.pcs[b].Loaded? && u.pcs[b].lock == from.pcs[t].lock
    ensures u == from.(pcs := u.pcs, held := u.held, readings := u.readings)
    ensures forall x :: x in from.pcs && !(from.pcs[x].HasLock() && from.pcs[x].lock == from.pcs[t].lock) ==>
              x in u.pcs && u.pcs[x] == from.pcs[x]
    ensures UpToDate(from) ==> UpToDate(u)
  {
    hide ChildInv, Leads, Run;
    HoldersAre(from, true);
    var l := from.pcs[t].lock;
    u, b := from, t;
    if u.pcs[t].Waiting? {
      if l in u.held {
        var h := u.held[l];
        if u.pcs[h].Recording() {
          b := h;
        } else {
          u := Vacate(s, u, l);
        }
      }
      if b == t {
        u := Go(s, u, true, Action(t, Acquire));
      }
    }
    if u.pcs[b].Locked? {
      u := Go(s, u, true, Action(b, Get));
    }
  }

  /** A holder that is not recording lets the lock go. */
  lemma Vacate(s: State, from: State, l: nat, only: Option<nat> := None) returns (u: State)
    requires Leads(s, from, only) && ChildInv(from, true) && l != 0 && l in from.held
    requires !from.pcs[from.held[l]].Recording()
    ensures Leads(s, u, only) && ChildInv(u, true)
    ensures u == from.(pcs := from.pcs[from.held[l] := Idle], held := from.held - {l}, readings := u.readings)
  {
    hide ChildInv, Leads, Run;
    HoldersAre(from, true);
    var h := from.held[l];
    u := from;
    if u.pcs[h].Locked? {
      u := Go(s, u, true, Action(h, Get), only);
    }
    u := Go(s, u, true, Action(h, Release), only);
  }

  /** What the invariant says of threads and locks. */
  lemma HoldersAre(s: State, zeroed: bool)
    requires ChildInv(s, zeroed)
    ensures 0 in s.pcs && (s.current ==> zeroed)
    ensures forall t :: t in s.pcs && s.pcs[t].HasLock() ==> s.pcs[t].lock != 0
    ensures forall t :: t in s.pcs && s.pcs[t].Inside() ==>
              s.pcs[t].lock in s.held && s.held[s.pcs[t].lock] == t
    ensures forall l :: l in s.held && l != 0 ==>
              s.held[l] in s.pcs && s.pcs[s.held[l]].Inside() && s.pcs[s.held[l]].lock == l
  {
    forall t | t in s.pcs
      ensures s.pcs[t].HasLock() ==> s.pcs[t].lock != 0
      ensures s.pcs[t].Inside() ==> s.pcs[t].lock in s.held && s.held[s.pcs[t].lock] == t
    {
      assert ThreadInv(s, t, zeroed);
    }
  }

  lemma LeadsNowhere(s: State, only: Option<nat> := None)
    ensures Leads(s, s, only)
  {
    assert Run(s, []) == Some(s);
  }

  lemma Go(s: State, u: State, zeroed: bool, a: Action, only: Option<nat> := None) returns (u': State)
    requires Leads(s, u, only) && ChildInv(u, zeroed) && Enabled(u, a) && MayDo(a, only)
    ensures u' == Next(u, a) && Leads(s, u', only) && ChildInv(u', zeroed || a.step == Zero)
  {
    var tr :| Run(s, tr) == Some(u) && RecordedBy(tr, only);
    var tr';
    tr', u' := Extend(s, tr, u, a);
    ChildStep(u, zeroed, a);
  }

  /**
   The second way needs two recording threads: they reset one after the other, the first
   under a lock that the second then replaces.  Both resets are over and nobody
   is inside, yet two drops make the count rise by one.
   */
  lemma TwoLocks(count: nat, taken: bool) returns (tr: seq<Action>, s: State, more: seq<Action>, u: State)
    ensures Run(Forked(count, taken), tr) == Some(s)
    ensures s.current && Exact(s) && s.lock !in s.held
    ensures forall t :: t in s.pcs ==> !s.pcs[t].WillZero() && !s.pcs[t].Inside()
    ensures Run(s, more) == Some(u) && u.count == 1 && u.drops == 2 && CanMiscount(s)
  {
    tr, s := TwoResets(count, taken);
    more, u := TwoRecords(s);
    assert RecordedBy(more, None) && Leads(s, u);
  }

  lemma TwoResets(count: nat, taken: bool) returns (tr: seq<Action>, s: State)
    ensures Run(Forked(count, taken), tr) == Some(s)
    ensures s == State(true, 2, 0, if taken then map[0 := 1] else map[],
                       map[0 := Waiting(1, Record), 1 := Ready(Record)], 3, 0, [])
  {
    hide Run;
    var start := Forked(count, taken);
    tr, s := [], start;
    RunNothing(start);
    tr, s := Extend(start, tr, s, Action(0, Spawn(1)));
    tr, s := Extend(start, tr, s, Action(0, Call(Record)));
    tr, s := Extend(start, tr, s, Action(1, Call(Record)));
    tr, s := Extend(start, tr, s, Action(0, NewLock));
    tr, s := Extend(start, tr, s, Action(0, Zero));
    tr, s := Extend(start, tr, s, Action(0, SetPid));
    tr, s := Extend(start, tr, s, Action(0, Load));
    tr, s := Extend(start, tr, s, Action(1, NewLock));
    tr, s := Extend(start, tr, s, Action(1, Zero));
    tr, s := Extend(start, tr, s, Action(1, SetPid));
    assert s.pcs == map[0 := Waiting(1, Record), 1 := Ready(Record)];
  }

  lemma TwoRecords(s: State) returns (tr: seq<Action>, u: State)
    requires s.count == 0 && s.drops == 0 && s.pcs == map[0 := Waiting(1, Record), 1 := Ready(Record)]
    requires s.lock == 2 && 1 !in s.held && 2 !in s.held
    ensures Run(s, tr) == Some(u) && u.count == 1 && u.drops == 2
  {
    hide Run;
    tr, u := [], s;
    RunNothing(s);
    tr, u := Extend(s, tr, u, Action(1, Load));
    tr, u := Extend(s, tr, u, Action(0, Acquire));
    tr, u := Extend(s, tr, u, Action(1, Acquire));
    tr, u := Extend(s, tr, u, Action(0, Get));
    tr, u := Extend(s, tr, u, Action(1, Get));
    tr, u := Extend(s, tr, u, Action(0, Put));
    tr, u := Extend(s, tr, u, Action(1, Put));
  }

  lemma RunNothing(s: State)
    ensures Run(s, []) == Some(s)
  {
  }

  // ---------------------------------------------------------------------
  // With a single recording thread
  // ---------------------------------------------------------------------

  // The engine enqueues events, and so records drops, on the runtime's loop
  // thread alone; any other thread may read the count.

  /** The step belongs to a use of the adapter that records. */
  predicate Records(pc: PC) {
    match pc
    case Idle => false
    case Loaded(_, _) => true
    case Leaving(_) => false
    case _ => pc.use == Record
  }

  /** What holds while `r` alone records. */
  ghost predicate LoneInv(s: State, r: nat) {
    && (forall t :: t in s.pcs && t != r ==> !Records(s.pcs[t]))
    && (forall t :: t in s.pcs && (s.pcs[t].Ready? || s.pcs[t].HasLock()) ==> s.current)
    && (s.drops > 0 ==> s.current)
    && (r in s.pcs && s.pcs[r].WillZero() ==> s.drops == 0)
    && (r in s.pcs && s.pcs[r].Loaded? ==> s.pcs[r].seen == s.count || s.count == 0)
  }

  lemma LoneStep(s: State, a: Action, r: nat)
    requires LoneInv(s, r) && Enabled(s, a) && MayDo(a, Some(r))
    ensures LoneInv(Next(s, a), r)
  {
  }

  lemma {:induction false} LoneRun(count: nat, taken: bool, tr: seq<Action>, r: nat)
    requires Run(Forked(count, taken), tr).Some? && RecordedBy(tr, Some(r))
    ensures LoneInv(Run(Forked(count, taken), tr).value, r)
  {
    if tr == [] {
    } else {
      LoneRun(count, taken, tr[..|tr| - 1], r);
      LoneStep(Run(Forked(count, taken), tr[..|tr| - 1]).value, tr[|tr| - 1], r);
    }
  }

  /** The reset is over, except perhaps on the recording thread, and the count is right. */
  ghost predicate LoneSafe(s: State, r: nat) {
    s.current && Exact(s) && forall t :: t in s.pcs && t != r ==> !s.pcs[t].WillZero()
  }

  lemma LoneSafeStep(s: State, a: Action, r: nat)
    requires LoneSafe(s, r) && LoneInv(s, r) && ChildInv(s, true) && Enabled(s, a) && MayDo(a, Some(r))
    ensures LoneSafe(Next(s, a), r)
  {
    assert ThreadInv(s, a.t, true);
  }

  lemma {:induction false} LoneSafeRun(s: State, tr: seq<Action>, r: nat)
    requires LoneSafe(s, r) && LoneInv(s, r) && ChildInv(s, true)
    requires Run(s, tr).Some? && RecordedBy(tr, Some(r))
    ensures var u := Run(s, tr).value; LoneSafe(u, r) && LoneInv(u, r) && ChildInv(u, true)
  {
    if tr == [] {
    } else {
      hide LoneSafe, LoneInv, ChildInv;
      var before, a := tr[..|tr| - 1], tr[|tr| - 1];
      LoneSafeRun(s, before, r);
      var u := Run(s, before).value;
      LoneSafeStep(u, a, r);
      LoneStep(u, a, r);
      ChildStep(u, true, a);
    }
  }

  /**
   The exact condition for the engine's own use of the counter, at any moment
   of any interleaving of one recording thread with any number of readers: the
   count is and stays right if and only if it is right, the pid is recorded,
   and no reader is still to zero it.  Which lock anyone uses does not matter.
   */
  lemma {:induction false} LoneRecorderExactIff(count: nat, taken: bool, tr: seq<Action>, r: nat)
    requires Run(Forked(count, taken), tr).Some? && RecordedBy(tr, Some(r))
    ensures var s := Run(Forked(count, taken), tr).value;
            !CanMiscount(s, Some(r)) <==> LoneSafe(s, r)
  {
    var s := Run(Forked(count, taken), tr).value;
    ChildRun(count, taken, tr);
    LoneRun(count, taken, tr, r);
    if LoneSafe(s, r) {
      forall u | Leads(s, u, Some(r)) ensures Exact(u) {
        var more :| Run(s, more) == Some(u) && RecordedBy(more, Some(r));
        LoneSafeRun(s, more, r);
      }
    } else {
      LoneMiscounts(s, HasZeroed(tr), r);
    }
  }

  lemma LoneMiscounts(s: State, zeroed: bool, r: nat)
    requires ChildInv(s, zeroed) && LoneInv(s, r) && !LoneSafe(s, r)
    ensures CanMiscount(s, Some(r))
  {
    LeadsNowhere(s, Some(r));
    if t :| t in s.pcs && t != r && s.pcs[t].WillZero() {
      ReaderZeroes(s, s, zeroed, t, r);
    } else if !s.current {
      var v := Beyond(s.pcs.Keys + {r});
      var u := Go(s, s, zeroed, Action(0, Spawn(v)), Some(r));
      LoneStep(s, Action(0, Spawn(v)), r);
      var w := Go(s, u, zeroed, Action(v, Call(Read)), Some(r));
      LoneStep(u, Action(v, Call(Read)), r);
      ReaderZeroes(s, w, zeroed, v, r);
    }
  }

  /** A reader that saw the old pid zeroes away the drop that `r` counts meanwhile. */
  lemma ReaderZeroes(s: State, from: State, zeroed: bool, t: nat, r: nat)
    requires Leads(s, from, Some(r)) && ChildInv(from, zeroed) && LoneInv(from, r)
    requires t in from.pcs && t != r && from.pcs[t].WillZero()
    ensures CanMiscount(s, Some(r))
  {
    hide ChildInv, Leads, Run, LoneInv;
    HoldersAre(from, zeroed);
    var u := from;
    if u.pcs[t].SawOther? {
      u := LoneGo(s, u, zeroed, Action(t, NewLock), r);
    }
    if r !in u.pcs {
      u := LoneGo(s, u, zeroed, Action(0, Spawn(r)), r);
    }
    u := RecorderPuts(s, u, zeroed, r);
    u := Go(s, u, true, Action(t, Zero), Some(r));
    assert !Exact(u);
  }

  lemma LoneGo(s: State, u: State, zeroed: bool, a: Action, r: nat) returns (u': State)
    requires Leads(s, u, Some(r)) && ChildInv(u, zeroed) && LoneInv(u, r) && Enabled(u, a) && MayDo(a, Some(r))
    ensures u' == Next(u, a) && Leads(s, u', Some(r)) && ChildInv(u', zeroed || a.step == Zero) && LoneInv(u', r)
  {
    u' := Go(s, u, zeroed, a, Some(r));
    LoneStep(u, a, r);
  }

  /** How far a thread is from having recorded a drop, finishing first what else it is doing. */
  function Left(pc: PC): nat {
    match pc
    case Loaded(_, _) => 1
    case Locked(_, use) => if use == Record then 2 else 10
    case Waiting(_, use) => if use == Record then 3 else 11
    case Ready(use) => if use == Record then 4 else 12
    case Zeroed(use) => if use == Record then 5 else 13
    case Relocked(use) => if use == Record then 6 else 14
    case SawOther(use) => if use == Record then 7 else 15
    case Idle => 8
    case Leaving(_) => 9
  }

  function NextStep(pc: PC): Step {
    match pc
    case Loaded(_, _) => Put
    case Locked(_, _) => Get
    case Waiting(_, _) => Acquire
    case Ready(_) => Load
    case Zeroed(_) => SetPid
    case Relocked(_) => Zero
    case SawOther(_) => NewLock
    case Idle => Call(Record)
    case Leaving(_) => Release
  }

  /** The recording thread gets to put a drop, whatever it is doing; readers in its way leave. */
  lemma {:induction false} RecorderPuts(s: State, from: State, zeroed: bool, r: nat) returns (u: State)
    requires Leads(s, from, Some(r)) && ChildInv(from, zeroed) && LoneInv(from, r) && r in from.pcs
    ensures Leads(s, u, Some(r)) && ChildInv(u, true) && u.drops > 0
    ensures forall x :: x in from.pcs && x != r && from.pcs[x].WillZero() ==> x in u.pcs && u.pcs[x] == from.pcs[x]
    decreases Left(from.pcs[r])
  {
    hide ChildInv, Leads, Run, LoneInv;
    var v := MakeWay(s, from, zeroed, r);
    var step := NextStep(v.pcs[r]);
    v := LoneGo(s, v, zeroed, Action(r, step), r);
    if step == Put {
      HoldersAre(from, zeroed);
      PastReset(from, zeroed, r);
      u := v;
    } else {
      u := RecorderPuts(s, v, zeroed || step == Zero, r);
    }
  }

  /** Once a thread has the lock somebody has zeroed the count. */
  lemma PastReset(s: State, zeroed: bool, t: nat)
    requires ChildInv(s, zeroed) && t in s.pcs && s.pcs[t].HasLock()
    ensures zeroed
  {
    assert ThreadInv(s, t, zeroed);
  }

  /** If `r` waits for a lock that is taken, its holder, a reader, lets go of it. */
  lemma MakeWay(s: State, from: State, zeroed: bool, r: nat) returns (u: State)
    requires Leads(s, from, Some(r)) && ChildInv(from, zeroed) && LoneInv(from, r) && r in from.pcs
    ensures Leads(s, u, Some(r)) && ChildInv(u, zeroed) && LoneInv(u, r)
    ensures r in u.pcs && u.pcs[r] == from.pcs[r] && Enabled(u, Action(r, NextStep(u.pcs[r])))
    ensures forall x :: x in from.pcs && x != r && from.pcs[x].WillZero() ==> x in u.pcs && u.pcs[x] == from.pcs[x]
  {
    hide ChildInv, Leads, Run;
    u := from;
    var pc := from.pcs[r];
    if pc.Waiting? && pc.lock in from.held {
      HoldersAre(from, zeroed);
      PastReset(from, zeroed, r);
      u := Vacate(s, from, pc.lock, Some(r));
    }
  }

  /** It happens: a reader that saw the old pid zeroes a drop that the recorder has counted since. */
  lemma LateReader(count: nat, taken: bool) returns (tr: seq<Action>, s: State)
    ensures Run(Forked(count, taken), tr) == Some(s) && RecordedBy(tr, Some(0))
    ensures s.current && s.drops == 1 && s.count == 0
  {
    hide Run;
    var start := Forked(count, taken);
    tr, s := [], start;
    RunNothing(start);
    tr, s := Extend(start, tr, s, Action(0, Spawn(1)));
    tr, s := Extend(start, tr, s, Action(1, Call(Read)));
    tr, s := Extend(start, tr, s, Action(0, Call(Record)));
    tr, s := Extend(start, tr, s, Action(0, NewLock));
    tr, s := Extend(start, tr, s, Action(0, Zero));
    tr, s := Extend(start, tr, s, Action(0, SetPid));
    tr, s := Extend(start, tr, s, Action(0, Load));
    tr, s := Extend(start, tr, s, Action(0, Acquire));
    tr, s := Extend(start, tr, s, Action(0, Get));
    tr, s := Extend(start, tr, s, Action(0, Put));
    tr, s := Extend(start, tr, s, Action(1, NewLock));
    tr, s := Extend(start, tr, s, Action(1, Zero));
  }

  lemma Extend(s: State, tr: seq<Action>, u: State, a: Action) returns (tr': seq<Action>, u': State)
    requires Run(s, tr) == Some(u) && Enabled(u, a)
    ensures tr' == tr + [a] && Run(s, tr') == Some(u') && u' == Next(u, a)
  {
    tr', u' := tr + [a], Next(u, a);
    assert tr'[..|tr|] == tr;
  }

  lemma FreshThread(s: State) returns (u: nat)
    ensures u !in s.pcs
  {
    u := Beyond(s.pcs.Keys);
  }

  lemma {:induction false} Beyond(ids: set<nat>) returns (u: nat)
    ensures forall t :: t in ids ==> t < u
    decreases |ids|
  {
    if ids == {} {
      u := 0;
    } else {
      var t :| t in ids;
      var v := Beyond(ids - {t});
      assert ids == ids - {t} + {t};
      u := if t < v then v else t + 1;
    }
  }
}
