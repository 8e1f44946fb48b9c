/**
 The per-order lock of controller/topup.go: `LockOrder` and `UnlockOrder` over a table of reference-counted
 mutexes whose entries come and go. Any number of threads call the pair on any trade numbers; one `Step`
 is one access to shared memory (a table load, store or delete, a counter change, a mutex operation), so
 every interleaving of those accesses is a run. Two steps join two accesses: `InTable` a load and the store
 that may follow it, `Deciding` a look at the counter and the delete that may follow it. Both run under
 createLock, and what the first access reads changes only under createLock. All that others do meanwhile is
 to lock or unlock an order's mutex, which neither access touches, and the load in UnlockOrder, which sees the
 table as it was before the step until the second access changes it. So no interleaving is lost.
 */
module OrderLock {
  import opened Basics

  type Thread = nat
  type TradeNo = string
  type Mutex = nat      // the address of a refCountedMutex

  // The program counter of a thread; threads that are not in `pcs` are outside both functions.
  datatype Pc =
    | WantTable(k: TradeNo)                  // LockOrder: at createLock.Lock()
    | InTable(k: TradeNo)                    //   holds createLock, at Load / Store
    | Counting(k: TradeNo, m: Mutex)         //   at rcm.refCount++
    | LeavingTable(k: TradeNo, m: Mutex)     //   at createLock.Unlock()
    | WantMutex(k: TradeNo, m: Mutex)        //   at rcm.mu.Lock()
    | Holding(k: TradeNo, m: Mutex)          // between LockOrder and UnlockOrder
    | Looking(k: TradeNo, m: Mutex)          // UnlockOrder: at orderLocks.Load (m: what LockOrder locked)
    | Releasing(k: TradeNo, m: Mutex)        //   at rcm.mu.Unlock()
    | WantTableAgain(k: TradeNo, m: Mutex)   //   at createLock.Lock()
    | Uncounting(k: TradeNo, m: Mutex)       //   at rcm.refCount--
    | Deciding(k: TradeNo, m: Mutex)         //   at the test of refCount == 0 and Delete
    | LeavingAgain(k: TradeNo)               //   at createLock.Unlock()

  // `holder` and `refCount` describe the mutexes allocated so far: 0, 1, .., |holder| - 1. A mutex whose
  // holder is None is unlocked; the name of the holder is history, Unlock() does not look at it.
  datatype State = State(
    pcs: map<Thread, Pc>,
    table: map<TradeNo, Mutex>,
    holder: seq<Option<Thread>>,
    refCount: seq<int>,
    createLock: Option<Thread>,
    panicked: bool)            // unlock of an unlocked mutex

  datatype Step = Call(t: Thread, k: TradeNo) | Go(t: Thread)

  function Start(): State {
    State(map[], map[], [], [], None, false)
  }

  predicate Allocated(s: State, m: Mutex) {
    m < |s.holder| && m < |s.refCount|
  }

  // A step blocks only at the two Lock() calls.
  predicate Enabled(s: State, step: Step) {
    match step
    case Call(t, _) => t !in s.pcs
    case Go(t) =>
      && t in s.pcs
      && match s.pcs[t]
         case WantTable(_) => s.createLock.None?
         case WantTableAgain(_, _) => s.createLock.None?
         case WantMutex(_, m) => Allocated(s, m) && s.holder[m].None?
         case _ => true
  }

  function At(s: State, t: Thread, pc: Pc): State {
    s.(pcs := s.pcs[t := pc])
  }

  function Add(s: State, m: Mutex, n: int): State {
    if Allocated(s, m) then s.(refCount := s.refCount[m := s.refCount[m] + n]) else s
  }

  function Do(s: State, step: Step): State
    requires Enabled(s, step)
  {
    match step
    case Call(t, k) => At(s, t, WantTable(k))
    case Go(t) =>
      match s.pcs[t]
      case WantTable(k) => At(s, t, InTable(k)).(createLock := Some(t))
      case InTable(k) =>
        if k in s.table then At(s, t, Counting(k, s.table[k]))
        else
          At(s, t, Counting(k, |s.holder|)).(
            table := s.table[k := |s.holder|], holder := s.holder + [None], refCount := s.refCount + [0])
      case Counting(k, m) => Add(At(s, t, LeavingTable(k, m)), m, 1)
      case LeavingTable(k, m) => At(s, t, WantMutex(k, m)).(createLock := None)
      case WantMutex(k, m) => At(s, t, Holding(k, m)).(holder := s.holder[m := Some(t)])
      case Holding(k, m) => At(s, t, Looking(k, m))
      case Looking(k, m) =>
        if k in s.table then At(s, t, Releasing(k, s.table[k]))
        else s.(pcs := s.pcs - {t})
      case Releasing(k, m) =>
        if Allocated(s, m) && s.holder[m].Some? then
          At(s, t, WantTableAgain(k, m)).(holder := s.holder[m := None])
        else s.(panicked := true)
      case WantTableAgain(k, m) => At(s, t, Uncounting(k, m)).(createLock := Some(t))
      case Uncounting(k, m) => Add(At(s, t, Deciding(k, m)), m, -1)
      case Deciding(k, m) =>
        if Allocated(s, m) && s.refCount[m] == 0 then At(s, t, LeavingAgain(k)).(table := s.table - {k})
        else At(s, t, LeavingAgain(k))
      case LeavingAgain(_) => s.(pcs := s.pcs - {t}, createLock := None)
  }

  // The state a run ends in; None when one of its steps was not enabled.
  function After(steps: seq<Step>): Option<State> {
    if |steps| == 0 then Some(Start())
    else
      var last := |steps| - 1;
      match After(steps[..last])
      case None => None
      case Some(s) => if Enabled(s, steps[last]) then Some(Do(s, steps[last])) else None
  }

  // The thread has incremented m's reference count and not yet decremented it.
  predicate Counts(pc: Pc, m: Mutex) {
    match pc
    case LeavingTable(_, n) => n == m
    case WantMutex(_, n) => n == m
    case Holding(_, n) => n == m
    case Looking(_, n) => n == m
    case Releasing(_, n) => n == m
    case WantTableAgain(_, n) => n == m
    case Uncounting(_, n) => n == m
    case _ => false
  }

  // The thread has locked m and not yet unlocked it.
  predicate Owns(pc: Pc, m: Mutex) {
    match pc
    case Holding(_, n) => n == m
    case Looking(_, n) => n == m
    case Releasing(_, n) => n == m
    case _ => false
  }

  predicate InsideTable(pc: Pc) {
    pc.InTable? || pc.Counting? || pc.LeavingTable? || pc.Uncounting? || pc.Deciding? || pc.LeavingAgain?
  }

  function Counters(pcs: map<Thread, Pc>, m: Mutex): set<Thread> {
    set t | t in pcs && Counts(pcs[t], m)
  }

  // The invariant

  // A thread that refers to a mutex refers to the one its trade number maps to.
  predicate PcOk(s: State, t: Thread) {
    t in s.pcs ==>
      && (InsideTable(s.pcs[t]) <==> s.createLock == Some(t))
      && match s.pcs[t]
         case WantTable(_) => true
         case InTable(_) => true
         case LeavingAgain(_) => true
         case pc => pc.k in s.table && s.table[pc.k] == pc.m && Allocated(s, pc.m)
  }

  // The thread that is inside the table and may see an entry whose count is still, or already, zero.
  predicate Unsettled(s: State, m: Mutex) {
    && s.createLock.Some? && s.createLock.value in s.pcs
    && var pc := s.pcs[s.createLock.value];
       (pc.Counting? || pc.Deciding?) && pc.m == m
  }

  predicate EntryOk(s: State, k: TradeNo) {
    k in s.table ==>
      && Allocated(s, s.table[k])
      && (0 < s.refCount[s.table[k]] || Unsettled(s, s.table[k]))
  }

  predicate CountOk(s: State, m: Mutex) {
    Allocated(s, m) ==> s.refCount[m] == |Counters(s.pcs, m)|
  }

  predicate HolderOk(s: State, m: Mutex, t: Thread) {
    Allocated(s, m) ==> (s.holder[m] == Some(t) <==> t in s.pcs && Owns(s.pcs[t], m))
  }

  ghost predicate Inv(s: State) {
    && !s.panicked
    && |s.holder| == |s.refCount|
    && (s.createLock.Some? ==> s.createLock.value in s.pcs && InsideTable(s.pcs[s.createLock.value]))
    && (forall t: Thread :: PcOk(s, t))
    && (forall k: TradeNo :: EntryOk(s, k))
    && (forall j, k :: j in s.table && k in s.table && s.table[j] == s.table[k] ==> j == k)
    && (forall m: Mutex :: CountOk(s, m))
    && (forall m: Mutex, t: Thread :: HolderOk(s, m, t))
  }

  // Every step keeps the invariant

  // A thread other than the one holding createLock that refers to m has been counted in m.
  lemma ReferenceIsCounted(s: State, u: Thread, m: Mutex)
    requires Inv(s) && u in s.pcs && s.createLock != Some(u)
    requires !s.pcs[u].WantTable? && !s.pcs[u].InTable? && !s.pcs[u].LeavingAgain? && s.pcs[u].m == m
    ensures Allocated(s, m) && 0 < s.refCount[m]
  {
    assert PcOk(s, u) && CountOk(s, m);
    assert u in Counters(s.pcs, m);
  }

  lemma OwnPcKept(s: State, step: Step)
    requires Inv(s) && Enabled(s, step)
    ensures PcOk(Do(s, step), step.t)
  {
    assert PcOk(s, step.t);
    if step.Go? {
      assert EntryOk(s, s.pcs[step.t].k);
    }
  }

  lemma OtherPcKept(s: State, step: Step, u: Thread)
    requires Inv(s) && Enabled(s, step) && u != step.t
    ensures PcOk(Do(s, step), u)
  {
    assert PcOk(s, u) && PcOk(s, step.t);
    OneThreadMoves(s, step);
    if step.Go? && s.pcs[step.t].Deciding? && u in s.pcs {
      var m := s.pcs[step.t].m;
      if !s.pcs[u].WantTable? && !s.pcs[u].InTable? && !s.pcs[u].LeavingAgain? && s.pcs[u].m == m {
        ReferenceIsCounted(s, u, m);
      }
    }
  }

  lemma EntryKept(s: State, step: Step, k: TradeNo)
    requires Inv(s) && Enabled(s, step)
    ensures EntryOk(Do(s, step), k)
  {
    assert EntryOk(s, k) && PcOk(s, step.t);
    if k in s.table {
      assert CountOk(s, s.table[k]);
    }
  }

  lemma Without(threads: set<Thread>, t: Thread)
    ensures |threads - {t}| == |threads| - (if t in threads then 1 else 0)
  {
    if t !in threads {
      assert threads - {t} == threads;
    }
  }

  // The two maps agree on every thread but t.
  ghost predicate AgreeOff(pcs: map<Thread, Pc>, pcs': map<Thread, Pc>, t: Thread) {
    forall u :: u != t ==> (u in pcs <==> u in pcs') && (u in pcs ==> pcs[u] == pcs'[u])
  }

  lemma OneThreadMoves(s: State, step: Step)
    requires Enabled(s, step)
    ensures AgreeOff(s.pcs, Do(s, step).pcs, step.t)
  {
    var s' := Do(s, step);
    assert s'.pcs == s.pcs || s'.pcs == s.pcs - {step.t} ||
           (step.t in s'.pcs && s'.pcs == s.pcs[step.t := s'.pcs[step.t]]);
  }

  // Only the moving thread can enter or leave the set of threads counted in m.
  lemma CountersChange(pcs: map<Thread, Pc>, pcs': map<Thread, Pc>, t: Thread, m: Mutex)
    requires AgreeOff(pcs, pcs', t)
    ensures |Counters(pcs', m)| == |Counters(pcs, m)|
        + (if t in pcs' && Counts(pcs'[t], m) then 1 else 0) - (if t in pcs && Counts(pcs[t], m) then 1 else 0)
  {
    assert Counters(pcs', m) - {t} == Counters(pcs, m) - {t};
    Without(Counters(pcs', m), t);
    Without(Counters(pcs, m), t);
  }

  lemma CountKept(s: State, step: Step, m: Mutex)
    requires Inv(s) && Enabled(s, step)
    ensures CountOk(Do(s, step), m)
  {
    var s' := Do(s, step);
    assert CountOk(s, m) && PcOk(s, step.t);
    OneThreadMoves(s, step);
    CountersChange(s.pcs, s'.pcs, step.t, m);
    if !Allocated(s, m) {
      NoReference(s, m);
    }
  }

  lemma HolderKept(s: State, step: Step, m: Mutex, u: Thread)
    requires Inv(s) && Enabled(s, step)
    ensures HolderOk(Do(s, step), m, u)
  {
    assert HolderOk(s, m, u) && HolderOk(s, m, step.t) && PcOk(s, step.t);
    OneThreadMoves(s, step);
    if !Allocated(s, m) {
      NoReference(s, m);
    }
  }

  // A mutex that has not been allocated is not referred to.
  lemma NoReference(s: State, m: Mutex)
    requires Inv(s) && !Allocated(s, m)
    ensures Counters(s.pcs, m) == {}
    ensures forall t :: t in s.pcs ==> !Owns(s.pcs[t], m)
  {
    forall t | t in s.pcs
      ensures !Owns(s.pcs[t], m) && !Counts(s.pcs[t], m)
    {
      assert PcOk(s, t);
    }
  }

  lemma FrameKept(s: State, step: Step)
    requires Inv(s) && Enabled(s, step)
    ensures var s' := Do(s, step);
      && !s'.panicked
      && |s'.holder| == |s'.refCount|
      && (s'.createLock.Some? ==> s'.createLock.value in s'.pcs && InsideTable(s'.pcs[s'.createLock.value]))
      && (forall j, k :: j in s'.table && k in s'.table && s'.table[j] == s'.table[k] ==> j == k)
  {
    assert PcOk(s, step.t);
    if step.Go? && s.pcs[step.t].Releasing? {
      assert HolderOk(s, s.pcs[step.t].m, step.t);
    }
    forall k | k in s.table
      ensures s.table[k] < |s.holder|
    {
      assert EntryOk(s, k);
    }
  }

  lemma StepKeepsInv(s: State, step: Step)
    requires Inv(s) && Enabled(s, step)
    ensures Inv(Do(s, step))
  {
    var s' := Do(s, step);
    FrameKept(s, step);
    forall u: Thread
      ensures PcOk(s', u)
    {
      if u == step.t { OwnPcKept(s, step); } else { OtherPcKept(s, step, u); }
    }
    forall k: TradeNo
      ensures EntryOk(s', k)
    {
      EntryKept(s, step, k);
    }
    forall m: Mutex
      ensures CountOk(s', m)
    {
      CountKept(s, step, m);
    }
    forall m: Mutex, u: Thread
      ensures HolderOk(s', m, u)
    {
      HolderKept(s, step, m, u);
    }
  }

  lemma {:induction false} RunKeepsInv(steps: seq<Step>)
    requires After(steps).Some?
    ensures Inv(After(steps).value)
  {
    if |steps| > 0 {
      var last := |steps| - 1;
      RunKeepsInv(steps[..last]);
      StepKeepsInv(After(steps[..last]).value, steps[last]);
    }
  }

  // What the lock promises

  // The trade number a thread has called LockOrder with last.
  function CalledWith(steps: seq<Step>, t: Thread): Option<TradeNo> {
    if |steps| == 0 then None
    else
      var last := steps[|steps| - 1];
      if last.Call? && last.t == t then Some(last.k) else CalledWith(steps[..|steps| - 1], t)
  }

  // A thread works on the trade number it was called with.
  lemma {:induction false} KeepsItsTradeNo(steps: seq<Step>, t: Thread)
    requires After(steps).Some? && t in After(steps).value.pcs
    ensures CalledWith(steps, t) == Some(After(steps).value.pcs[t].k)
  {
    if |steps| > 0 {
      var last := |steps| - 1;
      var s := After(steps[..last]).value;
      OneThreadMoves(s, steps[last]);
      if t in s.pcs {
        KeepsItsTradeNo(steps[..last], t);
      }
    }
  }

  // t has come out of LockOrder(k) and has not released the mutex in UnlockOrder(k).
  predicate InCriticalSection(s: State, t: Thread, k: TradeNo) {
    t in s.pcs && (s.pcs[t].Holding? || s.pcs[t].Looking? || s.pcs[t].Releasing?) && s.pcs[t].k == k
  }

  lemma MutualExclusion(steps: seq<Step>, t: Thread, u: Thread, k: TradeNo)
    requires After(steps).Some?
    requires InCriticalSection(After(steps).value, t, k) && InCriticalSection(After(steps).value, u, k)
    ensures t == u
  {
    RunKeepsInv(steps);
    var s := After(steps).value;
    assert PcOk(s, t) && PcOk(s, u);
    assert HolderOk(s, s.table[k], t) && HolderOk(s, s.table[k], u);
  }

  // UnlockOrder finds an entry, the entry is the mutex LockOrder locked, and it is still locked by the
  // caller; no run unlocks an unlocked mutex.
  lemma UnlockFindsItsMutex(steps: seq<Step>, t: Thread)
    requires After(steps).Some?
    ensures var s := After(steps).value;
      && !s.panicked
      && (t in s.pcs && (s.pcs[t].Looking? || s.pcs[t].Releasing?) ==>
            && s.pcs[t].k in s.table && s.table[s.pcs[t].k] == s.pcs[t].m
            && s.pcs[t].m < |s.holder| && s.holder[s.pcs[t].m] == Some(t))
  {
    RunKeepsInv(steps);
    var s := After(steps).value;
    assert PcOk(s, t);
    if t in s.pcs && (s.pcs[t].Looking? || s.pcs[t].Releasing?) {
      assert HolderOk(s, s.pcs[t].m, t);
    }
  }

  // The threads that have counted themselves in for trade number k and not yet out.
  function Users(s: State, k: TradeNo): set<Thread> {
    set t | t in s.pcs && !s.pcs[t].WantTable? && !s.pcs[t].InTable? && !s.pcs[t].Counting? &&
            !s.pcs[t].Deciding? && !s.pcs[t].LeavingAgain? && s.pcs[t].k == k
  }

  lemma UsersAreCounters(s: State, k: TradeNo)
    requires Inv(s)
    ensures k in s.table ==> Allocated(s, s.table[k]) && Users(s, k) == Counters(s.pcs, s.table[k])
    ensures k !in s.table ==> Users(s, k) == {}
  {
    assert EntryOk(s, k);
    forall t | t in s.pcs
      ensures k in s.table ==> (t in Users(s, k) <==> Counts(s.pcs[t], s.table[k]))
      ensures k !in s.table ==> t !in Users(s, k)
    {
      assert PcOk(s, t);
    }
  }

  // The reference count is the number of users, and outside createLock a trade number has an entry
  // exactly when it has users; so an idle system keeps no entry.
  lemma TableTracksUsers(steps: seq<Step>, k: TradeNo)
    requires After(steps).Some?
    ensures var s := After(steps).value;
      && (k in s.table ==> s.table[k] < |s.refCount| && s.refCount[s.table[k]] == |Users(s, k)|)
      && (Users(s, k) != {} ==> k in s.table)
      && (s.createLock.None? && k in s.table ==> Users(s, k) != {})
      && (s.pcs == map[] ==> k !in s.table)
  {
    RunKeepsInv(steps);
    var s := After(steps).value;
    assert EntryOk(s, k);
    UsersAreCounters(s, k);
    if k in s.table {
      assert CountOk(s, s.table[k]);
    }
  }

  // As long as somebody is inside either function or between the two, somebody there can move.
  lemma LockNeverDeadlocks(steps: seq<Step>) returns (t: Thread)
    requires After(steps).Some? && After(steps).value.pcs != map[]
    ensures t in After(steps).value.pcs && Enabled(After(steps).value, Go(t))
  {
    RunKeepsInv(steps);
    var s := After(steps).value;
    if s.createLock.Some? {
      return s.createLock.value;
    }
    var u :| u in s.pcs;
    assert PcOk(s, u);
    if s.pcs[u].WantMutex? && s.holder[s.pcs[u].m].Some? {
      var h := s.holder[s.pcs[u].m].value;
      assert HolderOk(s, s.pcs[u].m, h);
      return h;
    }
    return u;
  }

  // Every step gets somewhere

  // How many steps a thread has left until it is out of UnlockOrder.
  function StepsLeft(pc: Pc): nat {
    match pc
    case WantTable(_) => 12
    case InTable(_) => 11
    case Counting(_, _) => 10
    case LeavingTable(_, _) => 9
    case WantMutex(_, _) => 8
    case Holding(_, _) => 7
    case Looking(_, _) => 6
    case Releasing(_, _) => 5
    case WantTableAgain(_, _) => 4
    case Uncounting(_, _) => 3
    case Deciding(_, _) => 2
    case LeavingAgain(_) => 1
  }

  function Left(s: State, t: Thread): nat {
    if t in s.pcs then StepsLeft(s.pcs[t]) else 0
  }

  // A step of t took a mutex that was free, or freed one that t held.

  predicate Takes(s: State, s': State, t: Thread) {
    exists m :: 0 <= m < |s.holder| && m < |s'.holder| && s.holder[m].None? && s'.holder[m] == Some(t)
  }

  predicate Frees(s: State, s': State, t: Thread) {
    exists m :: 0 <= m < |s.holder| && m < |s'.holder| && s.holder[m] == Some(t) && s'.holder[m].None?
  }

  // Every step of a thread brings it one step nearer to the end.
  lemma StepGoesOn(s: State, step: Step)
    requires Inv(s) && Enabled(s, step)
    ensures var s' := Do(s, step);
      && (step.Call? ==> Left(s, step.t) == 0 && Left(s', step.t) == 12)
      && (step.Go? ==> Left(s', step.t) + 1 == Left(s, step.t))
  {
    assert PcOk(s, step.t);
    if step.Go? && s.pcs[step.t].Releasing? {
      assert HolderOk(s, s.pcs[step.t].m, step.t);
    }
  }

  // Exactly one of them takes a mutex and one, further on, frees it.
  lemma StepTakesAndFrees(s: State, step: Step)
    requires Inv(s) && Enabled(s, step)
    ensures var s' := Do(s, step);
      && (Takes(s, s', step.t) <==> step.Go? && Left(s, step.t) == 8)
      && (Frees(s, s', step.t) <==> step.Go? && Left(s, step.t) == 5)
  {
    var s' := Do(s, step);
    assert PcOk(s, step.t);
    if step.Go? && (s.pcs[step.t].WantMutex? || s.pcs[step.t].Releasing?) {
      var m := s.pcs[step.t].m;
      assert HolderOk(s, m, step.t);
      assert s'.holder == s.holder[m := s'.holder[m]];
    } else {
      assert |s.holder| <= |s'.holder| && s'.holder[..|s.holder|] == s.holder;
    }
  }

  lemma OthersStay(s: State, step: Step, u: Thread)
    requires Inv(s) && Enabled(s, step) && u != step.t
    ensures var s' := Do(s, step);
      Left(s', u) == Left(s, u) && !Takes(s, s', u) && !Frees(s, s', u)
  {
    var s' := Do(s, step);
    OneThreadMoves(s, step);
    assert PcOk(s, step.t);
    if step.Go? && s.pcs[step.t].Releasing? {
      assert HolderOk(s, s.pcs[step.t].m, step.t);
    }
  }

  // How many calls and steps a thread has made in a run, and how often it has taken and freed a mutex.

  function CallsOf(steps: seq<Step>, t: Thread): nat {
    if |steps| == 0 then 0
    else CallsOf(steps[..|steps| - 1], t) + if steps[|steps| - 1].Call? && steps[|steps| - 1].t == t then 1 else 0
  }

  function StepsOf(steps: seq<Step>, t: Thread): nat {
    if |steps| == 0 then 0
    else StepsOf(steps[..|steps| - 1], t) + if steps[|steps| - 1] == Go(t) then 1 else 0
  }

  ghost function Taken(steps: seq<Step>, t: Thread): nat
    requires After(steps).Some?
  {
    if |steps| == 0 then 0
    else
      var before := steps[..|steps| - 1];
      Taken(before, t) + if Takes(After(before).value, After(steps).value, t) then 1 else 0
  }

  ghost function Freed(steps: seq<Step>, t: Thread): nat
    requires After(steps).Some?
  {
    if |steps| == 0 then 0
    else
      var before := steps[..|steps| - 1];
      Freed(before, t) + if Frees(After(before).value, After(steps).value, t) then 1 else 0
  }

  // In every run a thread makes twelve steps per call and is out after them. It takes a mutex in the fifth of them
  // and frees it in the eighth, so that whenever it is out it has made exactly twelve, has taken a mutex once per
  // call and has freed it as often.
  lemma {:induction false} TwelveStepsPerCall(steps: seq<Step>, t: Thread)
    requires After(steps).Some?
    ensures var left := Left(After(steps).value, t);
      && StepsOf(steps, t) + left == 12 * CallsOf(steps, t)
      && Taken(steps, t) + (if left >= 8 then 1 else 0) == CallsOf(steps, t)
      && Freed(steps, t) + (if left >= 5 then 1 else 0) == CallsOf(steps, t)
  {
    if |steps| > 0 {
      var last := |steps| - 1;
      var s := After(steps[..last]).value;
      TwelveStepsPerCall(steps[..last], t);
      RunKeepsInv(steps[..last]);
      if steps[last].t == t {
        StepGoesOn(s, steps[last]);
        StepTakesAndFrees(s, steps[last]);
      } else {
        OthersStay(s, steps[last], t);
      }
    }
  }

  // The mutex a thread frees is the one it took: while it has taken one and not freed it, that one is held by it.
  lemma HoldsWhatItTook(steps: seq<Step>, t: Thread, m: Mutex)
    requires After(steps).Some? && m < |After(steps).value.holder| && After(steps).value.holder[m] == Some(t)
    ensures Taken(steps, t) == Freed(steps, t) + 1
    ensures forall n :: 0 <= n < |After(steps).value.holder| && After(steps).value.holder[n] == Some(t) ==> n == m
  {
    RunKeepsInv(steps);
    TwelveStepsPerCall(steps, t);
    var s := After(steps).value;
    assert HolderOk(s, m, t) && PcOk(s, t);
    forall n: Mutex | n < |s.holder| && s.holder[n] == Some(t) ensures n == m {
      assert HolderOk(s, n, t);
    }
  }
}
