/**
 What LockOrder and UnlockOrder guarantee in every run of the top-up protocol: mutual exclusion per
 trade number, a reference count that is exactly the number of threads using the mutex, and a table
 that holds no entry longer than some thread needs it.
 */
module OrderLockSafety {
  import opened Options
  import opened TopUpProtocol

  /** Between createLock.Lock() and createLock.Unlock(). */
  predicate InCreateSection(pc: Pc) {
    pc.LockLoad? || pc.LockStore? || pc.LockCount? || pc.LockRelease? ||
    pc.UnlockCount? || pc.UnlockDelete? || pc.UnlockRelease?
  }

  /** Between the two counter changes, `refCount++` and `refCount--`. */
  predicate Counted(pc: Pc) {
    pc.LockRelease? || pc.LockMutex? || Inside(pc) || pc.UnlockCreate? || pc.UnlockCount?
  }

  /** Between mu.Lock() and mu.Unlock(). */
  predicate Inside(pc: Pc) {
    pc.OrderRead? || pc.OrderUpdate? || pc.OrderCredit? || pc.UnlockLoad? || pc.UnlockMutex?
  }

  /** The thread's `rcm` is the table's entry for its trade number. */
  predicate Attached(pc: Pc) {
    Counted(pc) || pc.LockCount? || pc.UnlockDelete?
  }

  /** The threads that mutex `m` counts. */
  ghost function Users(threads: map<ThreadId, Thread>, m: MutexId): set<ThreadId> {
    set t | t in threads && Counted(threads[t].pc) && threads[t].rcm == m
  }

  ghost predicate CreateLockOwned(s: State) {
    && (forall t :: t in s.threads && InCreateSection(s.threads[t].pc) ==> s.createLock == Some(t))
    && (s.createLock.Some? ==>
          s.createLock.value in s.threads && InCreateSection(s.threads[s.createLock.value].pc))
  }

  ghost predicate TableSound(s: State) {
    && (forall n :: n in s.table ==> s.table[n] < |s.heap|)
    && (forall n, n' :: n in s.table && n' in s.table && s.table[n] == s.table[n'] ==> n == n')
    && (forall t :: t in s.threads ==> SeesTable(s.threads[t], s.table))
  }

  /** The thread's reference is the table's entry; a thread about to store has seen that there is none. */
  predicate SeesTable(th: Thread, table: map<TradeNo, MutexId>) {
    && (Attached(th.pc) ==> th.tradeNo in table && table[th.tradeNo] == th.rcm)
    && (th.pc.LockStore? ==> th.tradeNo !in table)
  }

  ghost predicate CountsExact(s: State) {
    forall m :: 0 <= m < |s.heap| ==> s.heap[m].refCount == |Users(s.threads, m)|
  }

  ghost predicate HoldersExact(s: State) {
    && (forall m :: 0 <= m < |s.heap| && s.heap[m].holder.Some? ==>
          var t := s.heap[m].holder.value;
          t in s.threads && Inside(s.threads[t].pc) && s.threads[t].rcm == m)
    && (forall t :: t in s.threads && Inside(s.threads[t].pc) && s.threads[t].rcm < |s.heap| ==>
          s.heap[s.threads[t].rcm].holder == Some(t))
  }

  /** An entry that counts nobody is about to be counted, or deleted, by the owner of createLock. */
  ghost predicate EntriesUsed(s: State) {
    forall n :: n in s.table && s.table[n] < |s.heap| && s.heap[s.table[n]].refCount == 0 ==>
      && s.createLock.Some? && s.createLock.value in s.threads
      && s.threads[s.createLock.value].tradeNo == n
      && (s.threads[s.createLock.value].pc.LockCount? || s.threads[s.createLock.value].pc.UnlockDelete?)
  }

  ghost predicate LockInv(s: State) {
    CreateLockOwned(s) && TableSound(s) && CountsExact(s) && HoldersExact(s) && EntriesUsed(s)
  }

  /** A step of `t`: no other thread moves, and `t` keeps its trade number. */
  ghost predicate Moved(s: State, s': State, t: ThreadId) {
    && t in s.threads && t in s'.threads && s'.threads == s.threads[t := s'.threads[t]]
    && s'.threads[t].tradeNo == s.threads[t].tradeNo
  }

  // Each part of the invariant, under a step described by what it changes

  /** createLock is left alone, taken by `t` or released by `t`. */
  ghost predicate CreateLockStep(s: State, s': State, t: ThreadId)
    requires t in s.threads && t in s'.threads
  {
    var before, after := InCreateSection(s.threads[t].pc), InCreateSection(s'.threads[t].pc);
    || (s'.createLock == s.createLock && before == after)
    || (s.createLock.None? && s'.createLock == Some(t) && after)
    || (s.createLock == Some(t) && s'.createLock.None? && !after)
  }

  lemma CreateLockMoved(s: State, s': State, t: ThreadId)
    requires CreateLockOwned(s) && Moved(s, s', t) && CreateLockStep(s, s', t)
    ensures CreateLockOwned(s')
  {
  }

  lemma TableKept(s: State, s': State, t: ThreadId)
    requires TableSound(s) && s'.table == s.table && |s'.heap| == |s.heap|
    requires t in s'.threads && s'.threads == s.threads[t := s'.threads[t]] && SeesTable(s'.threads[t], s.table)
    ensures TableSound(s')
  {
    forall u | u in s'.threads ensures SeesTable(s'.threads[u], s'.table) {
      assert u != t ==> s'.threads[u] == s.threads[u];
    }
  }

  /** What a step of `t` does to the user set of every mutex. */
  lemma UsersAfterMove(threads: map<ThreadId, Thread>, t: ThreadId, th: Thread, m: MutexId)
    requires t in threads
    ensures Users(threads[t := th], m) ==
            (Users(threads, m) - {t}) + (if Counted(th.pc) && th.rcm == m then {t} else {})
  {
  }

  function Uses(th: Thread, m: MutexId): int {
    if Counted(th.pc) && th.rcm == m then 1 else 0
  }

  lemma CountsAfterMove(s: State, s': State, t: ThreadId)
    requires Moved(s, s', t) && CountsExact(s) && |s.heap| <= |s'.heap|
    requires forall m :: |s.heap| <= m < |s'.heap| ==>
               s'.heap[m].refCount == 0 && Users(s'.threads, m) == {}
    requires forall m :: 0 <= m < |s.heap| ==>
               s'.heap[m].refCount - s.heap[m].refCount == Uses(s'.threads[t], m) - Uses(s.threads[t], m)
    ensures CountsExact(s')
  {
    forall m | 0 <= m < |s'.heap| ensures s'.heap[m].refCount == |Users(s'.threads, m)| {
      if m < |s.heap| {
        UsersAfterMove(s.threads, t, s'.threads[t], m);
      }
    }
  }

  /** A step that neither locks nor unlocks a `mu` leaves holders and insiders in agreement. */
  lemma HoldersAfterMove(s: State, s': State, t: ThreadId)
    requires Moved(s, s', t) && TableSound(s) && HoldersExact(s) && |s.heap| <= |s'.heap|
    requires forall m :: 0 <= m < |s'.heap| ==>
               s'.heap[m].holder == (if m < |s.heap| then s.heap[m].holder else None)
    requires Inside(s'.threads[t].pc) == Inside(s.threads[t].pc)
    requires Inside(s.threads[t].pc) ==> s'.threads[t].rcm == s.threads[t].rcm
    ensures HoldersExact(s')
  {
  }

  /** Every entry counts somebody. */
  ghost predicate NoIdle(s: State) {
    forall n :: n in s.table && s.table[n] < |s.heap| ==> s.heap[s.table[n]].refCount != 0
  }

  lemma NoIdleUnless(s: State)
    requires CreateLockOwned(s) && EntriesUsed(s)
    requires s.createLock.Some? ==>
               var pc := s.threads[s.createLock.value].pc; !pc.LockCount? && !pc.UnlockDelete?
    ensures NoIdle(s)
  {
  }

  lemma EntriesKept(s: State, s': State, t: ThreadId)
    requires Moved(s, s', t) && EntriesUsed(s) && s'.table == s.table && |s'.heap| == |s.heap|
    requires forall m :: 0 <= m < |s.heap| ==> s'.heap[m].refCount == s.heap[m].refCount
    requires NoIdle(s) || (s'.createLock == s.createLock && s.createLock != Some(t))
    ensures EntriesUsed(s')
  {
  }

  // Steps that change neither the table nor a mutex

  ghost predicate Quiet(s: State, s': State, t: ThreadId) {
    && Moved(s, s', t) && s'.table == s.table && s'.heap == s.heap && CreateLockStep(s, s', t)
    && var th, th' := s.threads[t], s'.threads[t];
    && SeesTable(th', s.table)
    && Counted(th'.pc) == Counted(th.pc) && Inside(th'.pc) == Inside(th.pc)
    && (Counted(th.pc) ==> th'.rcm == th.rcm)
    && (NoIdle(s) || (s'.createLock == s.createLock && s.createLock != Some(t)))
  }

  lemma QuietKeepsLockInv(s: State, s': State, t: ThreadId)
    requires LockInv(s) && Quiet(s, s', t)
    ensures LockInv(s')
  {
    assert CreateLockOwned(s') by { CreateLockMoved(s, s', t); }
    assert TableSound(s') by { TableKept(s, s', t); }
    assert CountsExact(s') by { CountsAfterMove(s, s', t); }
    assert HoldersExact(s') by { HoldersAfterMove(s, s', t); }
    assert EntriesUsed(s') by { EntriesKept(s, s', t); }
  }

  /** What the invariant says of one thread. */
  lemma Standing(s: State, t: ThreadId)
    requires LockInv(s) && t in s.threads
    ensures SeesTable(s.threads[t], s.table)
    ensures InCreateSection(s.threads[t].pc) <==> s.createLock == Some(t)
    ensures s.createLock.None? ==> NoIdle(s)
    ensures s.createLock == Some(t) && !s.threads[t].pc.LockCount? && !s.threads[t].pc.UnlockDelete? ==> NoIdle(s)
    ensures Attached(s.threads[t].pc) ==> s.threads[t].rcm < |s.heap|
  {
    if s.createLock.None? || (s.createLock == Some(t) && !s.threads[t].pc.LockCount? && !s.threads[t].pc.UnlockDelete?) {
      NoIdleUnless(s);
    }
  }

  lemma LockCreateQuiet(s: State, t: ThreadId)
    requires NoIdle(s) && Enabled(s, Step(t, true)) && s.threads[t].pc.LockCreate?
    ensures Quiet(s, LockOrderStep(s, t), t)
  {
  }

  lemma LockLoadQuiet(s: State, t: ThreadId)
    requires NoIdle(s) && t in s.threads && s.threads[t].pc.LockLoad?
    ensures Quiet(s, LockOrderStep(s, t), t)
  {
  }

  lemma LockReleaseQuiet(s: State, t: ThreadId)
    requires NoIdle(s) && t in s.threads && s.threads[t].pc.LockRelease?
    requires s.createLock == Some(t) && SeesTable(s.threads[t], s.table)
    ensures Quiet(s, LockOrderStep(s, t), t)
  {
  }

  lemma UnlockLoadQuiet(s: State, t: ThreadId)
    requires t in s.threads && s.threads[t].pc.UnlockLoad?
    requires s.createLock != Some(t) && SeesTable(s.threads[t], s.table)
    ensures Quiet(s, UnlockOrderStep(s, t), t)
  {
  }

  lemma UnlockCreateQuiet(s: State, t: ThreadId)
    requires NoIdle(s) && Enabled(s, Step(t, true)) && s.threads[t].pc.UnlockCreate? && SeesTable(s.threads[t], s.table)
    ensures Quiet(s, UnlockOrderStep(s, t), t)
  {
  }

  lemma UnlockDeleteQuiet(s: State, t: ThreadId)
    requires NoIdle(s) && t in s.threads && s.threads[t].pc.UnlockDelete?
    requires MutexAt(s.heap, s.threads[t].rcm).refCount != 0
    ensures Quiet(s, UnlockOrderStep(s, t), t)
  {
  }

  lemma UnlockReleaseQuiet(s: State, t: ThreadId)
    requires NoIdle(s) && t in s.threads && s.threads[t].pc.UnlockRelease? && s.createLock == Some(t)
    ensures Quiet(s, UnlockOrderStep(s, t), t)
  {
  }

  /** A handler step moves one thread between program points inside the lock. */
  lemma HandlerStepQuiet(s: State, t: ThreadId, ok: bool)
    requires t in s.threads && InHandler(s.threads[t].pc)
    requires s.createLock != Some(t) && SeesTable(s.threads[t], s.table)
    ensures Quiet(s, HandlerStep(s, t, ok), t)
  {
    HandlerStepFrame(s, t, ok);
  }

  /** What a handler step leaves alone. */
  ghost predicate InsideStep(s: State, s': State, t: ThreadId) {
    && s'.createLock == s.createLock && s'.table == s.table && s'.heap == s.heap
    && Moved(s, s', t) && Inside(s'.threads[t].pc) && s'.threads[t].rcm == s.threads[t].rcm
  }

  lemma ReadFrame(s: State, t: ThreadId)
    requires t in s.threads
    ensures InsideStep(s, ReadStep(s, t), t) && InsideStep(s, Goto(s, t, UnlockLoad), t)
  {
  }

  lemma UpdateFrame(s: State, t: ThreadId, ok: bool)
    requires t in s.threads
    ensures InsideStep(s, UpdateStep(s, t, ok), t)
  {
  }

  lemma CreditFrame(s: State, t: ThreadId, ok: bool)
    requires t in s.threads
    ensures InsideStep(s, CreditStep(s, t, ok), t)
  {
  }

  lemma HandlerStepFrame(s: State, t: ThreadId, ok: bool)
    requires t in s.threads && InHandler(s.threads[t].pc)
    ensures InsideStep(s, HandlerStep(s, t, ok), t)
  {
    ReadFrame(s, t);
    UpdateFrame(s, t, ok);
    CreditFrame(s, t, ok);
    TransactionFrame(s, s.threads[t].job, s.threads[t].tradeNo);
  }

  lemma TransactionFrame(s: State, job: Job, n: TradeNo)
    ensures var s' := RunTransaction(s, job, n);
            s'.createLock == s.createLock && s'.table == s.table && s'.heap == s.heap && s'.threads == s.threads
  {
  }

  // The store of a new mutex

  lemma TableStored(s: State, t: ThreadId)
    requires CreateLockOwned(s) && TableSound(s) && t in s.threads && s.threads[t].pc.LockStore?
    ensures TableSound(LockOrderStep(s, t))
  {
    var s' := LockOrderStep(s, t);
    forall u | u in s'.threads ensures SeesTable(s'.threads[u], s'.table) {
      assert u != t ==> s'.threads[u] == s.threads[u] && SeesTable(s.threads[u], s.table);
    }
  }

  lemma NewMutexUnused(s: State, t: ThreadId)
    requires TableSound(s) && t in s.threads && s.threads[t].pc.LockStore?
    ensures Users(LockOrderStep(s, t).threads, |s.heap|) == {}
  {
    forall u | u in s.threads && Counted(s.threads[u].pc) ensures s.threads[u].rcm < |s.heap| {
      assert SeesTable(s.threads[u], s.table);
    }
  }

  lemma StoreCounts(s: State, t: ThreadId)
    requires TableSound(s) && CountsExact(s) && t in s.threads && s.threads[t].pc.LockStore?
    ensures CountsExact(LockOrderStep(s, t))
  {
    NewMutexUnused(s, t);
    CountsAfterMove(s, LockOrderStep(s, t), t);
  }

  lemma StoreEntries(s: State, t: ThreadId)
    requires CreateLockOwned(s) && TableSound(s) && EntriesUsed(s) && t in s.threads && s.threads[t].pc.LockStore?
    ensures EntriesUsed(LockOrderStep(s, t))
  {
    NoIdleUnless(s);
  }

  lemma StoreKeepsLockInv(s: State, t: ThreadId)
    requires LockInv(s) && t in s.threads && s.threads[t].pc.LockStore?
    ensures LockInv(LockOrderStep(s, t))
  {
    var s' := LockOrderStep(s, t);
    assert CreateLockOwned(s') by { CreateLockMoved(s, s', t); }
    assert TableSound(s') by { TableStored(s, t); }
    assert CountsExact(s') by { StoreCounts(s, t); }
    assert HoldersExact(s') by { HoldersAfterMove(s, s', t); }
    assert EntriesUsed(s') by { StoreEntries(s, t); }
  }

  // The two counter changes

  /** A step that changes only the count or the holder of the mutex `t` refers to. */
  ghost predicate Touched(s: State, s': State, t: ThreadId, refCount: int, holder: Option<ThreadId>) {
    && Moved(s, s', t) && s'.table == s.table && s'.createLock == s.createLock
    && s'.threads[t].rcm == s.threads[t].rcm < |s.heap|
    && s'.heap == s.heap[s.threads[t].rcm := Mutex(refCount, holder)]
  }

  lemma CountStep(s: State, t: ThreadId)
    requires t in s.threads && s.threads[t].pc.LockCount? && s.threads[t].rcm < |s.heap|
    ensures var s', mu := LockOrderStep(s, t), s.heap[s.threads[t].rcm];
            Touched(s, s', t, mu.refCount + 1, mu.holder) && s'.threads[t].pc.LockRelease?
  {
  }

  lemma UncountStep(s: State, t: ThreadId)
    requires t in s.threads && s.threads[t].pc.UnlockCount? && s.threads[t].rcm < |s.heap|
    ensures var s', mu := UnlockOrderStep(s, t), s.heap[s.threads[t].rcm];
            Touched(s, s', t, mu.refCount - 1, mu.holder) && s'.threads[t].pc.UnlockDelete?
  {
  }

  lemma CountEntries(s: State, s': State, t: ThreadId)
    requires CreateLockOwned(s) && TableSound(s) && CountsExact(s) && EntriesUsed(s)
    requires t in s.threads && s.threads[t].pc.LockCount? && s.threads[t].rcm < |s.heap|
    requires Touched(s, s', t, s.heap[s.threads[t].rcm].refCount + 1, s.heap[s.threads[t].rcm].holder)
    ensures EntriesUsed(s')
  {
    assert SeesTable(s.threads[t], s.table);
  }

  /** The count follows the thread that starts or stops using the mutex. */
  lemma CountFollows(s: State, s': State, t: ThreadId, refCount: int, holder: Option<ThreadId>)
    requires CountsExact(s) && Touched(s, s', t, refCount, holder)
    requires var m := s.threads[t].rcm;
             refCount - s.heap[m].refCount == Uses(s'.threads[t], m) - Uses(s.threads[t], m)
    ensures CountsExact(s')
  {
    CountsAfterMove(s, s', t);
  }

  /** What a change of a count by the owner of createLock leaves alone. */
  lemma CountChangeKeeps(s: State, s': State, t: ThreadId, refCount: int)
    requires CreateLockOwned(s) && TableSound(s) && HoldersExact(s) && t in s.threads && s.threads[t].rcm < |s.heap|
    requires Touched(s, s', t, refCount, s.heap[s.threads[t].rcm].holder) && SeesTable(s'.threads[t], s.table)
    requires InCreateSection(s.threads[t].pc) && InCreateSection(s'.threads[t].pc)
    ensures CreateLockOwned(s') && TableSound(s') && HoldersExact(s')
  {
    CreateLockMoved(s, s', t);
    TableKept(s, s', t);
    HoldersAfterMove(s, s', t);
  }

  lemma CountKeepsLockInv(s: State, s': State, t: ThreadId)
    requires LockInv(s) && t in s.threads && s.threads[t].pc.LockCount? && s.threads[t].rcm < |s.heap|
    requires SeesTable(s.threads[t], s.table)
    requires Touched(s, s', t, s.heap[s.threads[t].rcm].refCount + 1, s.heap[s.threads[t].rcm].holder)
    requires s'.threads[t].pc.LockRelease?
    ensures LockInv(s')
  {
    var mu := s.heap[s.threads[t].rcm];
    CountFollows(s, s', t, mu.refCount + 1, mu.holder);
    CountChangeKeeps(s, s', t, mu.refCount + 1);
    CountEntries(s, s', t);
  }

  /** The entry whose last user leaves is the one about to be deleted. */
  lemma UncountEntries(s: State, s': State, t: ThreadId)
    requires CreateLockOwned(s) && TableSound(s) && NoIdle(s)
    requires t in s.threads && s.threads[t].pc.UnlockCount? && s.threads[t].rcm < |s.heap|
    requires Touched(s, s', t, s.heap[s.threads[t].rcm].refCount - 1, s.heap[s.threads[t].rcm].holder)
    requires s'.threads[t].pc.UnlockDelete?
    ensures EntriesUsed(s')
  {
    assert SeesTable(s.threads[t], s.table);
  }

  lemma UncountKeepsLockInv(s: State, s': State, t: ThreadId)
    requires LockInv(s) && NoIdle(s) && t in s.threads && s.threads[t].pc.UnlockCount? && s.threads[t].rcm < |s.heap|
    requires SeesTable(s.threads[t], s.table)
    requires Touched(s, s', t, s.heap[s.threads[t].rcm].refCount - 1, s.heap[s.threads[t].rcm].holder)
    requires s'.threads[t].pc.UnlockDelete?
    ensures LockInv(s')
  {
    var mu := s.heap[s.threads[t].rcm];
    CountFollows(s, s', t, mu.refCount - 1, mu.holder);
    CountChangeKeeps(s, s', t, mu.refCount - 1);
    UncountEntries(s, s', t);
  }

  // Locking and unlocking the order's mutex

  lemma LockStep(s: State, t: ThreadId)
    requires t in s.threads && s.threads[t].pc.LockMutex? && s.threads[t].rcm < |s.heap|
    ensures var s', mu := LockOrderStep(s, t), s.heap[s.threads[t].rcm];
            Touched(s, s', t, mu.refCount, Some(t)) && s'.threads[t].pc.OrderRead?
  {
  }

  lemma UnlockStep(s: State, t: ThreadId)
    requires t in s.threads && s.threads[t].pc.UnlockMutex? && s.threads[t].rcm < |s.heap|
    ensures var s', mu := UnlockOrderStep(s, t), s.heap[s.threads[t].rcm];
            Touched(s, s', t, mu.refCount, None) && s'.threads[t].pc.UnlockCreate?
  {
  }

  lemma MutexLocked(s: State, s': State, t: ThreadId)
    requires HoldersExact(s) && Moved(s, s', t) && s.threads[t].rcm < |s.heap|
    requires !Inside(s.threads[t].pc) && s.heap[s.threads[t].rcm].holder.None?
    requires Touched(s, s', t, s.heap[s.threads[t].rcm].refCount, Some(t)) && Inside(s'.threads[t].pc)
    ensures HoldersExact(s')
  {
  }

  lemma MutexUnlocked(s: State, s': State, t: ThreadId)
    requires HoldersExact(s) && Moved(s, s', t) && s.threads[t].rcm < |s.heap|
    requires Inside(s.threads[t].pc) && !Inside(s'.threads[t].pc)
    requires Touched(s, s', t, s.heap[s.threads[t].rcm].refCount, None)
    ensures HoldersExact(s')
  {
  }

  /** Every other part of the invariant survives a change of the holder alone. */
  lemma HolderChangeKeeps(s: State, s': State, t: ThreadId, holder: Option<ThreadId>)
    requires LockInv(s) && t in s.threads && s.threads[t].rcm < |s.heap| && s.createLock != Some(t)
    requires Touched(s, s', t, s.heap[s.threads[t].rcm].refCount, holder)
    requires Counted(s.threads[t].pc) && Counted(s'.threads[t].pc)
    requires !InCreateSection(s.threads[t].pc) && !InCreateSection(s'.threads[t].pc)
    ensures CreateLockOwned(s') && TableSound(s') && CountsExact(s') && EntriesUsed(s')
  {
    assert SeesTable(s.threads[t], s.table);
    assert CreateLockOwned(s') by { CreateLockMoved(s, s', t); }
    assert TableSound(s') by { TableKept(s, s', t); }
    assert CountsExact(s') by { CountsAfterMove(s, s', t); }
    assert EntriesUsed(s') by { EntriesKept(s, s', t); }
  }

  // The deletion of an entry

  /** When the last user has left, no other thread is attached to the entry. */
  lemma NobodyAttached(s: State, t: ThreadId, u: ThreadId)
    requires CreateLockOwned(s) && TableSound(s) && CountsExact(s) && t in s.threads && s.threads[t].pc.UnlockDelete?
    requires MutexAt(s.heap, s.threads[t].rcm).refCount == 0
    requires u in s.threads && u != t && Attached(s.threads[u].pc)
    ensures s.threads[u].tradeNo != s.threads[t].tradeNo
  {
    var m := s.threads[t].rcm;
    assert SeesTable(s.threads[t], s.table) && SeesTable(s.threads[u], s.table);
    assert |Users(s.threads, m)| == 0;
    assert u !in Users(s.threads, m);
  }

  lemma TableDeleted(s: State, t: ThreadId)
    requires CreateLockOwned(s) && TableSound(s) && CountsExact(s) && t in s.threads && s.threads[t].pc.UnlockDelete?
    requires MutexAt(s.heap, s.threads[t].rcm).refCount == 0
    ensures TableSound(UnlockOrderStep(s, t))
  {
    var s' := UnlockOrderStep(s, t);
    forall u | u in s'.threads ensures SeesTable(s'.threads[u], s'.table) {
      if u != t && Attached(s.threads[u].pc) {
        NobodyAttached(s, t, u);
      }
      assert SeesTable(s.threads[u], s.table);
    }
  }

  lemma DeleteEntries(s: State, t: ThreadId)
    requires CreateLockOwned(s) && TableSound(s) && EntriesUsed(s) && t in s.threads && s.threads[t].pc.UnlockDelete?
    requires MutexAt(s.heap, s.threads[t].rcm).refCount == 0
    ensures EntriesUsed(UnlockOrderStep(s, t))
  {
  }

  lemma DeleteKeepsLockInv(s: State, t: ThreadId)
    requires LockInv(s) && t in s.threads && s.threads[t].pc.UnlockDelete?
    requires MutexAt(s.heap, s.threads[t].rcm).refCount == 0
    ensures LockInv(UnlockOrderStep(s, t))
  {
    var s' := UnlockOrderStep(s, t);
    assert CreateLockOwned(s') by { CreateLockMoved(s, s', t); }
    assert TableSound(s') by { TableDeleted(s, t); }
    assert CountsExact(s') by { CountsAfterMove(s, s', t); }
    assert HoldersExact(s') by { HoldersAfterMove(s, s', t); }
    assert EntriesUsed(s') by { DeleteEntries(s, t); }
  }

  // All steps

  lemma LockOrderKeepsLockInv(s: State, t: ThreadId)
    requires LockInv(s) && Enabled(s, Step(t, true)) && InLockOrder(s.threads[t].pc)
    ensures LockInv(LockOrderStep(s, t))
  {
    var s' := LockOrderStep(s, t);
    Standing(s, t);
    match s.threads[t].pc
    case LockCreate => LockCreateQuiet(s, t); QuietKeepsLockInv(s, s', t);
    case LockLoad => LockLoadQuiet(s, t); QuietKeepsLockInv(s, s', t);
    case LockStore => StoreKeepsLockInv(s, t);
    case LockCount => CountStep(s, t); CountKeepsLockInv(s, s', t);
    case LockRelease => LockReleaseQuiet(s, t); QuietKeepsLockInv(s, s', t);
    case LockMutex =>
      LockStep(s, t);
      MutexLocked(s, s', t);
      HolderChangeKeeps(s, s', t, Some(t));
  }

  lemma UnlockDeleteKeepsLockInv(s: State, t: ThreadId)
    requires LockInv(s) && t in s.threads && s.threads[t].pc.UnlockDelete?
    ensures LockInv(UnlockOrderStep(s, t))
  {
    if MutexAt(s.heap, s.threads[t].rcm).refCount == 0 {
      DeleteKeepsLockInv(s, t);
    } else {
      Standing(s, t);
      assert NoIdle(s);
      UnlockDeleteQuiet(s, t);
      QuietKeepsLockInv(s, UnlockOrderStep(s, t), t);
    }
  }

  lemma UnlockOrderKeepsLockInv(s: State, t: ThreadId)
    requires LockInv(s) && Enabled(s, Step(t, true)) && !InLockOrder(s.threads[t].pc) && !InHandler(s.threads[t].pc)
    ensures LockInv(UnlockOrderStep(s, t))
  {
    var s' := UnlockOrderStep(s, t);
    Standing(s, t);
    match s.threads[t].pc
    case UnlockLoad => UnlockLoadQuiet(s, t); QuietKeepsLockInv(s, s', t);
    case UnlockMutex =>
      UnlockStep(s, t);
      MutexUnlocked(s, s', t);
      HolderChangeKeeps(s, s', t, None);
    case UnlockCreate => UnlockCreateQuiet(s, t); QuietKeepsLockInv(s, s', t);
    case UnlockCount => UncountStep(s, t); UncountKeepsLockInv(s, s', t);
    case UnlockDelete => UnlockDeleteKeepsLockInv(s, t);
    case UnlockRelease => UnlockReleaseQuiet(s, t); QuietKeepsLockInv(s, s', t);
  }

  lemma SpawnCounts(s: State, t: ThreadId, job: Job, tradeNo: TradeNo)
    requires CountsExact(s) && Enabled(s, Spawn(t, job, tradeNo))
    ensures CountsExact(Apply(s, Spawn(t, job, tradeNo)))
  {
    var s' := Apply(s, Spawn(t, job, tradeNo));
    forall m | 0 <= m < |s'.heap| ensures s'.heap[m].refCount == |Users(s'.threads, m)| {
      assert Users(s'.threads, m) == Users(s.threads, m);
    }
  }

  lemma SpawnTable(s: State, t: ThreadId, job: Job, tradeNo: TradeNo)
    requires TableSound(s) && Enabled(s, Spawn(t, job, tradeNo))
    ensures TableSound(Apply(s, Spawn(t, job, tradeNo)))
  {
    TableKept(s, Apply(s, Spawn(t, job, tradeNo)), t);
  }

  lemma SpawnOwners(s: State, t: ThreadId, job: Job, tradeNo: TradeNo)
    requires CreateLockOwned(s) && HoldersExact(s) && EntriesUsed(s) && Enabled(s, Spawn(t, job, tradeNo))
    ensures var s' := Apply(s, Spawn(t, job, tradeNo)); CreateLockOwned(s') && HoldersExact(s') && EntriesUsed(s')
  {
  }

  lemma SpawnKeepsLockInv(s: State, t: ThreadId, job: Job, tradeNo: TradeNo)
    requires LockInv(s) && Enabled(s, Spawn(t, job, tradeNo))
    ensures LockInv(Apply(s, Spawn(t, job, tradeNo)))
  {
    var s' := Apply(s, Spawn(t, job, tradeNo));
    assert CountsExact(s') by { SpawnCounts(s, t, job, tradeNo); }
    assert TableSound(s') by { SpawnTable(s, t, job, tradeNo); }
    assert CreateLockOwned(s') && HoldersExact(s') && EntriesUsed(s') by { SpawnOwners(s, t, job, tradeNo); }
  }

  /** Every atomic action keeps the lock invariant. */
  lemma ApplyKeepsLockInv(s: State, a: Action)
    requires LockInv(s) && Enabled(s, a)
    ensures LockInv(Apply(s, a))
  {
    match a
    case Spawn(t, job, tradeNo) => SpawnKeepsLockInv(s, t, job, tradeNo);
    case Insert(_, _) =>
    case Step(t, ok) =>
      var pc := s.threads[t].pc;
      if InHandler(pc) {
        Standing(s, t);
        HandlerStepQuiet(s, t, ok);
        QuietKeepsLockInv(s, HandlerStep(s, t, ok), t);
      } else if InLockOrder(pc) {
        LockOrderKeepsLockInv(s, t);
      } else {
        UnlockOrderKeepsLockInv(s, t);
      }
  }

  lemma {:induction false} RunKeepsLockInv(run: seq<State>, acts: seq<Action>, balances: map<UserId, int>, i: nat)
    requires IsRun(run, acts, balances) && i < |run|
    ensures LockInv(run[i])
  {
    if i > 0 {
      RunKeepsLockInv(run, acts, balances, i - 1);
      ApplyKeepsLockInv(run[i - 1], acts[i - 1]);
    }
  }

  /** At most one thread is between LockOrder and UnlockOrder for a trade number, in every run. */
  lemma MutualExclusion(run: seq<State>, acts: seq<Action>, balances: map<UserId, int>, i: nat, t: ThreadId, u: ThreadId)
    requires IsRun(run, acts, balances) && i < |run|
    requires t in run[i].threads && u in run[i].threads
    requires Inside(run[i].threads[t].pc) && Inside(run[i].threads[u].pc)
    requires run[i].threads[t].tradeNo == run[i].threads[u].tradeNo
    ensures t == u
  {
    RunKeepsLockInv(run, acts, balances, i);
  }

  /** A thread that reaches UnlockOrder finds its own mutex in the table and unlocks a mutex it holds,
      so the early return of UnlockOrder and the fatal unlock of an unlocked mutex never happen. */
  lemma UnlockFindsOwnMutex(run: seq<State>, acts: seq<Action>, balances: map<UserId, int>, i: nat, t: ThreadId)
    requires IsRun(run, acts, balances) && i < |run|
    requires t in run[i].threads
    requires run[i].threads[t].pc.UnlockLoad? || run[i].threads[t].pc.UnlockMutex?
    ensures var s, th := run[i], run[i].threads[t];
            && th.tradeNo in s.table && s.table[th.tradeNo] < |s.heap|
            && s.heap[s.table[th.tradeNo]].holder == Some(t)
            && th.rcm == s.table[th.tradeNo]
  {
    RunKeepsLockInv(run, acts, balances, i);
  }

  /** While nobody is in a createLock section, a trade number has an entry exactly when some thread is
      between the two counter changes for it, and the entry's refCount is the number of those threads. */
  lemma EntryExactlyWhileUsed(run: seq<State>, acts: seq<Action>, balances: map<UserId, int>, i: nat, n: TradeNo)
    requires IsRun(run, acts, balances) && i < |run| && run[i].createLock.None?
    ensures n in run[i].table <==>
            exists t :: t in run[i].threads && Counted(run[i].threads[t].pc) && run[i].threads[t].tradeNo == n
    ensures n in run[i].table ==>
              && run[i].table[n] < |run[i].heap|
              && run[i].heap[run[i].table[n]].refCount ==
                 |set t | t in run[i].threads && Counted(run[i].threads[t].pc) && run[i].threads[t].tradeNo == n|
  {
    RunKeepsLockInv(run, acts, balances, i);
    var s := run[i];
    if n in s.table {
      var users := set t | t in s.threads && Counted(s.threads[t].pc) && s.threads[t].tradeNo == n;
      assert users == Users(s.threads, s.table[n]);
      assert users != {};
      var t :| t in users;
    }
  }

  /** When every thread has finished, no mutex is left in the table. */
  lemma QuiescentTableEmpty(run: seq<State>, acts: seq<Action>, balances: map<UserId, int>, i: nat)
    requires IsRun(run, acts, balances) && i < |run|
    requires forall t :: t in run[i].threads ==> run[i].threads[t].pc.Done?
    ensures run[i].table == map[] && run[i].createLock.None?
  {
    RunKeepsLockInv(run, acts, balances, i);
    if n :| n in run[i].table {
      EntryExactlyWhileUsed(run, acts, balances, i, n);
    }
  }

  /** The lock cannot deadlock: while some thread is unfinished, some thread can take a step. */
  lemma NoDeadlock(run: seq<State>, acts: seq<Action>, balances: map<UserId, int>, i: nat, t: ThreadId)
    returns (u: ThreadId)
    requires IsRun(run, acts, balances) && i < |run|
    requires t in run[i].threads && !run[i].threads[t].pc.Done?
    ensures Enabled(run[i], Step(u, true))
  {
    RunKeepsLockInv(run, acts, balances, i);
    var s := run[i];
    u := t;
    if s.threads[t].pc.LockMutex? && s.heap[s.threads[t].rcm].holder.Some? {
      u := s.heap[s.threads[t].rcm].holder.value;
    } else if (s.threads[t].pc.LockCreate? || s.threads[t].pc.UnlockCreate?) && s.createLock.Some? {
      u := s.createLock.value;
    }
  }
}
