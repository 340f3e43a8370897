/**
 The happy path of an Epay notification: nobody else wants the order's lock and no database call
 fails. The fifteen steps of LockOrder, the handler and UnlockOrder end with the order successful,
 its due credited and the lock table as it was.
 */
module UncontendedRun {
  import opened Options
  import opened TopUpProtocol

  ghost predicate OneStep(s: State, t: ThreadId, s': State) {
    Enabled(s, Step(t, true)) && s' == Apply(s, Step(t, true))
  }

  /** Consecutive steps of `t`, each of them enabled, without failures. */
  ghost predicate Path(path: seq<State>, t: ThreadId, from: State, to: State) {
    && |path| > 0 && path[0] == from && path[|path| - 1] == to
    && forall i :: 0 <= i < |path| - 1 ==> OneStep(path[i], t, path[i + 1])
  }

  ghost predicate SameDatabase(a: State, b: State) {
    a.orders == b.orders && a.balances == b.balances && a.credits == b.credits && a.dropped == b.dropped
  }

  lemma PathsJoin(p: seq<State>, q: seq<State>, t: ThreadId, s: State, s1: State, s2: State)
    requires Path(p, t, s, s1) && Path(q, t, s1, s2)
    ensures Path(p + q[1..], t, s, s2)
  {
    var r := p + q[1..];
    forall i | 0 <= i < |r| - 1 ensures OneStep(r[i], t, r[i + 1]) {
      if i >= |p| - 1 {
        assert OneStep(q[i - |p| + 1], t, q[i - |p| + 2]);
      }
    }
  }

  /** `s` with the lock state given and `t` at the given program point. */
  function Form(s: State, t: ThreadId, pc: Pc, rcm: MutexId, owner: Option<ThreadId>, heap: seq<Mutex>,
                table: map<TradeNo, MutexId>): State
    requires t in s.threads
  {
    s.(threads := s.threads[t := s.threads[t].(pc := pc, rcm := rcm)], createLock := owner, heap := heap, table := table)
  }

  lemma Overwrite(threads: map<ThreadId, Thread>, t: ThreadId, a: Thread, b: Thread)
    ensures threads[t := a][t := b] == threads[t := b]
  {
  }

  // The steps of LockOrder, one at a time

  lemma LockCreateStep(s: State, t: ThreadId, r: MutexId, h: seq<Mutex>, tb: map<TradeNo, MutexId>)
    requires t in s.threads
    ensures OneStep(Form(s, t, LockCreate, r, None, h, tb), t, Form(s, t, LockLoad, r, Some(t), h, tb))
  {
    Overwrite(s.threads, t, s.threads[t].(pc := LockCreate, rcm := r), s.threads[t].(pc := LockLoad, rcm := r));
  }

  lemma LockLoadStep(s: State, t: ThreadId, r: MutexId, h: seq<Mutex>, tb: map<TradeNo, MutexId>)
    requires t in s.threads && s.threads[t].tradeNo !in tb
    ensures OneStep(Form(s, t, LockLoad, r, Some(t), h, tb), t, Form(s, t, LockStore, r, Some(t), h, tb))
  {
    Overwrite(s.threads, t, s.threads[t].(pc := LockLoad, rcm := r), s.threads[t].(pc := LockStore, rcm := r));
  }

  lemma LockStoreStep(s: State, t: ThreadId, r: MutexId, h: seq<Mutex>, tb: map<TradeNo, MutexId>)
    requires t in s.threads
    ensures OneStep(Form(s, t, LockStore, r, Some(t), h, tb), t,
                    Form(s, t, LockCount, |h|, Some(t), h + [Mutex(0, None)], tb[s.threads[t].tradeNo := |h|]))
  {
    Overwrite(s.threads, t, s.threads[t].(pc := LockStore, rcm := r), s.threads[t].(pc := LockCount, rcm := |h|));
  }

  lemma LockCountStep(s: State, t: ThreadId, r: MutexId, h: seq<Mutex>, tb: map<TradeNo, MutexId>)
    requires t in s.threads && r < |h|
    ensures OneStep(Form(s, t, LockCount, r, Some(t), h, tb), t,
                    Form(s, t, LockRelease, r, Some(t), h[r := h[r].(refCount := h[r].refCount + 1)], tb))
  {
    Overwrite(s.threads, t, s.threads[t].(pc := LockCount, rcm := r), s.threads[t].(pc := LockRelease, rcm := r));
  }

  lemma LockReleaseStep(s: State, t: ThreadId, r: MutexId, h: seq<Mutex>, tb: map<TradeNo, MutexId>)
    requires t in s.threads
    ensures OneStep(Form(s, t, LockRelease, r, Some(t), h, tb), t, Form(s, t, LockMutex, r, None, h, tb))
  {
    Overwrite(s.threads, t, s.threads[t].(pc := LockRelease, rcm := r), s.threads[t].(pc := LockMutex, rcm := r));
  }

  lemma LockMutexStep(s: State, t: ThreadId, r: MutexId, h: seq<Mutex>, tb: map<TradeNo, MutexId>)
    requires t in s.threads && r < |h| && h[r].holder.None?
    ensures OneStep(Form(s, t, LockMutex, r, None, h, tb), t,
                    Form(s, t, OrderRead, r, None, h[r := h[r].(holder := Some(t))], tb))
  {
    Overwrite(s.threads, t, s.threads[t].(pc := LockMutex, rcm := r), s.threads[t].(pc := OrderRead, rcm := r));
  }

  /** The state in which `t` holds the lock of an order that had no entry. */
  function Locked(s: State, t: ThreadId): State
    requires t in s.threads
  {
    Form(s, t, OrderRead, |s.heap|, None, s.heap + [Mutex(1, Some(t))], s.table[s.threads[t].tradeNo := |s.heap|])
  }

  lemma Locks(s: State, t: ThreadId) returns (path: seq<State>)
    requires t in s.threads && s.threads[t].pc.LockCreate? && s.createLock.None?
    requires s.threads[t].tradeNo !in s.table
    ensures |path| == 7 && Path(path, t, s, Locked(s, t))
    ensures forall i :: 0 <= i < |path| ==> SameDatabase(s, path[i])
  {
    var r, h, m := s.threads[t].rcm, s.heap, |s.heap|;
    var tb := s.table[s.threads[t].tradeNo := m];
    var h0, h1, h2 := h + [Mutex(0, None)], h + [Mutex(1, None)], h + [Mutex(1, Some(t))];
    LockCreateStep(s, t, r, h, s.table);
    LockLoadStep(s, t, r, h, s.table);
    LockStoreStep(s, t, r, h, s.table);
    LockCountStep(s, t, m, h0, tb);
    assert h0[m := h0[m].(refCount := h0[m].refCount + 1)] == h1;
    LockReleaseStep(s, t, m, h1, tb);
    LockMutexStep(s, t, m, h1, tb);
    assert h1[m := h1[m].(holder := Some(t))] == h2;
    path := [Form(s, t, LockCreate, r, None, h, s.table), Form(s, t, LockLoad, r, Some(t), h, s.table),
             Form(s, t, LockStore, r, Some(t), h, s.table), Form(s, t, LockCount, m, Some(t), h0, tb),
             Form(s, t, LockRelease, m, Some(t), h1, tb), Form(s, t, LockMutex, m, None, h1, tb),
             Form(s, t, OrderRead, m, None, h2, tb)];
    SameState(s, t);
  }

  lemma SameState(s: State, t: ThreadId)
    requires t in s.threads
    ensures Form(s, t, s.threads[t].pc, s.threads[t].rcm, s.createLock, s.heap, s.table) == s
  {
    assert s.threads[t := s.threads[t]] == s.threads;
  }

  // The three steps of the handler

  /** The row a notification stores. */
  function Notified(s: State, t: ThreadId): Order
    requires t in s.threads && s.threads[t].job.EpayNotify? && s.threads[t].tradeNo in s.orders
  {
    s.orders[s.threads[t].tradeNo].(status := Success, payMethod := s.threads[t].job.callbackType)
  }

  ghost predicate Payable(s: State, t: ThreadId) {
    && t in s.threads && s.threads[t].job.EpayNotify?
    && var n := s.threads[t].tradeNo;
    n in s.orders && s.orders[n].provider.Epay? && s.orders[n].status.Pending? && s.orders[n].amountQuota >= 0
  }

  function WithCopy(s: State, t: ThreadId, pc: Pc, o: Order): State
    requires t in s.threads
  {
    s.(threads := s.threads[t := s.threads[t].(pc := pc, copy := Some(o))])
  }

  function AfterUpdate(s: State, t: ThreadId): State
    requires Payable(s, t)
  {
    WithCopy(s, t, OrderCredit, Notified(s, t)).(orders := s.orders[s.threads[t].tradeNo := Notified(s, t)])
  }

  /** The state after a successful notification handler. */
  function Handled(s: State, t: ThreadId): State
    requires Payable(s, t)
  {
    var o := Notified(s, t);
    AddCredit(WithCopy(s, t, UnlockLoad, o).(orders := s.orders[s.threads[t].tradeNo := o]),
              s.threads[t].tradeNo, o.user, o.amountQuota)
  }

  lemma ReadsOrder(s: State, t: ThreadId)
    requires Payable(s, t) && s.threads[t].pc.OrderRead?
    ensures OneStep(s, t, WithCopy(s, t, OrderUpdate, s.orders[s.threads[t].tradeNo]))
  {
  }

  lemma UpdatesOrder(s: State, t: ThreadId)
    requires Payable(s, t)
    ensures OneStep(WithCopy(s, t, OrderUpdate, s.orders[s.threads[t].tradeNo]), t, AfterUpdate(s, t))
  {
    var th, n := s.threads[t], s.threads[t].tradeNo;
    Overwrite(s.threads, t, th.(pc := OrderUpdate, copy := Some(s.orders[n])),
              th.(pc := OrderCredit, copy := Some(Notified(s, t))));
  }

  lemma CreditsOrder(s: State, t: ThreadId)
    requires Payable(s, t)
    ensures OneStep(AfterUpdate(s, t), t, Handled(s, t))
  {
    var th, o := s.threads[t], Notified(s, t);
    Overwrite(s.threads, t, th.(pc := OrderCredit, copy := Some(o)), th.(pc := UnlockLoad, copy := Some(o)));
  }

  lemma Handles(s: State, t: ThreadId) returns (path: seq<State>)
    requires Payable(s, t) && s.threads[t].pc.OrderRead?
    ensures |path| == 4 && Path(path, t, s, Handled(s, t))
  {
    ReadsOrder(s, t);
    UpdatesOrder(s, t);
    CreditsOrder(s, t);
    path := [s, WithCopy(s, t, OrderUpdate, s.orders[s.threads[t].tradeNo]), AfterUpdate(s, t), Handled(s, t)];
  }

  // The steps of UnlockOrder, one at a time

  lemma UnlockLoadStep(s: State, t: ThreadId, r: MutexId, h: seq<Mutex>, tb: map<TradeNo, MutexId>)
    requires t in s.threads && s.threads[t].tradeNo in tb
    ensures OneStep(Form(s, t, UnlockLoad, r, None, h, tb), t,
                    Form(s, t, UnlockMutex, tb[s.threads[t].tradeNo], None, h, tb))
  {
    Overwrite(s.threads, t, s.threads[t].(pc := UnlockLoad, rcm := r),
              s.threads[t].(pc := UnlockMutex, rcm := tb[s.threads[t].tradeNo]));
  }

  lemma UnlockMutexStep(s: State, t: ThreadId, r: MutexId, h: seq<Mutex>, tb: map<TradeNo, MutexId>)
    requires t in s.threads && r < |h|
    ensures OneStep(Form(s, t, UnlockMutex, r, None, h, tb), t,
                    Form(s, t, UnlockCreate, r, None, h[r := h[r].(holder := None)], tb))
  {
    Overwrite(s.threads, t, s.threads[t].(pc := UnlockMutex, rcm := r), s.threads[t].(pc := UnlockCreate, rcm := r));
  }

  lemma UnlockCreateStep(s: State, t: ThreadId, r: MutexId, h: seq<Mutex>, tb: map<TradeNo, MutexId>)
    requires t in s.threads
    ensures OneStep(Form(s, t, UnlockCreate, r, None, h, tb), t, Form(s, t, UnlockCount, r, Some(t), h, tb))
  {
    Overwrite(s.threads, t, s.threads[t].(pc := UnlockCreate, rcm := r), s.threads[t].(pc := UnlockCount, rcm := r));
  }

  lemma UnlockCountStep(s: State, t: ThreadId, r: MutexId, h: seq<Mutex>, tb: map<TradeNo, MutexId>)
    requires t in s.threads && r < |h|
    ensures OneStep(Form(s, t, UnlockCount, r, Some(t), h, tb), t,
                    Form(s, t, UnlockDelete, r, Some(t), h[r := h[r].(refCount := h[r].refCount - 1)], tb))
  {
    Overwrite(s.threads, t, s.threads[t].(pc := UnlockCount, rcm := r), s.threads[t].(pc := UnlockDelete, rcm := r));
  }

  lemma UnlockDeleteStep(s: State, t: ThreadId, r: MutexId, h: seq<Mutex>, tb: map<TradeNo, MutexId>)
    requires t in s.threads && r < |h| && h[r].refCount == 0
    ensures OneStep(Form(s, t, UnlockDelete, r, Some(t), h, tb), t,
                    Form(s, t, UnlockRelease, r, Some(t), h, tb - {s.threads[t].tradeNo}))
  {
    Overwrite(s.threads, t, s.threads[t].(pc := UnlockDelete, rcm := r), s.threads[t].(pc := UnlockRelease, rcm := r));
  }

  lemma UnlockReleaseStep(s: State, t: ThreadId, r: MutexId, h: seq<Mutex>, tb: map<TradeNo, MutexId>)
    requires t in s.threads
    ensures OneStep(Form(s, t, UnlockRelease, r, Some(t), h, tb), t, Form(s, t, Done, r, None, h, tb))
  {
    Overwrite(s.threads, t, s.threads[t].(pc := UnlockRelease, rcm := r), s.threads[t].(pc := Done, rcm := r));
  }

  /** The state after the last user of an order's mutex has left. */
  function Unlocked(s: State, t: ThreadId): State
    requires t in s.threads && s.threads[t].tradeNo in s.table && s.table[s.threads[t].tradeNo] < |s.heap|
  {
    var n := s.threads[t].tradeNo;
    Form(s, t, Done, s.table[n], None, s.heap[s.table[n] := Mutex(0, None)], s.table - {n})
  }

  lemma Unlocks(s: State, t: ThreadId) returns (path: seq<State>)
    requires t in s.threads && s.threads[t].pc.UnlockLoad? && s.createLock.None?
    requires var n := s.threads[t].tradeNo;
             n in s.table && s.table[n] < |s.heap| && s.heap[s.table[n]] == Mutex(1, Some(t))
    ensures |path| == 7 && Path(path, t, s, Unlocked(s, t))
  {
    var n, r, tb := s.threads[t].tradeNo, s.threads[t].rcm, s.table;
    var m := tb[n];
    var h, h1, h2 := s.heap, s.heap[m := Mutex(1, None)], s.heap[m := Mutex(0, None)];
    UnlockLoadStep(s, t, r, h, tb);
    UnlockMutexStep(s, t, m, h, tb);
    UnlockCreateStep(s, t, m, h1, tb);
    UnlockCountStep(s, t, m, h1, tb);
    assert h1[m := h1[m].(refCount := h1[m].refCount - 1)] == h2;
    UnlockDeleteStep(s, t, m, h2, tb);
    UnlockReleaseStep(s, t, m, h2, tb - {n});
    path := [Form(s, t, UnlockLoad, r, None, h, tb), Form(s, t, UnlockMutex, m, None, h, tb),
             Form(s, t, UnlockCreate, m, None, h1, tb), Form(s, t, UnlockCount, m, Some(t), h1, tb),
             Form(s, t, UnlockDelete, m, Some(t), h2, tb), Form(s, t, UnlockRelease, m, Some(t), h2, tb - {n}),
             Form(s, t, Done, m, None, h2, tb - {n})];
    SameState(s, t);
  }

  /** A notification for a pending Epay order that meets nobody else marks it successful, adds its due
      to its user's balance and leaves the lock table empty of the order. */
  lemma UncontendedNotifyCredits(s: State, t: ThreadId) returns (path: seq<State>, s': State)
    requires Payable(s, t) && s.threads[t].pc.LockCreate? && s.createLock.None? && s.threads[t].tradeNo !in s.table
    ensures |path| == 16 && Path(path, t, s, s')
    ensures var n := s.threads[t].tradeNo;
            && t in s'.threads && s'.threads[t].pc.Done?
            && s'.table == s.table && s'.createLock.None?
            && s'.orders == s.orders[n := s.orders[n].(status := Success, payMethod := s.threads[t].job.callbackType)]
            && s'.credits == s.credits + [Credit(n, s.orders[n].user, s.orders[n].amountQuota)]
            && (s.orders[n].user in s.balances ==>
                  s'.balances == s.balances[s.orders[n].user := s.balances[s.orders[n].user] + s.orders[n].amountQuota])
  {
    var s1 := Locked(s, t);
    var p1 := Locks(s, t);
    var p2 := Handles(s1, t);
    var s2 := Handled(s1, t);
    var p3 := Unlocks(s2, t);
    s' := Unlocked(s2, t);
    PathsJoin(p1, p2, t, s, s1, s2);
    PathsJoin(p1 + p2[1..], p3, t, s, s2, s');
    path := p1 + p2[1..] + p3[1..];
    assert s'.table == s.table;
  }
}
