/** Every run of the top-up protocol that starts finitely many handlers ends, and it ends with all of them done. */
module RunsEnd {
  import opened Options
  import opened TopUpProtocol
  import opened OrderLockSafety

  /** The most steps a thread at this program point still takes. */
  function Rank(pc: Pc): (r: nat)
    ensures r <= 15
  {
    match pc
    case LockCreate => 15
    case LockLoad => 14
    case LockStore => 13
    case LockCount => 12
    case LockRelease => 11
    case LockMutex => 10
    case OrderRead => 9
    case OrderUpdate => 8
    case OrderCredit => 7
    case UnlockLoad => 6
    case UnlockMutex => 5
    case UnlockCreate => 4
    case UnlockCount => 3
    case UnlockDelete => 2
    case UnlockRelease => 1
    case Done => 0
  }

  /** Only `t` moves, and it moves towards its end. */
  ghost predicate Descends(s: State, s': State, t: ThreadId) {
    && t in s.threads && t in s'.threads && s'.threads == s.threads[t := s'.threads[t]]
    && Rank(s'.threads[t].pc) < Rank(s.threads[t].pc)
  }

  lemma LockOrderDescends(s: State, t: ThreadId)
    requires t in s.threads && InLockOrder(s.threads[t].pc)
    ensures Descends(s, LockOrderStep(s, t), t)
  {
  }

  lemma UnlockOrderDescends(s: State, t: ThreadId)
    requires t in s.threads && !InLockOrder(s.threads[t].pc) && !InHandler(s.threads[t].pc) && !s.threads[t].pc.Done?
    ensures Descends(s, UnlockOrderStep(s, t), t)
  {
    match s.threads[t].pc {
      case UnlockLoad =>
      case UnlockMutex =>
      case UnlockCreate =>
      case UnlockCount =>
      case UnlockDelete => UnlockDeleteDescends(s, t);
      case UnlockRelease =>
    }
  }

  lemma UnlockDeleteDescends(s: State, t: ThreadId)
    requires t in s.threads && s.threads[t].pc.UnlockDelete?
    ensures Descends(s, UnlockOrderStep(s, t), t)
  {
  }

  lemma ReadDescends(s: State, t: ThreadId, ok: bool)
    requires t in s.threads && s.threads[t].pc.OrderRead?
    ensures Descends(s, HandlerStep(s, t, ok), t)
  {
    TransactionFrame(s, s.threads[t].job, s.threads[t].tradeNo);
  }

  lemma UpdateDescends(s: State, t: ThreadId, ok: bool)
    requires t in s.threads && s.threads[t].pc.OrderUpdate?
    ensures Descends(s, UpdateStep(s, t, ok), t)
  {
  }

  lemma CreditDescends(s: State, t: ThreadId, ok: bool)
    requires t in s.threads && s.threads[t].pc.OrderCredit?
    ensures Descends(s, CreditStep(s, t, ok), t)
  {
  }

  lemma HandlerDescends(s: State, t: ThreadId, ok: bool)
    requires t in s.threads && InHandler(s.threads[t].pc)
    ensures Descends(s, HandlerStep(s, t, ok), t)
  {
    match s.threads[t].pc {
      case OrderRead => ReadDescends(s, t, ok);
      case OrderUpdate => UpdateDescends(s, t, ok);
      case OrderCredit => CreditDescends(s, t, ok);
    }
  }

  lemma StepDescends(s: State, t: ThreadId, ok: bool)
    requires Enabled(s, Step(t, ok))
    ensures Descends(s, Apply(s, Step(t, ok)), t)
  {
    if InHandler(s.threads[t].pc) {
      HandlerDescends(s, t, ok);
    } else if InLockOrder(s.threads[t].pc) {
      LockOrderDescends(s, t);
    } else {
      UnlockOrderDescends(s, t);
    }
  }

  // Counting

  function Steps(acts: seq<Action>): nat {
    if acts == [] then 0 else Steps(acts[..|acts| - 1]) + if acts[|acts| - 1].Step? then 1 else 0
  }

  function Spawns(acts: seq<Action>): nat {
    if acts == [] then 0 else Spawns(acts[..|acts| - 1]) + if acts[|acts| - 1].Spawn? then 1 else 0
  }

  /** The ranks of the threads below `n`, added up. */
  function Total(threads: map<ThreadId, Thread>, n: nat): nat {
    if n == 0 then 0 else Total(threads, n - 1) + if n - 1 in threads then Rank(threads[n - 1].pc) else 0
  }

  function RankAt(threads: map<ThreadId, Thread>, t: ThreadId): nat {
    if t in threads then Rank(threads[t].pc) else 0
  }

  lemma {:induction false} TotalUpdate(threads: map<ThreadId, Thread>, t: ThreadId, th: Thread, n: nat)
    ensures Total(threads[t := th], n) ==
            Total(threads, n) + if t < n then Rank(th.pc) - RankAt(threads, t) else 0
    decreases n
  {
    if n > 0 {
      TotalUpdate(threads, t, th, n - 1);
    }
  }

  /** One action pays for itself: a spawn brings fifteen steps, a step uses up at least one. */
  lemma ActionPays(s: State, a: Action, n: nat)
    requires Enabled(s, a) && forall t :: t in Apply(s, a).threads ==> t < n
    ensures Total(Apply(s, a).threads, n) + (if a.Step? then 1 else 0) <=
            Total(s.threads, n) + if a.Spawn? then 15 else 0
    ensures forall t :: t in s.threads ==> t in Apply(s, a).threads
  {
    match a
    case Spawn(t, job, tradeNo) =>
      TotalUpdate(s.threads, t, Thread(job, tradeNo, LockCreate, 0, None), n);
      assert t in Apply(s, a).threads;
    case Insert(_, _) =>
    case Step(t, ok) =>
      StepDescends(s, t, ok);
      TotalUpdate(s.threads, t, Apply(s, a).threads[t], n);
  }

  lemma {:induction false} StepsPaid(run: seq<State>, acts: seq<Action>, balances: map<UserId, int>, i: nat, n: nat)
    requires IsRun(run, acts, balances) && i < |run| && forall t :: t in run[i].threads ==> t < n
    ensures Steps(acts[..i]) + Total(run[i].threads, n) <= 15 * Spawns(acts[..i])
    decreases i
  {
    if i == 0 {
      NothingRunning(n);
    } else {
      assert acts[..i][..i - 1] == acts[..i - 1];
      ActionPays(run[i - 1], acts[i - 1], n);
      StepsPaid(run, acts, balances, i - 1, n);
    }
  }

  lemma {:induction false} NothingRunning(n: nat)
    ensures Total(map[], n) == 0
    decreases n
  {
    if n > 0 {
      NothingRunning(n - 1);
    }
  }

  lemma {:induction false} SomeBound(ids: set<ThreadId>) returns (n: nat)
    ensures forall t :: t in ids ==> t < n
    decreases |ids|
  {
    if ids == {} {
      n := 0;
    } else {
      var t :| t in ids;
      var m := SomeBound(ids - {t});
      n := if m <= t then t + 1 else m;
      assert forall x :: x in ids ==> x == t || x in ids - {t};
    }
  }

  /** A run takes at most fifteen steps per handler it starts. */
  lemma StepsBounded(run: seq<State>, acts: seq<Action>, balances: map<UserId, int>)
    requires IsRun(run, acts, balances)
    ensures Steps(acts) <= 15 * Spawns(acts)
  {
    var n := SomeBound(run[|acts|].threads.Keys);
    StepsPaid(run, acts, balances, |acts|, n);
    assert acts[..|acts|] == acts;
  }

  /** Where no thread can take a step, every thread is done and no lock is left behind. */
  lemma StuckIsDone(run: seq<State>, acts: seq<Action>, balances: map<UserId, int>, i: nat)
    requires IsRun(run, acts, balances) && i < |run|
    requires forall t :: !Enabled(run[i], Step(t, true))
    ensures forall t :: t in run[i].threads ==> run[i].threads[t].pc.Done?
    ensures run[i].table == map[] && run[i].createLock.None?
  {
    forall t | t in run[i].threads ensures run[i].threads[t].pc.Done? {
      if !run[i].threads[t].pc.Done? {
        var u := NoDeadlock(run, acts, balances, i, t);
      }
    }
    QuiescentTableEmpty(run, acts, balances, i);
  }
}
