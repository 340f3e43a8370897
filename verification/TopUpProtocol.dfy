/**
 The per-order lock of the top-up handlers, and the handlers that run under it, as a transition
 system. Any number of threads run LockOrder, one handler body and UnlockOrder on any trade number;
 one action of the system is one atomic action of one thread. The two createLock sections are not
 atomic here: the table load, the store, the counter change and the delete are separate steps,
 because UnlockOrder also loads from the table without holding createLock.
 */
module TopUpProtocol {
  import opened Options

  type ThreadId = nat
  type TradeNo = string
  type UserId = int
  /** An index into the heap of refCountedMutex objects. */
  type MutexId = nat

  datatype Status = Pending | Success | Failed | Expired

  datatype Provider = Epay | Stripe | OtherProvider(name: string)

  /** A row of the top-up table. `amountQuota` and `moneyQuota` are the row's Amount and Money times
      QuotaPerUnit, which is constant here. */
  datatype Order = Order(
    user: UserId, provider: Provider, status: Status, payMethod: string, completeTime: int,
    amountQuota: int, moneyQuota: int)

  /** What a thread does while it holds the order's lock; `now` is its clock reading. */
  datatype Job =
    | EpayNotify(callbackType: string)
    | StripeAsyncFailed
    | StripeFulfil(now: int)
    | StripeExpire
    | AdminComplete(now: int)

  datatype Pc =
    // LockOrder
    | LockCreate
    | LockLoad
    | LockStore
    | LockCount
    | LockRelease
    | LockMutex
    // the handler
    | OrderRead
    | OrderUpdate
    | OrderCredit
    // UnlockOrder
    | UnlockLoad
    | UnlockMutex
    | UnlockCreate
    | UnlockCount
    | UnlockDelete
    | UnlockRelease
    | Done

  /** `rcm` is the mutex the thread last obtained from the table, `copy` its local copy of the row. */
  datatype Thread = Thread(job: Job, tradeNo: TradeNo, pc: Pc, rcm: MutexId, copy: Option<Order>)

  /** A refCountedMutex; `holder` records who locked `mu`. */
  datatype Mutex = Mutex(refCount: int, holder: Option<ThreadId>)

  datatype Credit = Credit(tradeNo: TradeNo, user: UserId, amount: int)

  datatype State = State(
    createLock: Option<ThreadId>,
    table: map<TradeNo, MutexId>,
    heap: seq<Mutex>,
    threads: map<ThreadId, Thread>,
    orders: map<TradeNo, Order>,
    balances: map<UserId, int>,
    // history: every quota increase that took place, and every order whose increase failed
    credits: seq<Credit>,
    dropped: set<TradeNo>)

  /** `Step(t, ok)` runs the next atomic action of `t`; `ok` is false when its database call fails. */
  datatype Action =
    | Spawn(t: ThreadId, job: Job, tradeNo: TradeNo)
    | Insert(newTradeNo: TradeNo, order: Order)
    | Step(t: ThreadId, ok: bool)

  function Init(balances: map<UserId, int>): (s: State) {
    State(None, map[], [], map[], map[], balances, [], {})
  }

  /** The row's quotaToAdd: Stripe orders are credited from Money, all others from Amount. */
  function CreditDue(o: Order): int {
    if o.provider.Stripe? then o.moneyQuota else o.amountQuota
  }

  function MutexAt(heap: seq<Mutex>, m: MutexId): Mutex {
    if m < |heap| then heap[m] else Mutex(0, None)
  }

  function WithMutex(heap: seq<Mutex>, m: MutexId, x: Mutex): (h: seq<Mutex>) {
    if m < |heap| then heap[m := x] else heap
  }

  predicate Enabled(s: State, a: Action) {
    match a
    case Spawn(t, job, tradeNo) => t !in s.threads && (job.EpayNotify? || tradeNo != "")
    case Insert(tradeNo, o) => tradeNo !in s.orders && o.status.Pending?
    case Step(t, _) =>
      && t in s.threads
      && match s.threads[t].pc
         case LockCreate => s.createLock.None?
         case UnlockCreate => s.createLock.None?
         case LockMutex => MutexAt(s.heap, s.threads[t].rcm).holder.None?
         case Done => false
         case _ => true
  }

  function Apply(s: State, a: Action): State
    requires Enabled(s, a)
  {
    match a
    case Spawn(t, job, tradeNo) => s.(threads := s.threads[t := Thread(job, tradeNo, LockCreate, 0, None)])
    case Insert(tradeNo, o) => s.(orders := s.orders[tradeNo := o])
    case Step(t, ok) =>
      var pc := s.threads[t].pc;
      if InHandler(pc) then HandlerStep(s, t, ok)
      else if InLockOrder(pc) then LockOrderStep(s, t)
      else UnlockOrderStep(s, t)
  }

  predicate InHandler(pc: Pc) {
    pc.OrderRead? || pc.OrderUpdate? || pc.OrderCredit?
  }

  predicate InLockOrder(pc: Pc) {
    pc.LockCreate? || pc.LockLoad? || pc.LockStore? || pc.LockCount? || pc.LockRelease? || pc.LockMutex?
  }

  function Goto(s: State, t: ThreadId, pc: Pc): State
    requires t in s.threads
  {
    s.(threads := s.threads[t := s.threads[t].(pc := pc)])
  }

  /** The next action of LockOrder. */
  function LockOrderStep(s: State, t: ThreadId): State
    requires t in s.threads
  {
    var th := s.threads[t];
    var mu := MutexAt(s.heap, th.rcm);
    match th.pc
    case LockCreate => Goto(s, t, LockLoad).(createLock := Some(t))
    case LockLoad =>
      if th.tradeNo in s.table
      then s.(threads := s.threads[t := th.(pc := LockCount, rcm := s.table[th.tradeNo])])
      else Goto(s, t, LockStore)
    case LockStore =>
      s.(threads := s.threads[t := th.(pc := LockCount, rcm := |s.heap|)],
         heap := s.heap + [Mutex(0, None)],
         table := s.table[th.tradeNo := |s.heap|])
    case LockCount =>
      Goto(s, t, LockRelease).(heap := WithMutex(s.heap, th.rcm, mu.(refCount := mu.refCount + 1)))
    case LockRelease => Goto(s, t, LockMutex).(createLock := None)
    case LockMutex => Goto(s, t, OrderRead).(heap := WithMutex(s.heap, th.rcm, mu.(holder := Some(t))))
    case _ => s
  }

  /** The next action of UnlockOrder. */
  function UnlockOrderStep(s: State, t: ThreadId): State
    requires t in s.threads
  {
    var th := s.threads[t];
    var mu := MutexAt(s.heap, th.rcm);
    match th.pc
    case UnlockLoad =>
      if th.tradeNo in s.table
      then s.(threads := s.threads[t := th.(pc := UnlockMutex, rcm := s.table[th.tradeNo])])
      else Goto(s, t, Done)
    case UnlockMutex => Goto(s, t, UnlockCreate).(heap := WithMutex(s.heap, th.rcm, mu.(holder := None)))
    case UnlockCreate => Goto(s, t, UnlockCount).(createLock := Some(t))
    case UnlockCount =>
      Goto(s, t, UnlockDelete).(heap := WithMutex(s.heap, th.rcm, mu.(refCount := mu.refCount - 1)))
    case UnlockDelete =>
      if mu.refCount == 0
      then Goto(s, t, UnlockRelease).(table := s.table - {th.tradeNo})
      else Goto(s, t, UnlockRelease)
    case UnlockRelease => Goto(s, t, Done).(createLock := None)
    case _ => s
  }

  /** The next action of the handler body, between LockOrder and UnlockOrder. */
  function HandlerStep(s: State, t: ThreadId, ok: bool): State
    requires t in s.threads
  {
    var th := s.threads[t];
    match th.pc
    case OrderRead =>
      if !ok then Goto(s, t, UnlockLoad)
      else if ReadCheckWrite(th.job) then ReadStep(s, t)
      else TransactionStep(s, t)
    case OrderUpdate => UpdateStep(s, t, ok)
    case OrderCredit => CreditStep(s, t, ok)
    case _ => s
  }

  function UpdateStep(s: State, t: ThreadId, ok: bool): State
    requires t in s.threads
  {
    var th := s.threads[t];
    if !ok || th.copy.None? then Goto(s, t, UnlockLoad)
    else if th.job.EpayNotify? then
      // DB.Save writes the whole local copy back
      var o := th.copy.value.(status := Success, payMethod := th.job.callbackType);
      s.(orders := s.orders[th.tradeNo := o], threads := s.threads[t := th.(pc := OrderCredit, copy := Some(o))])
    else
      Goto(s, t, UnlockLoad).(orders := s.orders[th.tradeNo := th.copy.value.(status := Failed)])
  }

  function CreditStep(s: State, t: ThreadId, ok: bool): State
    requires t in s.threads
  {
    var th := s.threads[t];
    if ok && th.copy.Some? && th.copy.value.amountQuota >= 0
    then AddCredit(Goto(s, t, UnlockLoad), th.tradeNo, th.copy.value.user, th.copy.value.amountQuota)
    else Goto(s, t, UnlockLoad).(dropped := s.dropped + {th.tradeNo})
  }

  function TransactionStep(s: State, t: ThreadId): State
    requires t in s.threads
  {
    Goto(RunTransaction(s, s.threads[t].job, s.threads[t].tradeNo), t, UnlockLoad)
  }

  /** The handlers that read the row, decide, and write it back in separate database calls. */
  predicate ReadCheckWrite(job: Job) {
    job.EpayNotify? || job.StripeAsyncFailed?
  }

  function ReadStep(s: State, t: ThreadId): State
    requires t in s.threads
  {
    var th := s.threads[t];
    if th.tradeNo !in s.orders then Goto(s, t, UnlockLoad)
    else
      var o := s.orders[th.tradeNo];
      if o.provider != JobProvider(th.job) || !o.status.Pending? then Goto(s, t, UnlockLoad)
      else s.(threads := s.threads[t := th.(pc := OrderUpdate, copy := Some(o))])
  }

  /** The provider whose orders a read-check-write handler accepts. */
  function JobProvider(job: Job): Provider {
    if job.EpayNotify? then Epay else Stripe
  }

  /** The database transaction of Recharge, UpdatePendingTopUpStatus or ManualCompleteTopUp, committed
      as one step under the row lock. */
  function RunTransaction(s: State, job: Job, tradeNo: TradeNo): State {
    if tradeNo !in s.orders || !s.orders[tradeNo].status.Pending? then s
    else
      var o := s.orders[tradeNo];
      if job.StripeExpire? then
        if o.provider.Stripe? then s.(orders := s.orders[tradeNo := o.(status := Expired)]) else s
      else if (if job.AdminComplete? then CreditDue(o) > 0 else o.provider.Stripe?) then
        AddCredit(s.(orders := s.orders[tradeNo := Completed(o, job)]), tradeNo, o.user, CreditDue(o))
      else s
  }

  /** The row as a completing transaction saves it. */
  function Completed(o: Order, job: Job): Order {
    if job.StripeFulfil? || job.AdminComplete? then o.(status := Success, completeTime := job.now) else o
  }

  /** Adds to the user's quota column; an update of a user row that does not exist changes nothing. */
  function AddCredit(s: State, tradeNo: TradeNo, user: UserId, amount: int): State {
    var s' := s.(credits := s.credits + [Credit(tradeNo, user, amount)]);
    if user in s.balances then s'.(balances := s.balances[user := s.balances[user] + amount]) else s'
  }

  /** A run: consecutive states joined by enabled actions, from the initial state. */
  ghost predicate IsRun(run: seq<State>, acts: seq<Action>, balances: map<UserId, int>) {
    && |run| == |acts| + 1
    && run[0] == Init(balances)
    && forall i :: 0 <= i < |acts| ==> Enabled(run[i], acts[i]) && run[i + 1] == Apply(run[i], acts[i])
  }
}
