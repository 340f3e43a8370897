/**
 Several processes on one database. Each has its own lock table, so the order lock excludes only the
 handlers of one process; the rows, balances and credits are shared.
 */
module ClusterRuns {
  import opened Options
  import opened TopUpProtocol
  import opened OrderLockSafety
  import opened PaymentSafety
  import opened UncontendedRun

  /** One state per process, all with the same database. */
  type Cluster = seq<State>

  datatype ClusterAction = On(node: nat, act: Action)

  function WithDatabase(s: State, from: State): State {
    s.(orders := from.orders, balances := from.balances, credits := from.credits, dropped := from.dropped)
  }

  predicate ClusterEnabled(c: Cluster, a: ClusterAction) {
    a.node < |c| && Enabled(c[a.node], a.act)
  }

  function ClusterApply(c: Cluster, a: ClusterAction): Cluster
    requires ClusterEnabled(c, a)
  {
    var s' := Apply(c[a.node], a.act);
    seq(|c|, k requires 0 <= k < |c| => if k == a.node then s' else WithDatabase(c[k], s'))
  }

  ghost predicate IsClusterRun(run: seq<Cluster>, acts: seq<ClusterAction>, nodes: nat, balances: map<UserId, int>) {
    && |run| == |acts| + 1
    && run[0] == seq(nodes, _ => Init(balances))
    && forall i :: 0 <= i < |acts| ==> ClusterEnabled(run[i], acts[i]) && run[i + 1] == ClusterApply(run[i], acts[i])
  }

  // What is to hold of an order, and where its handlers may run

  function CreditCount(credits: seq<Credit>, n: TradeNo): nat {
    if credits == [] then 0
    else CreditCount(credits[..|credits| - 1], n) + if credits[|credits| - 1].tradeNo == n then 1 else 0
  }

  lemma CountAppend(credits: seq<Credit>, c: Credit, n: TradeNo)
    ensures CreditCount(credits + [c], n) == CreditCount(credits, n) + if c.tradeNo == n then 1 else 0
  {
    assert (credits + [c])[..|credits|] == credits;
  }

  /** The order is credited at most once, and only once it is successful. */
  predicate CreditedOnce(s: State, n: TradeNo) {
    && CreditCount(s.credits, n) <= 1
    && (CreditCount(s.credits, n) == 1 ==> n in s.orders && s.orders[n].status.Success?)
  }

  /** A handler may be started for the order: all but the Epay notification refuse an empty trade number. */
  predicate Startable(job: Job, n: TradeNo) {
    job.EpayNotify? || n != ""
  }

  /** Handlers for the order are started only where the set of nodes and jobs allows them. */
  ghost predicate Within(acts: seq<ClusterAction>, allowed: iset<(nat, Job)>, n: TradeNo) {
    forall i :: 0 <= i < |acts| ==> MayAct(acts[i], allowed, n)
  }

  ghost predicate MayAct(a: ClusterAction, allowed: iset<(nat, Job)>, n: TradeNo) {
    a.act.Spawn? && a.act.tradeNo == n ==> (a.node, a.act.job) in allowed
  }

  /** In another process, `y` can complete an order that `x` has read as pending and not yet written. */
  predicate Overtakes(y: Job, x: Job) {
    match x
    case EpayNotify(_) => y.EpayNotify? || y.AdminComplete?
    case StripeAsyncFailed => y.StripeFulfil? || y.AdminComplete?
    case _ => false
  }

  ghost predicate ClashAt(allowed: iset<(nat, Job)>, nodes: nat, n: TradeNo, i: nat, j: nat, x: Job, y: Job) {
    && i < nodes && j < nodes && i != j && (i, x) in allowed && (j, y) in allowed
    && Startable(x, n) && Startable(y, n) && Overtakes(y, x)
  }

  /** Two different processes may run handlers of which one overtakes the other. */
  ghost predicate Clash(allowed: iset<(nat, Job)>, nodes: nat, n: TradeNo) {
    exists i, j, x, y :: ClashAt(allowed, nodes, n, i, j, x, y)
  }

  ghost predicate OnceEverywhere(c: Cluster, n: TradeNo) {
    forall k :: 0 <= k < |c| ==> CreditedOnce(c[k], n)
  }

  // Steps that are not about the order

  /** A step that concerns other orders. */
  ghost predicate Elsewhere(s: State, s': State, n: TradeNo) {
    && (n in s.orders ==> n in s'.orders && s'.orders[n] == s.orders[n])
    && CreditCount(s'.credits, n) == CreditCount(s.credits, n)
  }

  lemma AddCreditElsewhere(s: State, k: TradeNo, user: UserId, amount: int, n: TradeNo)
    requires k != n
    ensures Elsewhere(s, AddCredit(s, k, user, amount), n)
  {
    CountAppend(s.credits, Credit(k, user, amount), n);
  }

  lemma UpdateElsewhere(s: State, t: ThreadId, ok: bool, n: TradeNo)
    requires t in s.threads && s.threads[t].tradeNo != n
    ensures Elsewhere(s, UpdateStep(s, t, ok), n)
  {
  }

  lemma CreditElsewhere(s: State, t: ThreadId, ok: bool, n: TradeNo)
    requires t in s.threads && s.threads[t].tradeNo != n
    ensures Elsewhere(s, CreditStep(s, t, ok), n)
  {
    var th := s.threads[t];
    if ok && th.copy.Some? && th.copy.value.amountQuota >= 0 {
      AddCreditElsewhere(Goto(s, t, UnlockLoad), th.tradeNo, th.copy.value.user, th.copy.value.amountQuota, n);
    }
  }

  lemma TransactionElsewhere(s: State, job: Job, k: TradeNo, n: TradeNo)
    requires k != n
    ensures Elsewhere(s, RunTransaction(s, job, k), n)
  {
    if k in s.orders && s.orders[k].status.Pending? && !job.StripeExpire? {
      var o := s.orders[k];
      AddCreditElsewhere(s.(orders := s.orders[k := Completed(o, job)]), k, o.user, CreditDue(o), n);
    }
  }

  lemma ReadElsewhere(s: State, t: ThreadId, ok: bool, n: TradeNo)
    requires t in s.threads && s.threads[t].pc.OrderRead? && s.threads[t].tradeNo != n
    ensures Elsewhere(s, HandlerStep(s, t, ok), n)
  {
    TransactionElsewhere(s, s.threads[t].job, s.threads[t].tradeNo, n);
  }

  lemma HandlerElsewhere(s: State, t: ThreadId, ok: bool, n: TradeNo)
    requires t in s.threads && InHandler(s.threads[t].pc) && s.threads[t].tradeNo != n
    ensures Elsewhere(s, HandlerStep(s, t, ok), n)
  {
    match s.threads[t].pc {
      case OrderRead => ReadElsewhere(s, t, ok, n);
      case OrderUpdate => UpdateElsewhere(s, t, ok, n);
      case OrderCredit => CreditElsewhere(s, t, ok, n);
    }
  }

  lemma OutsideElsewhere(s: State, a: Action, n: TradeNo)
    requires Enabled(s, a)
    requires a.Step? && InHandler(s.threads[a.t].pc) ==> s.threads[a.t].tradeNo != n
    ensures Elsewhere(s, Apply(s, a), n)
  {
    if a.Step? {
      if InHandler(s.threads[a.t].pc) {
        HandlerElsewhere(s, a.t, a.ok, n);
      } else {
        LockingUntouched(s, a.t);
      }
    }
  }

  lemma ElsewhereKeepsOnce(s: State, s': State, n: TradeNo)
    requires CreditedOnce(s, n) && Elsewhere(s, s', n)
    ensures CreditedOnce(s', n)
  {
  }

  // Steps of a handler of the order

  /** A handler between its read and its last write: the stored row is of its provider and the order has
      no credit yet, whatever else happened to the row since the read. */
  ghost predicate Midway(th: Thread, s: State, n: TradeNo) {
    th.pc.OrderUpdate? || th.pc.OrderCredit? ==>
      && ReadCheckWrite(th.job) && th.copy.Some? && th.copy.value.provider == JobProvider(th.job)
      && n in s.orders && s.orders[n].provider == JobProvider(th.job) && CreditCount(s.credits, n) == 0
      && (th.pc.OrderCredit? ==> th.job.EpayNotify? && s.orders[n].status.Success?)
  }

  lemma MidwayShared(th: Thread, s: State, s': State, n: TradeNo)
    requires Midway(th, s, n) && SameDatabase(s, s')
    ensures Midway(th, s', n)
  {
  }

  lemma ElsewhereKeepsMidway(th: Thread, s: State, s': State, n: TradeNo)
    requires Midway(th, s, n) && Elsewhere(s, s', n)
    ensures Midway(th, s', n)
  {
  }

  lemma TransactionKeepsOnce(s: State, job: Job, n: TradeNo)
    requires CreditedOnce(s, n) && !ReadCheckWrite(job)
    ensures CreditedOnce(RunTransaction(s, job, n), n)
  {
    if n in s.orders && s.orders[n].status.Pending? && !job.StripeExpire? {
      var o := s.orders[n];
      CountAppend(s.credits, Credit(n, o.user, CreditDue(o)), n);
    }
  }

  lemma HandlerKeepsOnce(s: State, t: ThreadId, ok: bool, n: TradeNo)
    requires t in s.threads && InHandler(s.threads[t].pc) && s.threads[t].tradeNo == n
    requires CreditedOnce(s, n) && Midway(s.threads[t], s, n)
    ensures CreditedOnce(HandlerStep(s, t, ok), n)
  {
    var th := s.threads[t];
    match th.pc {
      case OrderRead =>
        if !ReadCheckWrite(th.job) {
          TransactionKeepsOnce(s, th.job, n);
        }
      case OrderUpdate =>
      case OrderCredit => CountAppend(s.credits, Credit(n, th.copy.value.user, th.copy.value.amountQuota), n);
    }
  }

  /** No thread but `t` changes, and `t` keeps its job and order. */
  ghost predicate OwnThread(s: State, s': State, t: ThreadId) {
    && t in s.threads && t in s'.threads && s'.threads == s.threads[t := s'.threads[t]]
    && s'.threads[t].job == s.threads[t].job && s'.threads[t].tradeNo == s.threads[t].tradeNo
  }

  lemma HandlerThread(s: State, t: ThreadId, ok: bool)
    requires t in s.threads && InHandler(s.threads[t].pc)
    ensures OwnThread(s, HandlerStep(s, t, ok), t)
  {
    match s.threads[t].pc {
      case OrderRead => TransactionFrame(s, s.threads[t].job, s.threads[t].tradeNo);
      case OrderUpdate =>
      case OrderCredit =>
    }
  }

  /** The thread that steps is midway in the new state if it has a write left. */
  lemma HandlerStaysMidway(s: State, t: ThreadId, ok: bool, n: TradeNo)
    requires t in s.threads && InHandler(s.threads[t].pc) && s.threads[t].tradeNo == n
    requires CreditedOnce(s, n) && Midway(s.threads[t], s, n)
    ensures var s' := HandlerStep(s, t, ok); t in s'.threads && Midway(s'.threads[t], s', n)
  {
    HandlerThread(s, t, ok);
    match s.threads[t].pc {
      case OrderRead =>
      case OrderUpdate =>
      case OrderCredit =>
    }
  }

  /** A transaction that does not overtake `th` leaves it midway. */
  lemma TransactionLeavesMidway(s: State, job: Job, th: Thread, n: TradeNo)
    requires Midway(th, s, n) && !ReadCheckWrite(job) && !Overtakes(job, th.job)
    ensures Midway(th, RunTransaction(s, job, n), n)
  {
  }

  /** A handler step that does not overtake `th`, a thread of another process, leaves it midway. */
  lemma HandlerLeavesMidway(s: State, t: ThreadId, ok: bool, th: Thread, n: TradeNo)
    requires t in s.threads && InHandler(s.threads[t].pc) && s.threads[t].tradeNo == n
    requires Midway(s.threads[t], s, n) && Midway(th, s, n) && !Overtakes(s.threads[t].job, th.job)
    ensures Midway(th, HandlerStep(s, t, ok), n)
  {
    match s.threads[t].pc {
      case OrderRead =>
        if !ReadCheckWrite(s.threads[t].job) {
          TransactionLeavesMidway(s, s.threads[t].job, th, n);
        }
      case OrderUpdate =>
      case OrderCredit =>
    }
  }

  // The invariant of a cluster whose handlers do not clash

  ghost predicate ThreadFine(th: Thread, s: State, k: nat, allowed: iset<(nat, Job)>, n: TradeNo) {
    th.tradeNo == n ==> (k, th.job) in allowed && Startable(th.job, n) && Midway(th, s, n)
  }

  ghost predicate ThreadsFine(s: State, k: nat, allowed: iset<(nat, Job)>, n: TradeNo) {
    forall t :: t in s.threads ==> ThreadFine(s.threads[t], s, k, allowed, n)
  }

  ghost predicate NodeFine(s: State, k: nat, allowed: iset<(nat, Job)>, n: TradeNo) {
    LockInv(s) && CreditedOnce(s, n) && ThreadsFine(s, k, allowed, n)
  }

  ghost predicate Shared(c: Cluster) {
    forall j, k :: 0 <= j < |c| && 0 <= k < |c| ==> SameDatabase(c[j], c[k])
  }

  ghost predicate ClusterFine(c: Cluster, allowed: iset<(nat, Job)>, n: TradeNo) {
    Shared(c) && forall k :: 0 <= k < |c| ==> NodeFine(c[k], k, allowed, n)
  }

  lemma StepKeepsOnce(s: State, a: Action, k: nat, allowed: iset<(nat, Job)>, n: TradeNo)
    requires Enabled(s, a) && NodeFine(s, k, allowed, n)
    ensures CreditedOnce(Apply(s, a), n)
  {
    if a.Step? && InHandler(s.threads[a.t].pc) && s.threads[a.t].tradeNo == n {
      assert ThreadFine(s.threads[a.t], s, k, allowed, n);
      HandlerKeepsOnce(s, a.t, a.ok, n);
    } else {
      OutsideElsewhere(s, a, n);
      ElsewhereKeepsOnce(s, Apply(s, a), n);
    }
  }

  /** The threads of the process that steps: the lock keeps the others out of the order's handler. */
  lemma HandlerKeepsThreads(s: State, t: ThreadId, ok: bool, k: nat, allowed: iset<(nat, Job)>, n: TradeNo)
    requires NodeFine(s, k, allowed, n) && t in s.threads && InHandler(s.threads[t].pc) && s.threads[t].tradeNo == n
    ensures ThreadsFine(HandlerStep(s, t, ok), k, allowed, n)
  {
    var s' := HandlerStep(s, t, ok);
    assert ThreadFine(s.threads[t], s, k, allowed, n);
    HandlerThread(s, t, ok);
    HandlerStaysMidway(s, t, ok, n);
    LockedAlone(s, t);
    forall u | u in s'.threads ensures ThreadFine(s'.threads[u], s', k, allowed, n) {
      if u != t {
        assert ThreadFine(s.threads[u], s, k, allowed, n);
      }
    }
  }

  /** A step changes no thread but its own, which keeps its job and order and enters no write while locking. */
  lemma StepThread(s: State, t: ThreadId, ok: bool)
    requires Enabled(s, Step(t, ok))
    ensures OwnThread(s, Apply(s, Step(t, ok)), t)
    ensures !InHandler(s.threads[t].pc) ==>
              var pc := Apply(s, Step(t, ok)).threads[t].pc; !pc.OrderUpdate? && !pc.OrderCredit?
  {
    if InHandler(s.threads[t].pc) {
      HandlerThread(s, t, ok);
    } else {
      LockingUntouched(s, t);
    }
  }

  /** A step outside the order's handlers: a thread of the order is new, not midway, or as it was. */
  lemma OutsideKeepsThreads(s: State, a: Action, k: nat, allowed: iset<(nat, Job)>, n: TradeNo)
    requires Enabled(s, a) && ThreadsFine(s, k, allowed, n) && MayAct(On(k, a), allowed, n)
    requires a.Step? && InHandler(s.threads[a.t].pc) ==> s.threads[a.t].tradeNo != n
    ensures ThreadsFine(Apply(s, a), k, allowed, n)
  {
    var s' := Apply(s, a);
    OutsideElsewhere(s, a, n);
    if a.Step? {
      StepThread(s, a.t, a.ok);
    }
    forall u | u in s'.threads ensures ThreadFine(s'.threads[u], s', k, allowed, n) {
      if u in s.threads {
        assert ThreadFine(s.threads[u], s, k, allowed, n);
        if s.threads[u].tradeNo == n {
          ElsewhereKeepsMidway(s.threads[u], s, s', n);
        }
      }
    }
  }

  lemma StepKeepsThreads(s: State, a: Action, k: nat, allowed: iset<(nat, Job)>, n: TradeNo)
    requires Enabled(s, a) && NodeFine(s, k, allowed, n) && MayAct(On(k, a), allowed, n)
    ensures ThreadsFine(Apply(s, a), k, allowed, n)
  {
    if a.Step? && InHandler(s.threads[a.t].pc) && s.threads[a.t].tradeNo == n {
      HandlerKeepsThreads(s, a.t, a.ok, k, allowed, n);
    } else {
      OutsideKeepsThreads(s, a, k, allowed, n);
    }
  }

  /** A thread of another process, where nothing allowed there is overtaken from here. */
  lemma RemoteThreadFine(s: State, a: Action, k: nat, th: Thread, j: nat, allowed: iset<(nat, Job)>, n: TradeNo, nodes: nat)
    requires Enabled(s, a) && NodeFine(s, k, allowed, n) && ThreadFine(th, s, j, allowed, n)
    requires k < nodes && j < nodes && j != k && !Clash(allowed, nodes, n)
    ensures ThreadFine(th, Apply(s, a), j, allowed, n)
  {
    if th.tradeNo == n {
      if a.Step? && InHandler(s.threads[a.t].pc) && s.threads[a.t].tradeNo == n {
        assert ThreadFine(s.threads[a.t], s, k, allowed, n);
        assert !ClashAt(allowed, nodes, n, j, k, th.job, s.threads[a.t].job);
        HandlerLeavesMidway(s, a.t, a.ok, th, n);
      } else {
        OutsideElsewhere(s, a, n);
        ElsewhereKeepsMidway(th, s, Apply(s, a), n);
      }
    }
  }

  lemma DatabaseKeepsLockInv(s: State, from: State)
    requires LockInv(s)
    ensures LockInv(WithDatabase(s, from))
  {
  }

  lemma RemoteNodeFine(s: State, a: Action, k: nat, r: State, j: nat, allowed: iset<(nat, Job)>, n: TradeNo, nodes: nat)
    requires Enabled(s, a) && NodeFine(s, k, allowed, n) && NodeFine(r, j, allowed, n) && SameDatabase(r, s)
    requires k < nodes && j < nodes && j != k && !Clash(allowed, nodes, n)
    ensures NodeFine(WithDatabase(r, Apply(s, a)), j, allowed, n)
  {
    var r' := WithDatabase(r, Apply(s, a));
    StepKeepsOnce(s, a, k, allowed, n);
    DatabaseKeepsLockInv(r, Apply(s, a));
    forall u | u in r'.threads ensures ThreadFine(r'.threads[u], r', j, allowed, n) {
      var th := r.threads[u];
      assert ThreadFine(th, r, j, allowed, n);
      if th.tradeNo == n {
        MidwayShared(th, r, s, n);
        RemoteThreadFine(s, a, k, th, j, allowed, n, nodes);
        MidwayShared(th, Apply(s, a), r', n);
      }
    }
  }

  lemma LocalNodeFine(s: State, a: Action, k: nat, allowed: iset<(nat, Job)>, n: TradeNo)
    requires Enabled(s, a) && NodeFine(s, k, allowed, n) && MayAct(On(k, a), allowed, n)
    ensures NodeFine(Apply(s, a), k, allowed, n)
  {
    ApplyKeepsLockInv(s, a);
    StepKeepsOnce(s, a, k, allowed, n);
    StepKeepsThreads(s, a, k, allowed, n);
  }

  lemma StepShares(c: Cluster, a: ClusterAction)
    requires ClusterEnabled(c, a)
    ensures Shared(ClusterApply(c, a))
  {
    var s' := Apply(c[a.node], a.act);
    forall j, k | 0 <= j < |c| && 0 <= k < |c| ensures SameDatabase(ClusterApply(c, a)[j], ClusterApply(c, a)[k]) {
      assert SameDatabase(WithDatabase(c[j], s'), s') && SameDatabase(WithDatabase(c[k], s'), s');
    }
  }

  lemma ClusterStepFine(c: Cluster, a: ClusterAction, allowed: iset<(nat, Job)>, n: TradeNo)
    requires ClusterEnabled(c, a) && ClusterFine(c, allowed, n) && MayAct(a, allowed, n) && !Clash(allowed, |c|, n)
    ensures ClusterFine(ClusterApply(c, a), allowed, n)
  {
    var s, c' := c[a.node], ClusterApply(c, a);
    assert NodeFine(s, a.node, allowed, n);
    StepShares(c, a);
    forall k | 0 <= k < |c'| ensures NodeFine(c'[k], k, allowed, n) {
      assert NodeFine(c[k], k, allowed, n);
      if k == a.node {
        LocalNodeFine(s, a.act, k, allowed, n);
      } else {
        assert SameDatabase(c[k], s);
        RemoteNodeFine(s, a.act, a.node, c[k], k, allowed, n, |c|);
      }
    }
  }

  lemma StartFine(nodes: nat, balances: map<UserId, int>, allowed: iset<(nat, Job)>, n: TradeNo)
    ensures ClusterFine(seq(nodes, _ => Init(balances)), allowed, n)
  {
    var s := Init(balances);
    forall k: nat ensures NodeFine(s, k, allowed, n) {
    }
  }

  /** On any number of processes whose handlers of the order do not clash, the order is credited at most
      once, and only once it is successful, in every state of every run. */
  lemma {:induction false} NoClashCreditsOnce(run: seq<Cluster>, acts: seq<ClusterAction>, nodes: nat,
                                              balances: map<UserId, int>, i: nat, allowed: iset<(nat, Job)>, n: TradeNo)
    requires IsClusterRun(run, acts, nodes, balances) && i < |run|
    requires Within(acts, allowed, n) && !Clash(allowed, nodes, n)
    ensures |run[i]| == nodes && ClusterFine(run[i], allowed, n)
  {
    if i == 0 {
      StartFine(nodes, balances, allowed, n);
    } else {
      NoClashCreditsOnce(run, acts, nodes, balances, i - 1, allowed, n);
      assert MayAct(acts[i - 1], allowed, n);
      ClusterStepFine(run[i - 1], acts[i - 1], allowed, n);
    }
  }

  /** Transactions alone need no lock: an order that only they handle, anywhere, is credited once. */
  lemma TransactionsCreditOnce(
    run: seq<Cluster>, acts: seq<ClusterAction>, nodes: nat, balances: map<UserId, int>, i: nat, n: TradeNo)
    requires IsClusterRun(run, acts, nodes, balances) && i < |run|
    requires forall j :: 0 <= j < |acts| && acts[j].act.Spawn? && acts[j].act.tradeNo == n ==>
               !ReadCheckWrite(acts[j].act.job)
    ensures OnceEverywhere(run[i], n)
  {
    var allowed := iset k: nat, job | !ReadCheckWrite(job) :: (k, job);
    NoClashCreditsOnce(run, acts, nodes, balances, i, allowed, n);
  }

  /** One process is enough: an order all of whose handlers run on one node is credited once. */
  lemma OneProcessCreditsOnce(
    run: seq<Cluster>, acts: seq<ClusterAction>, nodes: nat, balances: map<UserId, int>, i: nat, n: TradeNo, home: nat)
    requires IsClusterRun(run, acts, nodes, balances) && i < |run|
    requires forall j :: 0 <= j < |acts| && acts[j].act.Spawn? && acts[j].act.tradeNo == n ==> acts[j].node == home
    ensures OnceEverywhere(run[i], n)
  {
    var allowed := iset job: Job | true :: (home, job);
    NoClashCreditsOnce(run, acts, nodes, balances, i, allowed, n);
  }
}
