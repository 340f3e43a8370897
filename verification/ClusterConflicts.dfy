/**
 Handlers of one order on two different processes. Each process has its own lock table, so a handler
 that has read the order as pending can be overtaken before it writes; the order is credited at most
 once in every run exactly when no two processes may run such a pair.
 */
module ClusterConflicts {
  import opened Options
  import opened TopUpProtocol
  import opened UncontendedRun
  import opened ClusterRuns

  /** A cluster and the handlers that may be started in it for one order. */
  datatype Setting = Setting(nodes: nat, balances: map<UserId, int>, allowed: iset<(nat, Job)>, n: TradeNo)

  datatype Trace = Trace(run: seq<Cluster>, acts: seq<ClusterAction>)

  ghost predicate Permitted(g: Setting, tr: Trace) {
    IsClusterRun(tr.run, tr.acts, g.nodes, g.balances) && Within(tr.acts, g.allowed, g.n)
  }

  /** A permitted run that leaves process `i` in state `a` and process `j` in state `b`. */
  ghost predicate Ends(g: Setting, tr: Trace, i: nat, j: nat, a: State, b: State) {
    && Permitted(g, tr) && i < g.nodes && j < g.nodes && i != j && SameDatabase(a, b)
    && var last := tr.run[|tr.acts|];
    |last| == g.nodes && last[i] == a && last[j] == b
  }

  lemma Extend(g: Setting, tr: Trace, a: ClusterAction)
    requires Permitted(g, tr) && ClusterEnabled(tr.run[|tr.acts|], a) && MayAct(a, g.allowed, g.n)
    ensures Permitted(g, Trace(tr.run + [ClusterApply(tr.run[|tr.acts|], a)], tr.acts + [a]))
  {
    var run', acts' := tr.run + [ClusterApply(tr.run[|tr.acts|], a)], tr.acts + [a];
    forall i | 0 <= i < |acts'|
      ensures ClusterEnabled(run'[i], acts'[i]) && run'[i + 1] == ClusterApply(run'[i], acts'[i])
      ensures MayAct(acts'[i], g.allowed, g.n)
    {
      if i < |tr.acts| {
        assert run'[i] == tr.run[i] && run'[i + 1] == tr.run[i + 1] && acts'[i] == tr.acts[i];
      }
    }
  }

  /** One action of process `i`. */
  lemma Acts(g: Setting, tr: Trace, i: nat, j: nat, a: State, b: State, act: Action) returns (tr': Trace)
    requires Ends(g, tr, i, j, a, b) && Enabled(a, act) && MayAct(On(i, act), g.allowed, g.n)
    ensures Ends(g, tr', i, j, Apply(a, act), WithDatabase(b, Apply(a, act)))
  {
    Extend(g, tr, On(i, act));
    tr' := Trace(tr.run + [ClusterApply(tr.run[|tr.acts|], On(i, act))], tr.acts + [On(i, act)]);
  }

  lemma WithSame(a: State, b: State)
    requires SameDatabase(a, b)
    ensures WithDatabase(a, b) == a
  {
  }

  lemma WithLatest(a: State, b: State, c: State)
    ensures WithDatabase(WithDatabase(a, b), c) == WithDatabase(a, c)
  {
  }

  lemma ShorterPath(path: seq<State>, t: ThreadId, s: State, s': State)
    requires Path(path, t, s, s') && |path| > 1
    ensures Path(path[1..], t, path[1], s')
  {
    forall i | 0 <= i < |path[1..]| - 1 ensures OneStep(path[1..][i], t, path[1..][i + 1]) {
      assert OneStep(path[i + 1], t, path[i + 2]);
    }
  }

  /** Steps of one thread of process `i`, the other process being idle. */
  lemma {:induction false} Follows(g: Setting, tr: Trace, i: nat, j: nat, a: State, b: State, t: ThreadId,
                                   path: seq<State>, a': State) returns (tr': Trace)
    requires Ends(g, tr, i, j, a, b) && Path(path, t, a, a')
    ensures Ends(g, tr', i, j, a', WithDatabase(b, a'))
    decreases |path|
  {
    if |path| == 1 {
      tr' := tr;
      WithSame(b, a);
    } else {
      assert OneStep(path[0], t, path[1]);
      var tr1 := Acts(g, tr, i, j, a, b, Step(t, true));
      ShorterPath(path, t, a, a');
      tr' := Follows(g, tr1, i, j, path[1], WithDatabase(b, path[1]), t, path[1..], a');
      WithLatest(b, path[1], a');
    }
  }

  /** A thread that has its order's lock and is about to read the order. */
  ghost predicate AboutToRead(s: State, job: Job, n: TradeNo) {
    0 in s.threads && s.threads[0].job == job && s.threads[0].tradeNo == n && s.threads[0].pc.OrderRead?
  }

  /** One process starts a handler for an order it has no lock entry for, and locks the order. */
  lemma Arrives(g: Setting, tr: Trace, i: nat, j: nat, a: State, b: State, job: Job) returns (tr': Trace, a': State)
    requires Ends(g, tr, i, j, a, b) && (i, job) in g.allowed && Startable(job, g.n)
    requires a.threads == map[] && a.table == map[] && a.createLock.None?
    ensures Ends(g, tr', i, j, a', b) && AboutToRead(a', job, g.n)
  {
    var a1 := Apply(a, Spawn(0, job, g.n));
    var tr1 := Acts(g, tr, i, j, a, b, Spawn(0, job, g.n));
    WithSame(b, a1);
    var path := Locks(a1, 0);
    a' := Locked(a1, 0);
    tr' := Follows(g, tr1, i, j, a1, b, 0, path, a');
    WithSame(b, a');
  }

  /** Both processes hold their own lock on the pending order. */
  lemma BothLocked(g: Setting, i: nat, j: nat, x: Job, y: Job, o: Order) returns (tr: Trace, a: State, b: State)
    requires i < g.nodes && j < g.nodes && i != j && (i, x) in g.allowed && (j, y) in g.allowed
    requires Startable(x, g.n) && Startable(y, g.n) && o.status.Pending?
    ensures Ends(g, tr, i, j, a, b) && a.orders == map[g.n := o] && a.credits == []
    ensures AboutToRead(a, x, g.n) && AboutToRead(b, y, g.n)
  {
    var s, ins := Init(g.balances), Insert(g.n, o);
    var tr0 := Trace([seq(g.nodes, _ => s)], []);
    var tr1 := Acts(g, tr0, i, j, s, s, ins);
    var s1, r1 := Apply(s, ins), WithDatabase(s, Apply(s, ins));
    var tr2, a1 := Arrives(g, tr1, i, j, s1, r1, x);
    var tr3, b1 := Arrives(g, tr2, j, i, r1, a1, y);
    tr, a, b := tr3, a1, b1;
  }

  /** `x` reads the pending order. */
  lemma Reads(s: State, x: Job, o: Order, n: TradeNo) returns (s': State)
    requires AboutToRead(s, x, n) && n in s.orders && s.orders[n] == o
    requires ReadCheckWrite(x) && o.status.Pending? && o.provider == JobProvider(x)
    ensures OneStep(s, 0, s') && SameDatabase(s, s')
    ensures 0 in s'.threads && s'.threads[0] == s.threads[0].(pc := OrderUpdate, copy := Some(o))
  {
    s' := Apply(s, Step(0, true));
  }

  /** The order can be completed by `y` while `x` holds its pending copy. */
  predicate Completable(o: Order, x: Job, y: Job) {
    && o.status.Pending? && o.provider == JobProvider(x)
    && (x.EpayNotify? ==> o.amountQuota >= 0) && (y.AdminComplete? ==> CreditDue(o) > 0)
  }

  /** `y` completes the order: a notification in three steps, a transaction in one. */
  lemma Completes(s: State, x: Job, y: Job, o: Order, n: TradeNo) returns (path: seq<State>, s': State)
    requires AboutToRead(s, y, n) && n in s.orders && s.orders[n] == o
    requires Overtakes(y, x) && Completable(o, x, y)
    ensures Path(path, 0, s, s') && s'.credits == s.credits + [Credit(n, o.user, CreditDue(o))]
    ensures n in s'.orders && s'.orders[n].status.Success?
  {
    if y.EpayNotify? {
      path := Handles(s, 0);
      s' := Handled(s, 0);
    } else {
      s' := Apply(s, Step(0, true));
      path := [s, s'];
      assert OneStep(s, 0, s');
    }
  }

  /** `x` writes what it read, whatever the row is by now: a second credit, or a failed order. */
  lemma WritesLate(s: State, x: Job, o: Order, n: TradeNo) returns (path: seq<State>, s': State)
    requires 0 in s.threads && s.threads[0].pc.OrderUpdate? && s.threads[0].copy == Some(o)
    requires s.threads[0].job == x && s.threads[0].tradeNo == n && ReadCheckWrite(x)
    requires o.provider == JobProvider(x) && (x.EpayNotify? ==> o.amountQuota >= 0)
    ensures Path(path, 0, s, s') && n in s'.orders
    ensures if x.EpayNotify?
            then s'.credits == s.credits + [Credit(n, o.user, CreditDue(o))] && s'.orders[n].status.Success?
            else s'.credits == s.credits && s'.orders[n].status.Failed?
  {
    var s1 := Apply(s, Step(0, true));
    assert OneStep(s, 0, s1);
    if x.EpayNotify? {
      s' := Apply(s1, Step(0, true));
      assert OneStep(s1, 0, s');
      path := [s, s1, s'];
    } else {
      s' := s1;
      path := [s, s1];
    }
  }

  /** What the database holds after `y` has overtaken `x`. */
  ghost predicate Overtaken(s: State, x: Job, o: Order, n: TradeNo) {
    && n in s.orders
    && var c := Credit(n, o.user, CreditDue(o));
    if x.EpayNotify? then s.credits == [c, c] && s.orders[n].status.Success?
    else s.credits == [c] && s.orders[n].status.Failed?
  }

  /** A run in which the handler on process `j` completes the order between the read and the write of the
      handler on process `i`. */
  lemma OvertakenRun(g: Setting, i: nat, j: nat, x: Job, y: Job, o: Order) returns (tr: Trace, s: State)
    requires ClashAt(g.allowed, g.nodes, g.n, i, j, x, y) && Completable(o, x, y)
    ensures Permitted(g, tr) && |tr.run[|tr.acts|]| == g.nodes && tr.run[|tr.acts|][i] == s
    ensures Overtaken(s, x, o, g.n)
  {
    var tr0, a, b := BothLocked(g, i, j, x, y, o);
    var a1 := Reads(a, x, o, g.n);
    var tr1 := Acts(g, tr0, i, j, a, b, Step(0, true));
    WithSame(b, a1);
    var path, b1 := Completes(b, x, y, o, g.n);
    var tr2 := Follows(g, tr1, j, i, b, a1, 0, path, b1);
    var a2 := WithDatabase(a1, b1);
    var path', a3 := WritesLate(a2, x, o, g.n);
    tr := Follows(g, tr2, i, j, a2, b1, 0, path', a3);
    s := a3;
  }

  lemma OvertakenNotOnce(s: State, x: Job, o: Order, n: TradeNo)
    requires Overtaken(s, x, o, n)
    ensures !CreditedOnce(s, n)
  {
    var c := Credit(n, o.user, CreditDue(o));
    CountAppend([], c, n);
    CountAppend([c], c, n);
    assert [] + [c] == [c] && [c] + [c] == [c, c];
  }

  /** Every permitted run keeps the order credited at most once, and only once it is successful. */
  ghost predicate AlwaysOnce(allowed: iset<(nat, Job)>, nodes: nat, n: TradeNo) {
    forall run, acts, balances, i :: IsClusterRun(run, acts, nodes, balances) && Within(acts, allowed, n) && 0 <= i < |run| ==>
      OnceEverywhere(run[i], n)
  }

  /** A pending order that `x` accepts and that every handler overtaking it can complete. */
  function Witness(x: Job): Order {
    Order(0, JobProvider(x), Pending, "", 0, 1, 1)
  }

  lemma ClashCreditsWrongly(allowed: iset<(nat, Job)>, nodes: nat, n: TradeNo)
    requires Clash(allowed, nodes, n)
    ensures !AlwaysOnce(allowed, nodes, n)
  {
    var i, j, x, y :| ClashAt(allowed, nodes, n, i, j, x, y);
    var g, o := Setting(nodes, map[], allowed, n), Witness(x);
    var tr, s := OvertakenRun(g, i, j, x, y, o);
    OvertakenNotOnce(s, x, o, n);
    assert !OnceEverywhere(tr.run[|tr.acts|], n);
  }

  /** For any number of processes and any set of handlers that may run on each: every run credits the
      order at most once, and only once it is successful, if and only if no two processes may run a
      read-check-write handler and one that overtakes it. */
  lemma CreditedOnceIff(allowed: iset<(nat, Job)>, nodes: nat, n: TradeNo)
    ensures AlwaysOnce(allowed, nodes, n) <==> !Clash(allowed, nodes, n)
  {
    if Clash(allowed, nodes, n) {
      ClashCreditsWrongly(allowed, nodes, n);
    } else {
      forall run, acts, balances, i
        | IsClusterRun(run, acts, nodes, balances) && Within(acts, allowed, n) && 0 <= i < |run|
        ensures OnceEverywhere(run[i], n)
      {
        NoClashCreditsOnce(run, acts, nodes, balances, i, allowed, n);
      }
    }
  }

  // The failing inputs

  /** Handler `x` on the first of two processes and handler `y` on the second. */
  function TwoNodes(balances: map<UserId, int>, n: TradeNo, x: Job, y: Job): Setting {
    Setting(2, balances, iset{(0, x), (1, y)}, n)
  }

  /** Two processes that each receive the notification of a pending Epay order can credit it twice. */
  lemma TwoProcessesCreditTwice(balances: map<UserId, int>, n: TradeNo, o: Order, x: Job, y: Job)
    returns (run: seq<Cluster>, acts: seq<ClusterAction>)
    requires o.provider.Epay? && o.status.Pending? && o.amountQuota >= 0 && x.EpayNotify? && y.EpayNotify?
    ensures IsClusterRun(run, acts, 2, balances)
    ensures |run[|acts|]| == 2
    ensures run[|acts|][0].credits == [Credit(n, o.user, o.amountQuota), Credit(n, o.user, o.amountQuota)]
  {
    var tr, s := OvertakenRun(TwoNodes(balances, n, x, y), 0, 1, x, y, o);
    run, acts := tr.run, tr.acts;
  }

  /** An administrator who completes the order on another process, between the read and the write of the
      notification, adds a second credit. */
  lemma AdminBetweenCreditsTwice(balances: map<UserId, int>, n: TradeNo, o: Order, callbackType: string, now: int)
    returns (run: seq<Cluster>, acts: seq<ClusterAction>)
    requires n != "" && o.provider.Epay? && o.status.Pending? && o.amountQuota > 0
    ensures IsClusterRun(run, acts, 2, balances)
    ensures |run[|acts|]| == 2
    ensures run[|acts|][0].credits == [Credit(n, o.user, o.amountQuota), Credit(n, o.user, o.amountQuota)]
  {
    var x, y := EpayNotify(callbackType), AdminComplete(now);
    var tr, s := OvertakenRun(TwoNodes(balances, n, x, y), 0, 1, x, y, o);
    run, acts := tr.run, tr.acts;
  }

  /** A Stripe order fulfilled on another process, between the read and the write of the handler for a
      failed payment, is credited and stored as failed. */
  lemma FulfilBetweenStoredFailed(balances: map<UserId, int>, n: TradeNo, o: Order, now: int)
    returns (run: seq<Cluster>, acts: seq<ClusterAction>)
    requires n != "" && o.provider.Stripe? && o.status.Pending?
    ensures IsClusterRun(run, acts, 2, balances)
    ensures |run[|acts|]| == 2
    ensures run[|acts|][0].credits == [Credit(n, o.user, o.moneyQuota)]
    ensures n in run[|acts|][0].orders && run[|acts|][0].orders[n].status.Failed?
  {
    var x, y := StripeAsyncFailed, StripeFulfil(now);
    var tr, s := OvertakenRun(TwoNodes(balances, n, x, y), 0, 1, x, y, o);
    run, acts := tr.run, tr.acts;
  }
}
