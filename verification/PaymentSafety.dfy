/**
 What the top-up handlers guarantee about orders and balances in every run of the protocol, with any
 number of concurrent webhooks, admin completions and database failures.
 */
module PaymentSafety {
  import opened Options
  import opened TopUpProtocol
  import opened OrderLockSafety

  ghost function CreditedOrders(credits: seq<Credit>): set<TradeNo> {
    set c | c in credits :: c.tradeNo
  }

  /** The quota a user received. */
  ghost function TotalFor(credits: seq<Credit>, user: UserId): int {
    if credits == [] then 0
    else
      var last := credits[|credits| - 1];
      TotalFor(credits[..|credits| - 1], user) + if last.user == user then last.amount else 0
  }

  /** No order is credited twice; what was credited is the order's due, to its user, after success. */
  ghost predicate CreditsSound(s: State) {
    && (forall i, j :: 0 <= i < j < |s.credits| ==> s.credits[i].tradeNo != s.credits[j].tradeNo)
    && (forall c :: c in s.credits ==> CreditFits(c, s.orders))
    && (forall n :: n in s.dropped ==>
          n in s.orders && s.orders[n].status.Success? && n !in CreditedOrders(s.credits))
  }

  predicate CreditFits(c: Credit, orders: map<TradeNo, Order>) {
    && c.tradeNo in orders && orders[c.tradeNo].status.Success?
    && c.user == orders[c.tradeNo].user && c.amount == CreditDue(orders[c.tradeNo])
  }

  /** A handler between its read and its write holds the row as it is stored. */
  ghost predicate CopyCurrent(th: Thread, s: State) {
    th.pc.OrderUpdate? || th.pc.OrderCredit? ==>
      && th.copy.Some? && th.tradeNo in s.orders && s.orders[th.tradeNo] == th.copy.value
      && th.copy.value.provider == JobProvider(th.job)
      && (th.pc.OrderUpdate? ==>
            th.copy.value.status.Pending? && (th.job.EpayNotify? || th.job.StripeAsyncFailed?))
      && (th.pc.OrderCredit? ==>
            && th.copy.value.status.Success? && th.job.EpayNotify?
            && th.tradeNo !in CreditedOrders(s.credits) && th.tradeNo !in s.dropped)
  }

  /** Every successful order is credited, being credited by some thread, or recorded as a failed credit. */
  ghost predicate Accounted(s: State) {
    forall n :: n in s.orders && s.orders[n].status.Success? ==>
      n in CreditedOrders(s.credits) || n in s.dropped || BeingCredited(s, n)
  }

  ghost predicate BeingCredited(s: State, n: TradeNo) {
    exists t :: t in s.threads && s.threads[t].pc.OrderCredit? && s.threads[t].tradeNo == n
  }

  ghost predicate BalancesExact(s: State, start: map<UserId, int>) {
    && s.balances.Keys == start.Keys
    && forall u :: u in start ==> s.balances[u] == start[u] + TotalFor(s.credits, u)
  }

  ghost predicate PayInv(s: State, start: map<UserId, int>) {
    && CreditsSound(s)
    && (forall t :: t in s.threads ==> CopyCurrent(s.threads[t], s))
    && Accounted(s)
    && BalancesExact(s, start)
  }

  lemma CreditedAfterAppend(credits: seq<Credit>, c: Credit)
    ensures CreditedOrders(credits + [c]) == CreditedOrders(credits) + {c.tradeNo}
    ensures forall u :: TotalFor(credits + [c], u) == TotalFor(credits, u) + if c.user == u then c.amount else 0
  {
    assert (credits + [c])[..|credits|] == credits;
    assert forall x :: x in credits + [c] <==> x in credits || x == c;
  }

  /** No other thread is in a handler for the same order. */
  ghost predicate Alone(s: State, t: ThreadId)
    requires t in s.threads
  {
    forall u :: u in s.threads && u != t && InHandler(s.threads[u].pc) ==> s.threads[u].tradeNo != s.threads[t].tradeNo
  }

  lemma LockedAlone(s: State, t: ThreadId)
    requires LockInv(s) && t in s.threads && InHandler(s.threads[t].pc)
    ensures Alone(s, t)
  {
    forall u | u in s.threads && u != t && InHandler(s.threads[u].pc)
      ensures s.threads[u].tradeNo != s.threads[t].tradeNo
    {
      assert SeesTable(s.threads[u], s.table) && SeesTable(s.threads[t], s.table);
    }
  }

  // Steps of LockOrder and UnlockOrder leave orders and balances alone

  lemma LockingKeepsPayInv(s: State, s': State, t: ThreadId, start: map<UserId, int>)
    requires PayInv(s, start) && t in s.threads && !InHandler(s.threads[t].pc) && Untouched(s, s', t)
    ensures PayInv(s', start)
  {
    forall n | n in s.orders && BeingCredited(s, n) ensures BeingCredited(s', n) {
      var u :| u in s.threads && s.threads[u].pc.OrderCredit? && s.threads[u].tradeNo == n;
      assert u in s'.threads && s'.threads[u] == s.threads[u];
    }
  }

  /** One handler step of `t`: at most its own row changes, and at most one credit is added. */
  ghost predicate HandlerEffect(s: State, s': State, t: ThreadId) {
    && t in s.threads && t in s'.threads && s'.threads == s.threads[t := s'.threads[t]]
    && var n := s.threads[t].tradeNo;
    && s'.threads[t].tradeNo == n
    && CopyCurrent(s'.threads[t], s')
    && (forall k :: k != n ==> (k in s'.orders <==> k in s.orders))
    && (forall k :: k != n && k in s.orders ==> s'.orders[k] == s.orders[k])
    && (n in s.orders ==> n in s'.orders)
    && (s'.dropped == s.dropped || s'.dropped == s.dropped + {n})
    && (s'.credits == s.credits || (|s'.credits| > 0 && s'.credits == s.credits + [s'.credits[|s'.credits| - 1]]))
  }

  lemma OthersKeepCopies(s: State, s': State, t: ThreadId)
    requires t in s.threads && Alone(s, t) && InHandler(s.threads[t].pc) && HandlerEffect(s, s', t)
    requires forall u :: u in s.threads ==> CopyCurrent(s.threads[u], s)
    requires s'.credits != s.credits ==> s'.credits[|s.credits|].tradeNo == s.threads[t].tradeNo
    ensures forall u :: u in s'.threads ==> CopyCurrent(s'.threads[u], s')
  {
    if s'.credits != s.credits {
      CreditedAfterAppend(s.credits, s'.credits[|s.credits|]);
    }
  }

  lemma OthersStayAccounted(s: State, s': State, t: ThreadId)
    requires t in s.threads && Alone(s, t) && InHandler(s.threads[t].pc) && HandlerEffect(s, s', t)
    requires Accounted(s)
    requires s'.credits != s.credits ==> s'.credits[|s.credits|].tradeNo == s.threads[t].tradeNo
    requires var n := s.threads[t].tradeNo;
             n in s'.orders && s'.orders[n].status.Success? ==>
               n in CreditedOrders(s'.credits) || n in s'.dropped || s'.threads[t].pc.OrderCredit?
    ensures Accounted(s')
  {
    if s'.credits != s.credits {
      CreditedAfterAppend(s.credits, s'.credits[|s.credits|]);
    }
    forall n | n in s'.orders && s'.orders[n].status.Success?
      ensures n in CreditedOrders(s'.credits) || n in s'.dropped || BeingCredited(s', n)
    {
      if n != s.threads[t].tradeNo && BeingCredited(s, n) {
        var u :| u in s.threads && s.threads[u].pc.OrderCredit? && s.threads[u].tradeNo == n;
        assert u in s'.threads && s'.threads[u] == s.threads[u];
      }
    }
  }

  lemma AppendKeepsCredits(credits: seq<Credit>, c: Credit)
    requires forall i, j :: 0 <= i < j < |credits| ==> credits[i].tradeNo != credits[j].tradeNo
    requires c.tradeNo !in CreditedOrders(credits)
    ensures forall i, j :: 0 <= i < j < |credits + [c]| ==> (credits + [c])[i].tradeNo != (credits + [c])[j].tradeNo
  {
    assert forall i :: 0 <= i < |credits| ==> credits[i] in credits;
  }

  /** Rows other than the one just credited are as they were. */
  lemma FitsStill(c: Credit, orders: map<TradeNo, Order>, orders': map<TradeNo, Order>, n: TradeNo)
    requires CreditFits(c, orders) && c.tradeNo != n
    requires forall k :: k in orders && k != n ==> k in orders' && orders'[k] == orders[k]
    ensures CreditFits(c, orders')
  {
  }

  /** Adding one credit for a successful order that has none yet. */
  lemma NewCreditSound(s: State, s': State, n: TradeNo)
    requires CreditsSound(s)
    requires n in s'.orders && s'.orders[n].status.Success? && n !in CreditedOrders(s.credits) && n !in s.dropped
    requires forall k :: k in s.orders && k != n ==> k in s'.orders && s'.orders[k] == s.orders[k]
    requires s'.credits == s.credits + [Credit(n, s'.orders[n].user, CreditDue(s'.orders[n]))] && s'.dropped == s.dropped
    ensures CreditsSound(s')
  {
    var c := Credit(n, s'.orders[n].user, CreditDue(s'.orders[n]));
    CreditedAfterAppend(s.credits, c);
    AppendKeepsCredits(s.credits, c);
    forall x | x in s'.credits ensures CreditFits(x, s'.orders) {
      if x in s.credits {
        assert x.tradeNo in CreditedOrders(s.credits);
        FitsStill(x, s.orders, s'.orders, n);
      }
    }
  }

  lemma NewCreditBalances(s: State, s': State, n: TradeNo, user: UserId, amount: int, start: map<UserId, int>)
    requires BalancesExact(s, start)
    requires s' == AddCredit(s.(orders := s'.orders, threads := s'.threads), n, user, amount)
    ensures BalancesExact(s', start)
  {
    CreditedAfterAppend(s.credits, Credit(n, user, amount));
  }

  /** Writing a row that was pending disturbs no recorded credit. */
  lemma PendingRowFree(s: State, n: TradeNo)
    requires CreditsSound(s) && n in s.orders && s.orders[n].status.Pending?
    ensures n !in CreditedOrders(s.credits) && n !in s.dropped
  {
  }

  lemma ReadKeepsPayInv(s: State, t: ThreadId, start: map<UserId, int>)
    requires PayInv(s, start) && t in s.threads && Alone(s, t) && s.threads[t].pc.OrderRead?
    requires ReadCheckWrite(s.threads[t].job)
    ensures PayInv(ReadStep(s, t), start)
  {
    var s' := ReadStep(s, t);
    assert HandlerEffect(s, s', t);
    OthersKeepCopies(s, s', t);
    assert Accounted(s') by { StaysAccountedWithout(s, s', t); }
  }

  /** A thread that is not crediting now cannot be the reason an order is accounted for. */
  lemma StaysAccountedWithout(s: State, s': State, t: ThreadId)
    requires t in s.threads && Alone(s, t) && s.threads[t].pc.OrderRead? && HandlerEffect(s, s', t)
    requires Accounted(s)
    requires s'.credits != s.credits ==> s'.credits[|s.credits|].tradeNo == s.threads[t].tradeNo
    requires var n := s.threads[t].tradeNo;
             n in s'.orders && s'.orders[n].status.Success? ==>
               n in CreditedOrders(s'.credits) || (n in s.orders && s.orders[n].status.Success?)
    ensures Accounted(s')
  {
    if s'.credits != s.credits {
      CreditedAfterAppend(s.credits, s'.credits[|s.credits|]);
    }
    OthersStayAccounted(s, s', t);
  }

  /** What a committed transaction does: nothing, or a pending row becomes Expired, or it becomes
      Success together with its credit. */
  lemma TransactionEffect(s: State, job: Job, n: TradeNo)
    requires !ReadCheckWrite(job)
    ensures var s' := RunTransaction(s, job, n);
            || s' == s
            || (&& n in s.orders && s.orders[n].status.Pending?
                && s' == s.(orders := s.orders[n := s.orders[n].(status := Expired)]))
            || (&& n in s.orders && s.orders[n].status.Pending?
                && var o := Completed(s.orders[n], job);
                s' == AddCredit(s.(orders := s.orders[n := o]), n, o.user, CreditDue(o)))
  {
  }

  lemma TransactionMoney(s: State, t: ThreadId, start: map<UserId, int>)
    requires CreditsSound(s) && BalancesExact(s, start) && t in s.threads && s.threads[t].pc.OrderRead?
    requires !ReadCheckWrite(s.threads[t].job)
    ensures CreditsSound(TransactionStep(s, t)) && BalancesExact(TransactionStep(s, t), start)
  {
    var s', n := TransactionStep(s, t), s.threads[t].tradeNo;
    TransactionEffect(s, s.threads[t].job, n);
    if n in s.orders && s.orders[n].status.Pending? {
      PendingRowFree(s, n);
      if s'.credits != s.credits {
        NewCreditSound(s, s', n);
        NewCreditBalances(s, s', n, s'.orders[n].user, CreditDue(s'.orders[n]), start);
      }
    }
  }

  lemma TransactionIsEffect(s: State, t: ThreadId)
    requires t in s.threads && !ReadCheckWrite(s.threads[t].job)
    ensures var s', n := TransactionStep(s, t), s.threads[t].tradeNo;
            && HandlerEffect(s, s', t)
            && (s'.credits != s.credits ==> s'.credits[|s.credits|].tradeNo == n)
            && (n in s'.orders && s'.orders[n].status.Success? && s'.credits == s.credits ==>
                  n in s.orders && s.orders[n].status.Success?)
  {
    TransactionEffect(s, s.threads[t].job, s.threads[t].tradeNo);
  }

  lemma TransactionKeepsPayInv(s: State, t: ThreadId, start: map<UserId, int>)
    requires PayInv(s, start) && t in s.threads && Alone(s, t) && s.threads[t].pc.OrderRead?
    requires !ReadCheckWrite(s.threads[t].job)
    ensures PayInv(TransactionStep(s, t), start)
  {
    var s' := TransactionStep(s, t);
    TransactionIsEffect(s, t);
    assert CreditsSound(s') && BalancesExact(s', start) by { TransactionMoney(s, t, start); }
    assert forall u :: u in s'.threads ==> CopyCurrent(s'.threads[u], s') by { OthersKeepCopies(s, s', t); }
    assert Accounted(s') by {
      if s'.credits != s.credits {
        CreditedAfterAppend(s.credits, s'.credits[|s.credits|]);
      }
      StaysAccountedWithout(s, s', t);
    }
  }

  /** Rewriting a pending row leaves the recorded credits sound. */
  lemma UpdateMoney(s: State, t: ThreadId, ok: bool, start: map<UserId, int>)
    requires CreditsSound(s) && BalancesExact(s, start) && t in s.threads && s.threads[t].pc.OrderUpdate?
    requires CopyCurrent(s.threads[t], s)
    ensures CreditsSound(UpdateStep(s, t, ok)) && BalancesExact(UpdateStep(s, t, ok), start)
  {
    var s', n := UpdateStep(s, t, ok), s.threads[t].tradeNo;
    PendingRowFree(s, n);
    forall c | c in s'.credits ensures CreditFits(c, s'.orders) {
      assert c.tradeNo in CreditedOrders(s.credits);
      FitsStill(c, s.orders, s'.orders, n);
    }
  }

  lemma UpdateKeepsPayInv(s: State, t: ThreadId, ok: bool, start: map<UserId, int>)
    requires PayInv(s, start) && t in s.threads && Alone(s, t) && s.threads[t].pc.OrderUpdate?
    ensures PayInv(UpdateStep(s, t, ok), start)
  {
    var s', n := UpdateStep(s, t, ok), s.threads[t].tradeNo;
    assert CopyCurrent(s.threads[t], s);
    PendingRowFree(s, n);
    assert HandlerEffect(s, s', t);
    assert CreditsSound(s') && BalancesExact(s', start) by { UpdateMoney(s, t, ok, start); }
    assert forall u :: u in s'.threads ==> CopyCurrent(s'.threads[u], s') by { OthersKeepCopies(s, s', t); }
    assert Accounted(s') by { OthersStayAccounted(s, s', t); }
  }

  lemma CreditMoney(s: State, t: ThreadId, ok: bool, start: map<UserId, int>)
    requires CreditsSound(s) && BalancesExact(s, start) && t in s.threads && s.threads[t].pc.OrderCredit?
    requires CopyCurrent(s.threads[t], s)
    ensures CreditsSound(CreditStep(s, t, ok)) && BalancesExact(CreditStep(s, t, ok), start)
  {
    var s', n := CreditStep(s, t, ok), s.threads[t].tradeNo;
    if s'.credits != s.credits {
      NewCreditSound(s, s', n);
      NewCreditBalances(s, s', n, s'.orders[n].user, CreditDue(s'.orders[n]), start);
    }
  }

  lemma CreditKeepsPayInv(s: State, t: ThreadId, ok: bool, start: map<UserId, int>)
    requires PayInv(s, start) && t in s.threads && Alone(s, t) && s.threads[t].pc.OrderCredit?
    ensures PayInv(CreditStep(s, t, ok), start)
  {
    var s', n := CreditStep(s, t, ok), s.threads[t].tradeNo;
    assert CopyCurrent(s.threads[t], s);
    assert HandlerEffect(s, s', t);
    assert CreditsSound(s') && BalancesExact(s', start) by { CreditMoney(s, t, ok, start); }
    assert forall u :: u in s'.threads ==> CopyCurrent(s'.threads[u], s') by { OthersKeepCopies(s, s', t); }
    assert Accounted(s') by {
      if s'.credits != s.credits {
        CreditedAfterAppend(s.credits, s'.credits[|s.credits|]);
      }
      OthersStayAccounted(s, s', t);
    }
  }

  /** What locking and unlocking leave alone. */
  ghost predicate Untouched(s: State, s': State, t: ThreadId)
    requires t in s.threads
  {
    && s'.orders == s.orders && s'.balances == s.balances && s'.credits == s.credits && s'.dropped == s.dropped
    && t in s'.threads && s'.threads == s.threads[t := s'.threads[t]]
    && s'.threads[t].job == s.threads[t].job && s'.threads[t].tradeNo == s.threads[t].tradeNo
    && !s'.threads[t].pc.OrderUpdate? && !s'.threads[t].pc.OrderCredit?
  }

  lemma LockOrderFrame(s: State, t: ThreadId)
    requires t in s.threads && InLockOrder(s.threads[t].pc)
    ensures Untouched(s, LockOrderStep(s, t), t)
  {
  }

  lemma UnlockOrderFrame(s: State, t: ThreadId)
    requires t in s.threads && !InLockOrder(s.threads[t].pc) && !InHandler(s.threads[t].pc) && !s.threads[t].pc.Done?
    ensures Untouched(s, UnlockOrderStep(s, t), t)
  {
    match s.threads[t].pc {
      case UnlockLoad =>
      case UnlockMutex =>
      case UnlockCreate =>
      case UnlockCount =>
      case UnlockDelete =>
      case UnlockRelease =>
    }
  }

  lemma OutsideKeepsPayInv(s: State, a: Action, start: map<UserId, int>)
    requires PayInv(s, start) && Enabled(s, a) && !a.Step?
    ensures PayInv(Apply(s, a), start)
  {
    var s' := Apply(s, a);
    forall n | n in s.orders && BeingCredited(s, n) ensures BeingCredited(s', n) {
      var u :| u in s.threads && s.threads[u].pc.OrderCredit? && s.threads[u].tradeNo == n;
      assert u in s'.threads && s'.threads[u] == s.threads[u];
    }
  }

  /** Every atomic action keeps the payment invariant. */
  lemma ApplyKeepsPayInv(s: State, a: Action, start: map<UserId, int>)
    requires LockInv(s) && PayInv(s, start) && Enabled(s, a)
    ensures PayInv(Apply(s, a), start)
  {
    match a
    case Spawn(_, _, _) => OutsideKeepsPayInv(s, a, start);
    case Insert(_, _) => OutsideKeepsPayInv(s, a, start);
    case Step(t, ok) =>
      var th := s.threads[t];
      if !InHandler(th.pc) {
        LockingUntouched(s, t);
        LockingKeepsPayInv(s, Apply(s, a), t, start);
      } else {
        LockedAlone(s, t);
        HandlerKeepsPayInv(s, t, ok, start);
      }
  }

  lemma LockingUntouched(s: State, t: ThreadId)
    requires t in s.threads && !InHandler(s.threads[t].pc) && !s.threads[t].pc.Done?
    ensures Untouched(s, if InLockOrder(s.threads[t].pc) then LockOrderStep(s, t) else UnlockOrderStep(s, t), t)
  {
    if InLockOrder(s.threads[t].pc) {
      LockOrderFrame(s, t);
    } else {
      UnlockOrderFrame(s, t);
    }
  }

  lemma HandlerKeepsPayInv(s: State, t: ThreadId, ok: bool, start: map<UserId, int>)
    requires PayInv(s, start) && t in s.threads && Alone(s, t) && InHandler(s.threads[t].pc)
    ensures PayInv(HandlerStep(s, t, ok), start)
  {
    var th := s.threads[t];
    if th.pc.OrderUpdate? {
      UpdateKeepsPayInv(s, t, ok, start);
    } else if th.pc.OrderCredit? {
      CreditKeepsPayInv(s, t, ok, start);
    } else if !ok {
      SkipKeepsPayInv(s, t, start);
    } else if ReadCheckWrite(th.job) {
      ReadKeepsPayInv(s, t, start);
    } else {
      TransactionKeepsPayInv(s, t, start);
    }
  }

  lemma SkipKeepsPayInv(s: State, t: ThreadId, start: map<UserId, int>)
    requires PayInv(s, start) && t in s.threads && Alone(s, t) && s.threads[t].pc.OrderRead?
    ensures PayInv(Goto(s, t, UnlockLoad), start)
  {
    var s' := Goto(s, t, UnlockLoad);
    assert HandlerEffect(s, s', t);
    OthersKeepCopies(s, s', t);
    StaysAccountedWithout(s, s', t);
  }

  lemma {:induction false} RunKeepsPayInv(run: seq<State>, acts: seq<Action>, start: map<UserId, int>, i: nat)
    requires IsRun(run, acts, start) && i < |run|
    ensures LockInv(run[i]) && PayInv(run[i], start)
  {
    if i > 0 {
      RunKeepsPayInv(run, acts, start, i - 1);
      ApplyKeepsLockInv(run[i - 1], acts[i - 1]);
      ApplyKeepsPayInv(run[i - 1], acts[i - 1], start);
    }
  }

  // The theorems

  /** In every run each order is credited at most once, only while its stored status is success, with
      exactly its due, and every balance is its start plus the credits of its user. */
  lemma CreditedAtMostOnce(run: seq<State>, acts: seq<Action>, start: map<UserId, int>, i: nat)
    requires IsRun(run, acts, start) && i < |run|
    ensures forall j, k :: 0 <= j < k < |run[i].credits| ==> run[i].credits[j].tradeNo != run[i].credits[k].tradeNo
    ensures forall c :: c in run[i].credits ==> CreditFits(c, run[i].orders)
    ensures run[i].balances.Keys == start.Keys
    ensures forall u :: u in start ==> run[i].balances[u] == start[u] + TotalFor(run[i].credits, u)
  {
    RunKeepsPayInv(run, acts, start, i);
  }

  /** Once every thread has finished, the successful orders are exactly those that were credited and
      those whose credit failed after the status was stored, and no order is both. */
  lemma NoCreditForgotten(run: seq<State>, acts: seq<Action>, start: map<UserId, int>, i: nat, n: TradeNo)
    requires IsRun(run, acts, start) && i < |run|
    requires forall t :: t in run[i].threads ==> run[i].threads[t].pc.Done?
    ensures n in run[i].orders && run[i].orders[n].status.Success? <==>
            n in CreditedOrders(run[i].credits) || n in run[i].dropped
    ensures !(n in CreditedOrders(run[i].credits) && n in run[i].dropped)
  {
    RunKeepsPayInv(run, acts, start, i);
  }

  /** The status a job may leave behind. */
  function Outcome(job: Job): Status {
    match job
    case StripeAsyncFailed => Failed
    case StripeExpire => Expired
    case _ => Success
  }

  /** Whose orders a job may settle. */
  predicate MaySettle(job: Job, provider: Provider) {
    match job
    case EpayNotify(_) => provider.Epay?
    case AdminComplete(_) => true
    case _ => provider.Stripe?
  }

  /** A step that changes a stored row is a thread of a matching handler settling a pending order. */
  ghost predicate RowSettled(s: State, s': State, a: Action, n: TradeNo)
    requires n in s.orders && n in s'.orders
  {
    && a.Step? && a.t in s.threads && s.threads[a.t].tradeNo == n
    && var job, o, o' := s.threads[a.t].job, s.orders[n], s'.orders[n];
    && MaySettle(job, o.provider)
    && o.status.Pending? && o'.status == Outcome(job)
    && o' == o.(status := o'.status,
                payMethod := if job.EpayNotify? then job.callbackType else o.payMethod,
                completeTime := if job.StripeFulfil? || job.AdminComplete? then job.now else o.completeTime)
  }

  lemma UpdateSettlesRow(s: State, t: ThreadId, ok: bool, n: TradeNo)
    requires t in s.threads && s.threads[t].pc.OrderUpdate? && CopyCurrent(s.threads[t], s) && n in s.orders
    ensures var s' := UpdateStep(s, t, ok);
            n in s'.orders && (s'.orders[n] == s.orders[n] || RowSettled(s, s', Step(t, ok), n))
  {
  }

  lemma TransactionSettlesRow(s: State, t: ThreadId, n: TradeNo)
    requires t in s.threads && !ReadCheckWrite(s.threads[t].job) && n in s.orders
    ensures var s' := TransactionStep(s, t);
            n in s'.orders && (s'.orders[n] == s.orders[n] || RowSettled(s, s', Step(t, true), n))
  {
  }

  lemma HandlerSettlesRow(s: State, t: ThreadId, ok: bool, n: TradeNo)
    requires t in s.threads && InHandler(s.threads[t].pc) && CopyCurrent(s.threads[t], s) && n in s.orders
    ensures var s' := HandlerStep(s, t, ok);
            n in s'.orders && (s'.orders[n] == s.orders[n] || RowSettled(s, s', Step(t, ok), n))
  {
    if s.threads[t].pc.OrderUpdate? {
      UpdateSettlesRow(s, t, ok, n);
    } else if s.threads[t].pc.OrderRead? && ok && !ReadCheckWrite(s.threads[t].job) {
      TransactionSettlesRow(s, t, n);
    }
  }

  lemma StepSettlesRow(s: State, a: Action, start: map<UserId, int>, n: TradeNo)
    requires PayInv(s, start) && Enabled(s, a) && n in s.orders
    ensures n in Apply(s, a).orders
    ensures Apply(s, a).orders[n] == s.orders[n] || RowSettled(s, Apply(s, a), a, n)
  {
    if a.Step? {
      if !InHandler(s.threads[a.t].pc) {
        LockingUntouched(s, a.t);
      } else {
        assert CopyCurrent(s.threads[a.t], s);
        HandlerSettlesRow(s, a.t, a.ok, n);
      }
    }
  }

  /** A change of a stored order, anywhere in a run, settles a pending order of the handler's provider. */
  lemma OnlyPendingOrdersChange(run: seq<State>, acts: seq<Action>, start: map<UserId, int>, i: nat, n: TradeNo)
    requires IsRun(run, acts, start) && i < |acts| && n in run[i].orders
    ensures n in run[i + 1].orders
    ensures run[i + 1].orders[n] == run[i].orders[n] || RowSettled(run[i], run[i + 1], acts[i], n)
  {
    RunKeepsPayInv(run, acts, start, i);
    StepSettlesRow(run[i], acts[i], start, n);
  }

  lemma SettledStays(s: State, s': State, a: Action, n: TradeNo)
    requires n in s.orders && n in s'.orders && !s.orders[n].status.Pending?
    requires s'.orders[n] == s.orders[n] || RowSettled(s, s', a, n)
    ensures s'.orders[n] == s.orders[n]
  {
  }

  /** A settled order never changes again: every order leaves pending at most once. */
  lemma {:induction false} SettledForever(run: seq<State>, acts: seq<Action>, start: map<UserId, int>,
                                          i: nat, j: nat, n: TradeNo)
    requires IsRun(run, acts, start) && i <= j < |run|
    requires n in run[i].orders && !run[i].orders[n].status.Pending?
    ensures n in run[j].orders && run[j].orders[n] == run[i].orders[n]
  {
    if i < j {
      SettledForever(run, acts, start, i, j - 1, n);
      OnlyPendingOrdersChange(run, acts, start, j - 1, n);
      SettledStays(run[j - 1], run[j], acts[j - 1], n);
    }
  }
}
