/**
 The in-memory rate limiter keeps, per key, a short queue of the latest accepted timestamps, and a
 background sweep that forgets idle keys. It is compared with a limiter that remembers every
 acceptance for ever.
 */
module RateLimiter {

  type Store = map<string, seq<int>>

  /** Every caller uses one limit and one duration, in seconds, per key. */
  datatype Policy = Policy(maxRequests: nat, duration: int)

  /** The policies and the expiration duration in nanoseconds given to Init. */
  datatype Config = Config(policy: string -> Policy, expiration: int) {
    /** int64(expirationDuration.Seconds()); the sweep only runs for a positive duration. */
    function ExpirationSeconds(): int
    {
      expiration / 1_000_000_000
    }
  }

  /** InMemoryRateLimiter.Request. An empty queue is never stored. */
  function Request(store: Store, key: string, p: Policy, now: int): (r: (Store, bool)) {
    if key in store then
      var queue := store[key];
      if |queue| < p.maxRequests || |queue| == 0 then (store[key := queue + [now]], true)
      else if now - queue[0] >= p.duration then (store[key := queue[1..] + [now]], true)
      else (store, false)
    else (store[key := [now]], true)
  }

  /** One round of clearExpiredItems. */
  function Sweep(store: Store, seconds: int, now: int): Store {
    map key | key in store && !Expired(store[key], seconds, now) :: store[key]
  }

  predicate Expired(queue: seq<int>, seconds: int, now: int) {
    |queue| == 0 || now - queue[|queue| - 1] > seconds
  }

  // The reference: an unbounded history of acceptances

  /** How many of the timestamps are less than `duration` seconds old. */
  function Young(times: seq<int>, duration: int, now: int): (n: nat)
    ensures n <= |times|
  {
    if times == [] then 0
    else
      Young(times[..|times| - 1], duration, now) + if now - times[|times| - 1] < duration then 1 else 0
  }

  function Accepted(history: Store, key: string): seq<int> {
    if key in history then history[key] else []
  }

  /** Admits a request exactly when fewer acceptances than the limit are younger than the duration. */
  function Judge(history: Store, key: string, p: Policy, now: int): (r: (Store, bool)) {
    var times := Accepted(history, key);
    if Young(times, p.duration, now) < p.maxRequests then (history[key := times + [now]], true) else (history, false)
  }

  // Runs

  datatype Event = Ask(key: string, now: int) | Tick(now: int)

  /** Times never go back, and the sweep ticks only if it was started. */
  ghost predicate Timely(c: Config, events: seq<Event>) {
    && (forall i, j :: 0 <= i < j < |events| ==> events[i].now <= events[j].now)
    && (forall i :: 0 <= i < |events| && events[i].Tick? ==> c.expiration > 0)
  }

  function StepStore(c: Config, store: Store, e: Event): (Store, bool) {
    match e
    case Ask(key, now) => Request(store, key, c.policy(key), now)
    case Tick(now) => (Sweep(store, c.ExpirationSeconds(), now), true)
  }

  function StepHistory(c: Config, history: Store, e: Event): (Store, bool) {
    match e
    case Ask(key, now) => Judge(history, key, c.policy(key), now)
    case Tick(_) => (history, true)
  }

  /** The state after a run and the answers it gave; `bounded` selects the code or the reference. */
  function Run(c: Config, events: seq<Event>, bounded: bool): (Store, seq<bool>) {
    if events == [] then (map[], [])
    else
      var (s, answers) := Run(c, events[..|events| - 1], bounded);
      var e := events[|events| - 1];
      var (s', ok) := if bounded then StepStore(c, s, e) else StepHistory(c, s, e);
      (s', answers + [ok])
  }

  /** The queue of a key is the tail of its history; what it lacks is stale, unless it is full. */
  ghost predicate Tracks(queue: seq<int>, times: seq<int>, p: Policy, now: int) {
    && |queue| <= |times| && |queue| <= p.maxRequests
    && queue == times[|times| - |queue|..]
    && (forall i, j :: 0 <= i < j < |times| ==> times[i] <= times[j])
    && (forall i :: 0 <= i < |times| ==> times[i] <= now)
    && (|queue| < p.maxRequests ==> forall i :: 0 <= i < |times| - |queue| ==> now - times[i] >= p.duration)
  }

  ghost predicate Agrees(c: Config, store: Store, history: Store, now: int) {
    forall key :: KeyAgrees(c, store, history, key, now)
  }

  ghost predicate KeyAgrees(c: Config, store: Store, history: Store, key: string, now: int) {
    && Tracks(Accepted(store, key), Accepted(history, key), c.policy(key), now)
    && (key in store ==> store[key] != [])
  }

  lemma {:induction false} YoungBounds(times: seq<int>, duration: int, now: int, k: nat)
    requires k <= |times|
    requires forall i :: 0 <= i < |times| - k ==> now - times[i] >= duration
    ensures Young(times, duration, now) <= k
    decreases |times|
  {
    if times != [] && k < |times| {
      YoungBounds(times[..|times| - 1], duration, now, if k == 0 then 0 else k - 1);
    }
  }

  lemma {:induction false} YoungTail(times: seq<int>, duration: int, now: int, k: nat)
    requires k <= |times|
    requires forall i :: |times| - k <= i < |times| ==> now - times[i] < duration
    ensures Young(times, duration, now) >= k
    decreases |times|
  {
    if k > 0 {
      YoungTail(times[..|times| - 1], duration, now, k - 1);
    }
  }

  /** The new queue when a request is accepted. */
  function Pushed(queue: seq<int>, p: Policy, now: int): seq<int> {
    if queue == [] || |queue| < p.maxRequests then queue + [now] else queue[1..] + [now]
  }

  predicate Accepts(queue: seq<int>, p: Policy, now: int) {
    queue == [] || |queue| < p.maxRequests || now - queue[0] >= p.duration
  }

  /** The queue decides as the whole history would. */
  lemma SameVerdict(queue: seq<int>, times: seq<int>, p: Policy, now: int)
    requires Tracks(queue, times, p, now) && p.maxRequests >= 1
    ensures Accepts(queue, p, now) <==> Young(times, p.duration, now) < p.maxRequests
  {
    var cut := |times| - |queue|;
    if |queue| < p.maxRequests {
      YoungBounds(times, p.duration, now, |queue|);
    } else if now - queue[0] >= p.duration {
      assert queue[0] == times[cut];
      YoungBounds(times, p.duration, now, |queue| - 1);
    } else {
      assert queue[0] == times[cut];
      YoungTail(times, p.duration, now, |queue|);
    }
  }

  lemma TailAppend(times: seq<int>, cut: nat, now: int)
    requires cut <= |times|
    ensures (times + [now])[cut..] == times[cut..] + [now]
  {
  }

  lemma PushTracks(queue: seq<int>, times: seq<int>, p: Policy, now: int)
    requires Tracks(queue, times, p, now) && p.maxRequests >= 1 && Accepts(queue, p, now)
    ensures Tracks(Pushed(queue, p, now), times + [now], p, now)
  {
    var cut := |times| - |queue|;
    if |queue| < p.maxRequests {
      TailAppend(times, cut, now);
    } else {
      TailAppend(times, cut + 1, now);
      assert queue[1..] == times[cut + 1..];
    }
  }

  /** What both limiters do with a request, in terms of the key's queue and history. */
  lemma AskIs(c: Config, store: Store, history: Store, key: string, now: int)
    requires KeyAgrees(c, store, history, key, now) && c.policy(key).maxRequests >= 1
    ensures var p, queue, times := c.policy(key), Accepted(store, key), Accepted(history, key);
            && StepStore(c, store, Ask(key, now)) ==
               (if Accepts(queue, p, now) then (store[key := Pushed(queue, p, now)], true) else (store, false))
            && StepHistory(c, history, Ask(key, now)) ==
               (if Accepts(queue, p, now) then (history[key := times + [now]], true) else (history, false))
  {
    SameVerdict(Accepted(store, key), Accepted(history, key), c.policy(key), now);
    RequestIs(store, key, c.policy(key), now);
  }

  lemma AcceptedAgrees(c: Config, store: Store, history: Store, key: string, now: int)
    requires Agrees(c, store, history, now) && KeyAgrees(c, store, history, key, now)
    requires c.policy(key).maxRequests >= 1 && Accepts(Accepted(store, key), c.policy(key), now)
    ensures var p, queue, times := c.policy(key), Accepted(store, key), Accepted(history, key);
            Agrees(c, store[key := Pushed(queue, p, now)], history[key := times + [now]], now)
  {
    var p, queue, times := c.policy(key), Accepted(store, key), Accepted(history, key);
    PushTracks(queue, times, p, now);
    PushedAgrees(c, store, history, key, Pushed(queue, p, now), times + [now], now);
  }

  lemma AskKeepsAgreement(c: Config, store: Store, history: Store, key: string, now: int)
    requires Agrees(c, store, history, now) && c.policy(key).maxRequests >= 1
    ensures StepStore(c, store, Ask(key, now)).1 == StepHistory(c, history, Ask(key, now)).1
    ensures Agrees(c, StepStore(c, store, Ask(key, now)).0, StepHistory(c, history, Ask(key, now)).0, now)
  {
    assert KeyAgrees(c, store, history, key, now);
    AskIs(c, store, history, key, now);
    if Accepts(Accepted(store, key), c.policy(key), now) {
      AcceptedAgrees(c, store, history, key, now);
    }
  }

  lemma RequestIs(store: Store, key: string, p: Policy, now: int)
    requires key in store ==> store[key] != []
    ensures var queue := Accepted(store, key);
            Request(store, key, p, now) ==
            if Accepts(queue, p, now) then (store[key := Pushed(queue, p, now)], true) else (store, false)
  {
    assert [] + [now] == [now];
  }

  lemma OtherKeyAgrees(c: Config, store: Store, history: Store, key: string, queue: seq<int>, times: seq<int>, now: int,
                       k: string)
    requires k != key && KeyAgrees(c, store, history, k, now)
    ensures KeyAgrees(c, store[key := queue], history[key := times], k, now)
  {
  }

  lemma OwnKeyAgrees(c: Config, store: Store, history: Store, key: string, queue: seq<int>, times: seq<int>, now: int)
    requires Tracks(queue, times, c.policy(key), now) && queue != []
    ensures KeyAgrees(c, store[key := queue], history[key := times], key, now)
  {
  }

  lemma PushedAgrees(c: Config, store: Store, history: Store, key: string, queue: seq<int>, times: seq<int>, now: int)
    requires Agrees(c, store, history, now)
    requires Tracks(queue, times, c.policy(key), now) && queue != []
    ensures Agrees(c, store[key := queue], history[key := times], now)
  {
    var store', history' := store[key := queue], history[key := times];
    forall k ensures KeyAgrees(c, store', history', k, now) {
      if k == key {
        OwnKeyAgrees(c, store, history, key, queue, times, now);
      } else {
        assert KeyAgrees(c, store, history, k, now);
        OtherKeyAgrees(c, store, history, key, queue, times, now, k);
      }
    }
  }

  /** The sweep forgets nothing that still matters, when no duration outlasts the expiration. */
  ghost predicate Unobservable(c: Config) {
    c.expiration > 0 ==> forall key :: c.policy(key).duration <= c.ExpirationSeconds() + 1
  }

  ghost predicate PositiveLimits(c: Config) {
    forall key :: c.policy(key).maxRequests >= 1
  }

  lemma SweepKeepsAgreement(c: Config, store: Store, history: Store, now: int)
    requires Agrees(c, store, history, now) && c.expiration > 0 && Unobservable(c)
    ensures Agrees(c, Sweep(store, c.ExpirationSeconds(), now), history, now)
  {
    var store' := Sweep(store, c.ExpirationSeconds(), now);
    forall key ensures KeyAgrees(c, store', history, key, now) {
      assert KeyAgrees(c, store, history, key, now);
      if key in store && key !in store' {
        var times := Accepted(history, key);
        assert times[|times| - 1] == store[key][|store[key]| - 1];
      }
    }
  }

  lemma AgreesLater(c: Config, store: Store, history: Store, now: int, later: int)
    requires Agrees(c, store, history, now) && now <= later
    ensures Agrees(c, store, history, later)
  {
    forall key ensures KeyAgrees(c, store, history, key, later) {
      assert KeyAgrees(c, store, history, key, now);
    }
  }

  lemma EmptyAgrees(c: Config, now: int)
    ensures Agrees(c, map[], map[], now)
  {
    forall key ensures KeyAgrees(c, map[], map[], key, now) {
    }
  }

  lemma {:induction false} RunsAgree(c: Config, events: seq<Event>)
    requires Timely(c, events) && Unobservable(c) && PositiveLimits(c)
    ensures Run(c, events, true).1 == Run(c, events, false).1
    ensures events != [] ==>
              Agrees(c, Run(c, events, true).0, Run(c, events, false).0, events[|events| - 1].now)
    decreases |events|
  {
    if events != [] {
      var init, e := events[..|events| - 1], events[|events| - 1];
      RunsAgree(c, init);
      var s, h := Run(c, init, true).0, Run(c, init, false).0;
      if init == [] {
        EmptyAgrees(c, e.now);
      } else {
        AgreesLater(c, s, h, init[|init| - 1].now, e.now);
      }
      if e.Ask? {
        AskKeepsAgreement(c, s, h, e.key, e.now);
      } else {
        SweepKeepsAgreement(c, s, h, e.now);
      }
    }
  }

  // When some duration outlasts the expiration by two seconds or more

  function Asks(key: string, k: nat): seq<Event> {
    seq(k, _ => Ask(key, 0))
  }

  function Zeros(k: nat): seq<int> {
    seq(k, _ => 0)
  }

  function AfterBurst(key: string, k: nat): Store {
    if k == 0 then map[] else map[key := Zeros(k)]
  }

  lemma OneMore(p: Policy, key: string, k: nat)
    requires 0 < k <= p.maxRequests
    ensures Request(AfterBurst(key, k - 1), key, p, 0).0 == AfterBurst(key, k)
    ensures Judge(AfterBurst(key, k - 1), key, p, 0).0 == AfterBurst(key, k)
  {
    assert Zeros(k) == Zeros(k - 1) + [0];
    assert Zeros(0) == [] && Zeros(1) == [0];
  }

  lemma {:induction false} Burst(c: Config, key: string, k: nat, bounded: bool)
    requires k <= c.policy(key).maxRequests
    ensures Run(c, Asks(key, k), bounded).0 == AfterBurst(key, k)
    decreases k
  {
    if k > 0 {
      Burst(c, key, k - 1, bounded);
      assert Asks(key, k)[..k - 1] == Asks(key, k - 1);
      OneMore(c.policy(key), key, k);
    }
  }

  /** The last answer of a run is the step of its last event. */
  lemma LastAnswer(c: Config, events: seq<Event>, e: Event, bounded: bool)
    ensures var (s, answers) := Run(c, events, bounded);
            Run(c, events + [e], bounded).1 ==
            answers + [(if bounded then StepStore(c, s, e) else StepHistory(c, s, e)).1]
  {
    assert (events + [e])[..|events|] == events;
  }

  lemma NextState(c: Config, events: seq<Event>, e: Event, bounded: bool)
    ensures var s := Run(c, events, bounded).0;
            Run(c, events + [e], bounded).0 == (if bounded then StepStore(c, s, e) else StepHistory(c, s, e)).0
  {
    assert (events + [e])[..|events|] == events;
  }

  /** After a burst that fills the limit and a sweep, the limiter has forgotten the key. */
  lemma SweptBurst(c: Config, key: string, t: int)
    requires c.policy(key).maxRequests >= 1 && t > c.ExpirationSeconds()
    ensures var n := c.policy(key).maxRequests;
            && Run(c, Asks(key, n) + [Tick(t)], true).0 == map[]
            && Run(c, Asks(key, n) + [Tick(t)], false).0 == AfterBurst(key, n)
  {
    var n := c.policy(key).maxRequests;
    Burst(c, key, n, true);
    Burst(c, key, n, false);
    NextState(c, Asks(key, n), Tick(t), true);
    NextState(c, Asks(key, n), Tick(t), false);
  }

  lemma StillYoung(p: Policy, key: string, t: int)
    requires p.maxRequests >= 1 && t < p.duration
    ensures !Judge(AfterBurst(key, p.maxRequests), key, p, t).1
  {
    YoungTail(Zeros(p.maxRequests), p.duration, t, p.maxRequests);
  }

  lemma DifferentLast(a: seq<bool>, b: seq<bool>, x: bool, y: bool)
    requires |a| == |b| && x != y
    ensures a + [x] != b + [y]
  {
    assert (a + [x])[|a|] == x && (b + [y])[|a|] == y;
  }

  lemma BurstTimely(c: Config, key: string, n: nat, t: int)
    requires c.expiration > 0 && t >= 0
    ensures Timely(c, Asks(key, n) + [Tick(t)] + [Ask(key, t)])
  {
  }

  /** A burst, a sweep and one more request, which the full history refuses. */
  lemma SweptTooEarly(c: Config, key: string) returns (events: seq<Event>)
    requires c.expiration > 0 && c.policy(key).maxRequests >= 1
    requires c.policy(key).duration > c.ExpirationSeconds() + 1
    ensures Timely(c, events)
    ensures Run(c, events, true).1 != Run(c, events, false).1
  {
    var p, t := c.policy(key), c.ExpirationSeconds() + 1;
    var ticked, e := Asks(key, p.maxRequests) + [Tick(t)], Ask(key, t);
    events := ticked + [e];
    assert Timely(c, events) by { BurstTimely(c, key, p.maxRequests, t); }
    assert Run(c, events, true).1 == Run(c, ticked, true).1 + [true] by {
      SweptBurst(c, key, t);
      LastAnswer(c, ticked, e, true);
    }
    assert Run(c, events, false).1 == Run(c, ticked, false).1 + [false] by {
      SweptBurst(c, key, t);
      StillYoung(p, key, t);
      LastAnswer(c, ticked, e, false);
    }
    AnswerPerEvent(c, ticked, true);
    AnswerPerEvent(c, ticked, false);
    DifferentLast(Run(c, ticked, true).1, Run(c, ticked, false).1, true, false);
  }

  /** A limit of zero admits the first request for a key, which it should refuse. */
  lemma ZeroLimitAdmits(c: Config, key: string, now: int)
    requires c.policy(key).maxRequests == 0
    ensures Timely(c, [Ask(key, now)])
    ensures Run(c, [Ask(key, now)], true).1 == [true]
    ensures Run(c, [Ask(key, now)], false).1 == [false]
  {
    assert [] + [Ask(key, now)] == [Ask(key, now)];
    LastAnswer(c, [], Ask(key, now), true);
    LastAnswer(c, [], Ask(key, now), false);
  }

  lemma {:induction false} AnswerPerEvent(c: Config, events: seq<Event>, bounded: bool)
    ensures |Run(c, events, bounded).1| == |events|
    decreases |events|
  {
    if events != [] {
      AnswerPerEvent(c, events[..|events| - 1], bounded);
    }
  }

  ghost predicate AlwaysAgree(c: Config) {
    forall events :: Timely(c, events) ==> Run(c, events, true).1 == Run(c, events, false).1
  }

  /** Under a clock that never goes back, the limiter answers every run like the one that forgets
      nothing, exactly when every limit is at least one and no key's duration exceeds the expiration by
      more than a second (or the sweep never runs). */
  lemma SweepInvisibleIff(c: Config)
    ensures AlwaysAgree(c) <==> Unobservable(c) && PositiveLimits(c)
  {
    if Unobservable(c) && PositiveLimits(c) {
      forall events | Timely(c, events) ensures Run(c, events, true).1 == Run(c, events, false).1 {
        RunsAgree(c, events);
      }
    } else if !PositiveLimits(c) {
      var key :| c.policy(key).maxRequests < 1;
      ZeroLimitAdmits(c, key, 0);
    } else {
      var key :| c.policy(key).duration > c.ExpirationSeconds() + 1;
      var events := SweptTooEarly(c, key);
    }
  }

  // The window guarantee

  /** When requests for a key were accepted. */
  function AcceptTimes(events: seq<Event>, answers: seq<bool>, key: string): seq<int>
    requires |events| == |answers|
  {
    if events == [] then []
    else
      var i := |events| - 1;
      var ts := AcceptTimes(events[..i], answers[..i], key);
      if events[i].Ask? && events[i].key == key && answers[i] then ts + [events[i].now] else ts
  }

  /** Any acceptance is a full duration after the one a limit's worth before it. */
  ghost predicate Spaced(ts: seq<int>, p: Policy, now: int) {
    && (forall i :: 0 <= i < |ts| ==> ts[i] <= now)
    && (forall i, j :: 0 <= i < j < |ts| ==> ts[i] <= ts[j])
    && (forall i :: GapBefore(ts, i, p))
  }

  predicate GapBefore(ts: seq<int>, i: int, p: Policy) {
    p.maxRequests <= i < |ts| ==> ts[i] - ts[i - p.maxRequests] >= p.duration
  }

  lemma AcceptSpaced(ts: seq<int>, p: Policy, now: int)
    requires Spaced(ts, p, now) && Young(ts, p.duration, now) < p.maxRequests
    ensures Spaced(ts + [now], p, now)
  {
    if |ts| >= p.maxRequests {
      OldEnough(ts, p.duration, now, p.maxRequests);
    }
    SpacedAppend(ts, p, now);
  }

  lemma SpacedAppend(ts: seq<int>, p: Policy, now: int)
    requires Spaced(ts, p, now) && p.maxRequests >= 1
    requires |ts| >= p.maxRequests ==> now - ts[|ts| - p.maxRequests] >= p.duration
    ensures Spaced(ts + [now], p, now)
  {
    forall i ensures GapBefore(ts + [now], i, p) {
      assert GapBefore(ts, i, p);
    }
  }

  /** With fewer young timestamps than `n`, the one `n` places from the end is old. */
  lemma OldEnough(ts: seq<int>, duration: int, now: int, n: nat)
    requires 0 < n <= |ts| && Young(ts, duration, now) < n
    requires forall i, j :: 0 <= i < j < |ts| ==> ts[i] <= ts[j]
    ensures now - ts[|ts| - n] >= duration
  {
    if now - ts[|ts| - n] < duration {
      YoungTail(ts, duration, now, n);
    }
  }

  lemma {:induction false} HistorySpaced(c: Config, events: seq<Event>, key: string)
    requires Timely(c, events)
    ensures events == [] || Spaced(Accepted(Run(c, events, false).0, key), c.policy(key), events[|events| - 1].now)
    decreases |events|
  {
    if events != [] {
      var init, e, p := events[..|events| - 1], events[|events| - 1], c.policy(key);
      HistorySpaced(c, init, key);
      var ts := Accepted(Run(c, init, false).0, key);
      assert Spaced(ts, p, e.now);
      if e.Ask? && e.key == key && Young(ts, p.duration, e.now) < p.maxRequests {
        AcceptSpaced(ts, p, e.now);
      }
    }
  }

  /** The reference history of a key is the accepted requests for it. */
  lemma {:induction false} HistoryIsAccepts(c: Config, events: seq<Event>, key: string)
    ensures |Run(c, events, false).1| == |events|
    ensures Accepted(Run(c, events, false).0, key) == AcceptTimes(events, Run(c, events, false).1, key)
    decreases |events|
  {
    if events != [] {
      var init := events[..|events| - 1];
      HistoryIsAccepts(c, init, key);
      assert Run(c, events, false).1[..|init|] == Run(c, init, false).1;
    }
  }

  /** The accepted requests of a key are spaced by its limit. */
  lemma AcceptsSpaced(c: Config, events: seq<Event>, key: string)
    requires Timely(c, events) && Unobservable(c) && PositiveLimits(c)
    ensures |Run(c, events, true).1| == |events|
    ensures events != [] ==>
              Spaced(AcceptTimes(events, Run(c, events, true).1, key), c.policy(key), events[|events| - 1].now)
  {
    RunsAgree(c, events);
    HistorySpaced(c, events, key);
    HistoryIsAccepts(c, events, key);
  }

  // A limit of zero is treated like a limit of one

  function AtLeastOne(p: Policy): Policy {
    if p.maxRequests == 0 then p.(maxRequests := 1) else p
  }

  function Raised(c: Config): (r: Config)
    ensures forall key :: r.policy(key) == AtLeastOne(c.policy(key))
    ensures r.expiration == c.expiration
  {
    c.(policy := key => AtLeastOne(c.policy(key)))
  }

  ghost predicate NoEmptyQueue(store: Store) {
    forall key :: key in store ==> store[key] != []
  }

  lemma {:induction false} RaisedRun(c: Config, events: seq<Event>)
    ensures Run(c, events, true) == Run(Raised(c), events, true)
    ensures NoEmptyQueue(Run(c, events, true).0)
    decreases |events|
  {
    if events != [] {
      RaisedRun(c, events[..|events| - 1]);
    }
  }

  lemma RaisedSpaced(c: Config, events: seq<Event>, key: string)
    requires Timely(c, events) && Unobservable(c)
    ensures |Run(c, events, true).1| == |events|
    ensures events != [] ==>
              Spaced(AcceptTimes(events, Run(c, events, true).1, key), AtLeastOne(c.policy(key)), events[|events| - 1].now)
  {
    RaisedRun(c, events);
    AcceptsSpaced(Raised(c), events, key);
  }

  /** Acceptances a limit apart are a duration apart. */
  ghost predicate WindowsHold(ts: seq<int>, n: nat, duration: int) {
    forall i, j :: 0 <= i && i + n == j < |ts| ==> ts[j] - ts[i] >= duration
  }

  lemma SpacedWindows(ts: seq<int>, p: Policy, now: int)
    requires Spaced(ts, p, now)
    ensures WindowsHold(ts, p.maxRequests, p.duration)
  {
    forall i, j | 0 <= i && i + p.maxRequests == j < |ts| ensures ts[j] - ts[i] >= p.duration {
      assert GapBefore(ts, j, p);
    }
  }

  /** No window of `duration` seconds holds more acceptances of a key than its limit, or than one where
      the limit is zero. */
  lemma WindowBound(c: Config, events: seq<Event>, key: string)
    requires Timely(c, events) && Unobservable(c)
    ensures |Run(c, events, true).1| == |events|
    ensures var ts, p := AcceptTimes(events, Run(c, events, true).1, key), c.policy(key);
            if p.maxRequests >= 1 then WindowsHold(ts, p.maxRequests, p.duration) else WindowsHold(ts, 1, p.duration)
  {
    RaisedSpaced(c, events, key);
    if events != [] {
      var ts := AcceptTimes(events, Run(c, events, true).1, key);
      SpacedWindows(ts, AtLeastOne(c.policy(key)), events[|events| - 1].now);
    }
  }

  // The limiter object

  class InMemoryRateLimiter {
    var store: Store

    ghost predicate Valid()
      reads this
    {
      forall key :: key in store ==> store[key] != []
    }

    constructor ()
      ensures Valid() && store == map[]
    {
      store := map[];
    }

    method Ask(key: string, maxRequestNum: nat, duration: int, now: int) returns (ok: bool)
      requires Valid()
      modifies this
      ensures Valid()
      ensures (store, ok) == Request(old(store), key, Policy(maxRequestNum, duration), now)
    {
      if key in store {
        var queue := store[key];
        if |queue| < maxRequestNum {
          store := store[key := queue + [now]];
          return true;
        } else if now - queue[0] >= duration {
          queue := queue[1..];
          store := store[key := queue + [now]];
          return true;
        } else {
          return false;
        }
      }
      store := store[key := [now]];
      return true;
    }

    /** One round of the background loop, visiting the keys in any order. */
    method ClearExpiredItems(seconds: int, now: int)
      requires Valid()
      modifies this
      ensures Valid()
      ensures store == Sweep(old(store), seconds, now)
    {
      var keys := store.Keys;
      while keys != {}
        invariant keys <= old(store).Keys
        invariant store ==
                  map key | key in old(store) && (key in keys || !Expired(old(store)[key], seconds, now)) :: old(store)[key]
        decreases keys
      {
        var key :| key in keys;
        keys := keys - {key};
        var queue := store[key];
        var size := |queue|;
        if size == 0 || now - queue[size - 1] > seconds {
          store := store - {key};
        }
      }
    }
  }
}
