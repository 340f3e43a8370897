/**
 The verification-code store: one map shared by two purposes, with expired entries purged whenever it
 grows past a fixed size. It is compared with a complete log of what was registered and deleted.
 */
module VerificationCodes {
  import opened Options

  datatype Purpose = EmailVerification | PasswordReset

  /** The prefixes "v" and "r". */
  function Prefix(p: Purpose): string {
    match p
    case EmailVerification => "v"
    case PasswordReset => "r"
  }

  function Slot(p: Purpose, key: string): string {
    Prefix(p) + key
  }

  /** The two purposes never share a slot. */
  lemma SlotsDistinct(p: Purpose, key: string, p': Purpose, key': string)
    requires Slot(p, key) == Slot(p', key')
    ensures p == p' && key == key'
  {
    assert Slot(p, key)[0] == Prefix(p)[0] && Slot(p', key')[0] == Prefix(p')[0];
    assert Slot(p, key)[1..] == key && Slot(p', key')[1..] == key';
  }

  /** A verificationValue; times are in nanoseconds. */
  datatype Entry = Entry(code: string, time: int)

  type Store = map<string, Entry>

  const MAX_SIZE := 10
  const NANOS_PER_SECOND := 1_000_000_000

  /** int(now.Sub(t).Seconds()), which truncates toward zero. */
  function WholeSeconds(now: int, t: int): int {
    if now >= t then (now - t) / NANOS_PER_SECOND else -((t - now) / NANOS_PER_SECOND)
  }

  predicate Expired(e: Entry, minutes: int, now: int) {
    WholeSeconds(now, e.time) >= minutes * 60
  }

  lemma ExpiredStays(e: Entry, minutes: int, now: int, later: int)
    requires e.time <= now <= later && Expired(e, minutes, now)
    ensures Expired(e, minutes, later)
  {
  }

  function Purge(m: Store, minutes: int, now: int): Store {
    map k | k in m && !Expired(m[k], minutes, now) :: m[k]
  }

  /** RegisterVerificationCodeWithKey. */
  function Register(m: Store, minutes: int, p: Purpose, key: string, code: string, now: int): Store {
    var m' := m[Slot(p, key) := Entry(code, now)];
    if |m'| > MAX_SIZE then Purge(m', minutes, now) else m'
  }

  /** VerifyCodeWithKey. */
  predicate Verify(m: Store, minutes: int, p: Purpose, key: string, code: string, now: int) {
    var k := Slot(p, key);
    k in m && !Expired(m[k], minutes, now) && code == m[k].code
  }

  /** DeleteKey. */
  function Delete(m: Store, p: Purpose, key: string): Store {
    m - {Slot(p, key)}
  }

  // Runs

  datatype Event =
    | Registered(purpose: Purpose, key: string, code: string, now: int)
    | Deleted(purpose: Purpose, key: string, now: int)

  ghost predicate Timely(events: seq<Event>) {
    forall i, j :: 0 <= i < j < |events| ==> events[i].now <= events[j].now
  }

  function Run(events: seq<Event>, minutes: int): Store {
    if events == [] then map[]
    else
      var m := Run(events[..|events| - 1], minutes);
      match events[|events| - 1]
      case Registered(p, key, code, now) => Register(m, minutes, p, key, code, now)
      case Deleted(p, key, _) => Delete(m, p, key)
  }

  /** The latest registration for a purpose and key that was not deleted since. */
  function Latest(events: seq<Event>, p: Purpose, key: string): Option<Entry> {
    if events == [] then None
    else
      var e := events[|events| - 1];
      if e.purpose != p || e.key != key then Latest(events[..|events| - 1], p, key)
      else if e.Registered? then Some(Entry(e.code, e.now))
      else None
  }

  lemma {:induction false} LatestIsPast(events: seq<Event>, p: Purpose, key: string)
    requires Timely(events) && Latest(events, p, key).Some?
    ensures events != [] && Latest(events, p, key).value.time <= events[|events| - 1].now
    decreases |events|
  {
    var e := events[|events| - 1];
    if e.purpose != p || e.key != key {
      LatestIsPast(events[..|events| - 1], p, key);
    }
  }

  /** A slot holds the latest registration; a slot without an entry has none, or an expired one. */
  ghost predicate Holds(m: Store, latest: Option<Entry>, k: string, minutes: int, now: int) {
    if k in m then latest == Some(m[k]) else latest.None? || Expired(latest.value, minutes, now)
  }

  lemma {:induction false} RunHolds(events: seq<Event>, minutes: int, p: Purpose, key: string, now: int)
    requires Timely(events) && (events == [] || events[|events| - 1].now <= now)
    ensures Holds(Run(events, minutes), Latest(events, p, key), Slot(p, key), minutes, now)
    decreases |events|
  {
    if events != [] {
      var init, e, k := events[..|events| - 1], events[|events| - 1], Slot(p, key);
      RunHolds(init, minutes, p, key, e.now);
      if e.purpose != p || e.key != key {
        if Slot(e.purpose, e.key) == k {
          SlotsDistinct(e.purpose, e.key, p, key);
        }
      }
      StepHolds(Run(init, minutes), e, minutes, k, Latest(init, p, key), Latest(events, p, key));
      if Latest(events, p, key).Some? {
        LatestIsPast(events, p, key);
        if k !in Run(events, minutes) {
          ExpiredStays(Latest(events, p, key).value, minutes, e.now, now);
        }
      }
    }
  }

  lemma StepHolds(m: Store, e: Event, minutes: int, k: string, before: Option<Entry>, after: Option<Entry>)
    requires Holds(m, before, k, minutes, e.now)
    requires if Slot(e.purpose, e.key) != k then after == before
             else if e.Registered? then after == Some(Entry(e.code, e.now)) else after.None?
    ensures var m' := if e.Registered? then Register(m, minutes, e.purpose, e.key, e.code, e.now)
                      else Delete(m, e.purpose, e.key);
            Holds(m', after, k, minutes, e.now)
  {
  }

  /** A code verifies exactly when the latest undeleted registration for that key and purpose is young
      enough and has the same code, whatever else the store held and purged. */
  lemma VerifyIsLatest(events: seq<Event>, minutes: int, p: Purpose, key: string, code: string, now: int)
    requires Timely(events) && (events == [] || events[|events| - 1].now <= now)
    ensures Verify(Run(events, minutes), minutes, p, key, code, now) <==>
            var latest := Latest(events, p, key);
            latest.Some? && now - latest.value.time < minutes * 60 * NANOS_PER_SECOND && latest.value.code == code
  {
    RunHolds(events, minutes, p, key, now);
    if Latest(events, p, key).Some? {
      LatestIsPast(events, p, key);
      var d := now - Latest(events, p, key).value.time;
      assert d / NANOS_PER_SECOND >= minutes * 60 <==> d >= minutes * 60 * NANOS_PER_SECOND;
    }
  }

  // The store object

  class CodeStore {
    var entries: Store
    const minutes: int

    constructor (minutes: int)
      ensures entries == map[] && this.minutes == minutes
    {
      entries := map[];
      this.minutes := minutes;
    }

    method RegisterCode(p: Purpose, key: string, code: string, now: int)
      modifies this
      ensures entries == Register(old(entries), minutes, p, key, code, now)
    {
      entries := entries[Slot(p, key) := Entry(code, now)];
      if |entries| > MAX_SIZE {
        RemoveExpiredPairs(now);
      }
    }

    method VerifyCode(p: Purpose, key: string, code: string, now: int) returns (ok: bool)
      ensures ok == Verify(entries, minutes, p, key, code, now)
    {
      var k := Slot(p, key);
      if k !in entries || WholeSeconds(now, entries[k].time) >= minutes * 60 {
        return false;
      }
      return code == entries[k].code;
    }

    method DeleteKey(p: Purpose, key: string)
      modifies this
      ensures entries == Delete(old(entries), p, key)
    {
      entries := entries - {Slot(p, key)};
    }

    method RemoveExpiredPairs(now: int)
      modifies this
      ensures entries == Purge(old(entries), minutes, now)
    {
      var keys := entries.Keys;
      while keys != {}
        invariant keys <= old(entries).Keys
        invariant entries ==
                  map k | k in old(entries) && (k in keys || !Expired(old(entries)[k], minutes, now)) :: old(entries)[k]
        decreases keys
      {
        var k :| k in keys;
        keys := keys - {k};
        if WholeSeconds(now, entries[k].time) >= minutes * 60 {
          entries := entries - {k};
        }
      }
    }
  }
}
