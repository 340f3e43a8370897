/** The handlers that change a multi-key channel, as updates of the stored channel. */
module MultiKeyChannel {
  import opened Options
  import opened Text
  import opened MultiKeys

  lemma EmptyOrMember(s: set<int>)
    ensures s == {} || exists i :: i in s
  {
    if forall i :: i !in s {
      assert s == {};
    }
  }

  /** The clean-up loop of Channel.Update, in any order of the map's keys. */
  method DropFrom(status: map<int, int>, n: nat) returns (kept: map<int, int>)
    ensures kept == map i | i in status && i < n :: status[i]
  {
    kept := status;
    var todo := status.Keys;
    while todo != {}
      invariant todo <= status.Keys
      invariant kept == map i | i in status && (i < n || i in todo) :: status[i]
      decreases |todo|
    {
      EmptyOrMember(todo);
      var i :| i in todo;
      if i >= n {
        kept := Without(kept, i);
      }
      todo := todo - {i};
    }
  }

  /** The key search of handlerMultiKeyUpdate. */
  method FindKey(keys: seq<string>, key: string) returns (index: int)
    ensures index == IndexOf(keys, key)
  {
    for i := 0 to |keys|
      invariant forall j :: 0 <= j < i ==> keys[j] != key
    {
      if keys[i] == key {
        return i;
      }
    }
    return -1;
  }

  method HasEnabledKey(n: nat, status: map<int, int>) returns (found: bool)
    ensures found == AnyEnabled(status, n)
  {
    for i := 0 to n
      invariant !AnyEnabled(status, i)
    {
      if i !in status || status[i] == ENABLED {
        assert StatusAt(status, i) == ENABLED;
        return true;
      }
    }
    return false;
  }

  class StoredChannel {
    const json: ArrayParser
    var key: string
    var size: nat
    var status: map<int, int>
    var time: map<int, int>
    var reason: map<int, string>
    var channelStatus: int

    ghost function Value(): Row
      reads this
    {
      Row(key, size, status, time, reason, channelStatus)
    }

    constructor (json: ArrayParser, row: Row)
      ensures this.json == json && Value() == row
    {
      this.json := json;
      key, size, status, time, reason, channelStatus :=
        row.key, row.size, row.status, row.time, row.reason, row.channelStatus;
    }

    /** Channel.Update; `saved` says whether the database accepted the row. */
    method Update(text: string, st: map<int, int>, ti: map<int, int>, re: map<int, string>, saved: bool)
      modifies this
      ensures Value() ==
              if saved then Save(json, old(Value()), Row(text, old(size), st, ti, re, old(channelStatus)))
              else old(Value())
    {
      if !saved {
        return;
      }
      if text != "" {
        key := text;
      }
      size := |CountedKeys(json, key)|;
      status := DropFrom(st, size);
      time, reason := ti, re;
    }

    /** disable_key. */
    method DisableKey(index: Option<int>, saved: bool) returns (ok: bool)
      modifies this
      ensures ok == (saved && Act(json, old(Value()), Action.DisableKey(index)).0)
      ensures Value() == if ok then Act(json, old(Value()), Action.DisableKey(index)).1 else old(Value())
    {
      if index.None? || index.value < 0 || index.value >= size {
        return false;
      }
      Update(key, status[index.value := MANUALLY_DISABLED], time, reason, saved);
      return saved;
    }

    /** enable_key. */
    method EnableKey(index: Option<int>, saved: bool) returns (ok: bool)
      modifies this
      ensures ok == (saved && Act(json, old(Value()), Action.EnableKey(index)).0)
      ensures Value() == if ok then Act(json, old(Value()), Action.EnableKey(index)).1 else old(Value())
    {
      if index.None? || index.value < 0 || index.value >= size {
        return false;
      }
      var i := index.value;
      Update(key, Without(status, i), Without(time, i), Without(reason, i), saved);
      return saved;
    }

    /** enable_all_keys. */
    method EnableAllKeys(saved: bool)
      modifies this
      ensures Value() == if saved then Act(json, old(Value()), EnableAll).1 else old(Value())
    {
      Update(key, map[], map[], map[], saved);
    }

    /** disable_all_keys. */
    method DisableAllKeys(saved: bool) returns (ok: bool)
      modifies this
      ensures ok == (saved && Act(json, old(Value()), DisableAll).0)
      ensures Value() == if ok then Act(json, old(Value()), DisableAll).1 else old(Value())
    {
      var disabledCount := 0;
      var st := status;
      for i := 0 to size
        invariant Value() == old(Value())
        invariant st == DisableFirst(status, i)
        invariant disabledCount > 0 <==> AnyEnabled(status, i)
      {
        DisableFirstAt(status, i, i);
        if i !in st || st[i] == ENABLED {
          st := st[i := MANUALLY_DISABLED];
          disabledCount := disabledCount + 1;
          assert StatusAt(status, i) == ENABLED;
        }
      }
      if disabledCount == 0 {
        return false;
      }
      Update(key, st, time, reason, saved);
      return saved;
    }

    /** The shared loop of delete_key and delete_disabled_keys. */
    method Collect(keys: seq<string>, d: Deletion) returns (rest: Remaining)
      ensures rest == Kept(Value(), keys, d) && |rest.keys| <= |keys|
    {
      rest := Remaining([], map[], map[], map[]);
      for i := 0 to |keys|
        invariant rest == Kept(Value(), keys[..i], d)
      {
        assert keys[..i + 1][..i] == keys[..i];
        var s := if i in status then status[i] else ENABLED;
        var drop := match d case One(k) => i == k case AutoDisabled => s == AUTO_DISABLED;
        if !drop {
          var at := |rest.keys|;
          var st, ti, re := rest.status, rest.time, rest.reason;
          if i in status && status[i] != ENABLED {
            st := st[at := status[i]];
          }
          if i in time && (d.One? || s != ENABLED) {
            ti := ti[at := time[i]];
          }
          if i in reason && (d.One? || s != ENABLED) {
            re := re[at := reason[i]];
          }
          rest := Remaining(rest.keys + [keys[i]], st, ti, re);
        }
      }
      assert keys[..|keys|] == keys;
      KeptIndexes(Value(), keys, d);
    }

    /** Storing what a deletion left. */
    method Replace(rest: Remaining, saved: bool) returns (ok: bool)
      modifies this
      ensures ok == saved
      ensures Value() == if saved then Replaced(json, old(Value()), rest) else old(Value())
    {
      Update(Join(rest.keys, '\n'), rest.status, rest.time, rest.reason, saved);
      return saved;
    }

    /** delete_key. */
    method DeleteKey(index: Option<int>, saved: bool) returns (ok: bool)
      modifies this
      ensures ok == (saved && index.Some? && Delete(json, old(Value()), One(index.value)).0)
      ensures Value() == if ok then Delete(json, old(Value()), One(index.value)).1 else old(Value())
    {
      if index.None? || index.value < 0 || index.value >= size {
        return false;
      }
      var keys := GetKeys(json, key);
      var rest := Collect(keys, One(index.value));
      DeleteIs(json, Value(), One(index.value), keys, rest);
      if rest.keys == [] {
        return false;
      }
      ok := Replace(rest, saved);
    }

    /** delete_disabled_keys, with the number of keys it reports as deleted. */
    method DeleteDisabledKeys(saved: bool) returns (ok: bool, deletedCount: nat)
      modifies this
      ensures ok == (saved && Delete(json, old(Value()), AutoDisabled).0)
      ensures Value() == if ok then Delete(json, old(Value()), AutoDisabled).1 else old(Value())
      ensures deletedCount == |GetKeys(json, old(key))| - |Rest(json, old(Value()), AutoDisabled)|
    {
      var keys := GetKeys(json, key);
      var rest := Collect(keys, AutoDisabled);
      DeleteIs(json, Value(), AutoDisabled, keys, rest);
      deletedCount := |keys| - |rest.keys|;
      if deletedCount == 0 {
        return false, 0;
      }
      ok := Replace(rest, saved);
    }

    method RecordAt(i: int, newStatus: int, why: string, now: int)
      modifies this
      ensures Value() == ReportedAt(old(Value()), i, newStatus, why, now)
    {
      if newStatus == ENABLED {
        status := Without(status, i);
      } else {
        status := status[i := newStatus];
        reason := reason[i := why];
        time := time[i := now];
      }
    }

    method SettleChannelStatus(n: nat, newStatus: int)
      modifies this
      ensures Value() == old(Value()).(channelStatus := ChannelStatusAfter(old(Value()), n, newStatus))
    {
      var some := HasEnabledKey(n, status);
      if !some {
        channelStatus := AUTO_DISABLED;
      } else if newStatus == ENABLED {
        channelStatus := ENABLED;
      }
    }

    /** handlerMultiKeyUpdate. */
    method ReportKey(usingKey: string, newStatus: int, why: string, now: int)
      modifies this
      ensures Value() == Reported(json, old(Value()), usingKey, newStatus, why, now)
    {
      var keys := GetKeys(json, key);
      if keys == [] {
        channelStatus := newStatus;
        return;
      }
      var i := FindKey(keys, usingKey);
      if i < 0 {
        if usingKey == "" {
          channelStatus := newStatus;
        }
        return;
      }
      RecordAt(i, newStatus, why, now);
      SettleChannelStatus(|keys|, newStatus);
    }

    /** UpdateChannelStatus, on the stored channel. */
    method UpdateStatus(usingKey: string, newStatus: int, why: string, now: int, saved: bool) returns (ok: bool)
      modifies this
      ensures ok == (saved && Act(json, old(Value()), Report(usingKey, newStatus, why, now)).0)
      ensures Value() == if ok then Act(json, old(Value()), Report(usingKey, newStatus, why, now)).1 else old(Value())
    {
      if channelStatus == newStatus || !saved {
        return false;
      }
      ReportKey(usingKey, newStatus, why, now);
      return true;
    }
  }
}
