/**
 The keys of a multi-key channel: one text column holding all keys, and three maps from key position to
 status, disable time and disable reason. Deleting keys rebuilds the text and re-indexes the maps.
 */
module MultiKeys {
  import opened Options
  import opened Text

  const ENABLED := 1
  const MANUALLY_DISABLED := 2
  const AUTO_DISABLED := 3

  /** json.Unmarshal into an array of raw elements, or None for text that is not an array. */
  type ArrayParser = string -> Option<seq<string>>

  /** An array's text holds its elements, a comma between any two of them, and both brackets. */
  ghost predicate ArrayText(json: ArrayParser) {
    forall s :: json(s).Some? ==> |Join(json(s).value, '\n')| + 2 <= |s|
  }

  function ParsedArray(json: ArrayParser, text: string): Option<seq<string>> {
    var trimmed := TrimSpace(text);
    if trimmed != "" && trimmed[0] == '[' then json(trimmed) else None
  }

  function Lines(text: string): seq<string> {
    Split(TrimSep(text, '\n'), '\n')
  }

  /** Channel.GetKeys. */
  function GetKeys(json: ArrayParser, text: string): seq<string> {
    if text == "" then []
    else if ParsedArray(json, text).Some? then ParsedArray(json, text).value
    else Lines(text)
  }

  /** The key list Channel.Update counts: an empty array is counted as one line. */
  function CountedKeys(json: ArrayParser, text: string): seq<string> {
    if text == "" then []
    else if ParsedArray(json, text).Some? && ParsedArray(json, text).value != [] then ParsedArray(json, text).value
    else Lines(text)
  }

  // Which key lists survive being stored as text

  predicate OneLineEach(keys: seq<string>) {
    forall x :: x in keys ==> '\n' !in x
  }

  /** The list can be read back from its joined text: no key spans lines, the outer keys are not blank,
      and the text is not itself an array. */
  predicate Storable(json: ArrayParser, keys: seq<string>) {
    keys == [] ||
    (OneLineEach(keys) && keys[0] != "" && keys[|keys| - 1] != "" && ParsedArray(json, Join(keys, '\n')).None?)
  }

  lemma SplitStarts(s: string, sep: char)
    requires s != "" && s[0] != sep
    ensures Split(s, sep)[0] != ""
  {
  }

  lemma SplitNext(s: string, sep: char)
    requires |s| > 1
    ensures var rest := Split(s[1..], sep);
            Split(s, sep)[|Split(s, sep)| - 1] == rest[|rest| - 1] ||
            Split(s, sep)[|Split(s, sep)| - 1] == [s[0]] + rest[|rest| - 1]
  {
  }

  lemma {:induction false} SplitEnds(s: string, sep: char)
    requires s != "" && s[|s| - 1] != sep
    ensures Split(s, sep)[|Split(s, sep)| - 1] != ""
  {
    if |s| == 1 {
      SplitStarts(s, sep);
      assert s[1..] == "";
    } else {
      SplitEnds(s[1..], sep);
      SplitNext(s, sep);
    }
  }

  lemma JoinedReadBack(json: ArrayParser, keys: seq<string>)
    requires Storable(json, keys)
    ensures GetKeys(json, Join(keys, '\n')) == keys
    ensures CountedKeys(json, Join(keys, '\n')) == keys
    ensures keys != [] ==> Join(keys, '\n') != ""
  {
    if keys != [] {
      JoinEnds(keys, '\n');
      assert keys[0] in keys && keys[|keys| - 1] in keys;
      SplitJoin(keys, '\n');
    }
  }

  lemma UnstorableLines(keys: seq<string>, text: string)
    requires text == Join(keys, '\n') && text != ""
    requires Lines(text) == keys
    ensures OneLineEach(keys) && keys[0] != "" && keys[|keys| - 1] != ""
  {
    var trimmed := TrimSep(text, '\n');
    assert trimmed == "" ==> text == Join([""], '\n');
    SplitStarts(trimmed, '\n');
    SplitEnds(trimmed, '\n');
  }

  lemma TrimSpaceShortens(s: string)
    ensures |TrimSpace(s)| <= |s|
  {
  }

  /** A key list is read back from its joined text exactly when it is storable. */
  lemma StorableIff(json: ArrayParser, keys: seq<string>)
    requires ArrayText(json)
    ensures GetKeys(json, Join(keys, '\n')) == keys <==> Storable(json, keys)
  {
    var text := Join(keys, '\n');
    if Storable(json, keys) {
      JoinedReadBack(json, keys);
    } else if GetKeys(json, text) == keys {
      if ParsedArray(json, text).Some? {
        TrimSpaceShortens(text);
        assert false;
      }
      UnstorableLines(keys, text);
      assert false;
    }
  }

  // The stored channel

  datatype Row = Row(key: string, size: nat, status: map<int, int>, time: map<int, int>, reason: map<int, string>,
                     channelStatus: int)

  datatype Entry = Entry(key: string, status: int, time: Option<int>, reason: Option<string>)

  function Find<T>(m: map<int, T>, i: int): Option<T> {
    if i in m then Some(m[i]) else None
  }

  function Without<T>(m: map<int, T>, i: int): map<int, T> {
    map k | k in m && k != i :: m[k]
  }

  function StatusAt(status: map<int, int>, i: int): int {
    if i in status then status[i] else ENABLED
  }

  function EntryAt(key: string, status: map<int, int>, time: map<int, int>, reason: map<int, string>, i: int): Entry {
    Entry(key, StatusAt(status, i), Find(time, i), Find(reason, i))
  }

  function View(keys: seq<string>, status: map<int, int>, time: map<int, int>, reason: map<int, string>): seq<Entry> {
    seq(|keys|, i requires 0 <= i < |keys| => EntryAt(keys[i], status, time, reason, i))
  }

  /** What the channel says about each of its keys, in order. */
  function Entries(json: ArrayParser, row: Row): seq<Entry> {
    View(GetKeys(json, row.key), row.status, row.time, row.reason)
  }

  // Deleting keys

  datatype Deletion = One(index: int) | AutoDisabled

  predicate Dropped(status: map<int, int>, d: Deletion, i: int) {
    match d
    case One(k) => i == k
    case AutoDisabled => StatusAt(status, i) == AUTO_DISABLED
  }

  datatype Remaining = Remaining(keys: seq<string>, status: map<int, int>, time: map<int, int>,
                                 reason: map<int, string>)

  function CopyAt<T>(into: map<int, T>, at: int, from: map<int, T>, i: int, wanted: bool): map<int, T> {
    if wanted && i in from then into[at := from[i]] else into
  }

  /** One iteration of either deletion loop. */
  function KeepOne(r: Remaining, row: Row, key: string, d: Deletion, i: int): Remaining {
    if Dropped(row.status, d, i) then r
    else
      var at := |r.keys|;
      var disabled := StatusAt(row.status, i) != ENABLED;
      Remaining(r.keys + [key],
                CopyAt(r.status, at, row.status, i, disabled),
                CopyAt(r.time, at, row.time, i, d.One? || disabled),
                CopyAt(r.reason, at, row.reason, i, d.One? || disabled))
  }

  function Kept(row: Row, keys: seq<string>, d: Deletion): Remaining {
    if keys == [] then Remaining([], map[], map[], map[])
    else
      var n := |keys| - 1;
      KeepOne(Kept(row, keys[..n], d), row, keys[n], d, n)
  }

  /** Channel.Update: an empty key text leaves the stored one, and statuses past the end are dropped. */
  function Save(json: ArrayParser, stored: Row, r: Row): Row {
    var text := if r.key != "" then r.key else stored.key;
    var n := |CountedKeys(json, text)|;
    r.(key := text, size := n, status := map i | i in r.status && i < n :: r.status[i])
  }

  /** A saved channel counts the keys it lists, exactly when its text is not an empty array. */
  lemma SavedSizeIff(json: ArrayParser, stored: Row, r: Row)
    ensures var saved := Save(json, stored, r);
            saved.size == |GetKeys(json, saved.key)| <==> ParsedArray(json, saved.key) != Some([])
    ensures forall i :: i in Save(json, stored, r).status ==> i < Save(json, stored, r).size
  {
    var text := Save(json, stored, r).key;
    assert |Lines(text)| >= 1;
    assert TrimSpace("") == "";
  }

  predicate Refused(row: Row, keys: seq<string>, d: Deletion, rest: Remaining) {
    match d
    case One(k) => k < 0 || k >= row.size || rest.keys == []
    case AutoDisabled => |rest.keys| == |keys|
  }

  function Replaced(json: ArrayParser, row: Row, rest: Remaining): Row {
    Save(json, row, row.(key := Join(rest.keys, '\n'), size := |rest.keys|,
                         status := rest.status, time := rest.time, reason := rest.reason))
  }

  function Delete(json: ArrayParser, row: Row, d: Deletion): (bool, Row) {
    var keys := GetKeys(json, row.key);
    var rest := Kept(row, keys, d);
    if Refused(row, keys, d, rest) then (false, row)
    else (true, Replaced(json, row, rest))
  }

  /** A deletion, once the keys it leaves are known. */
  lemma DeleteIs(json: ArrayParser, row: Row, d: Deletion, keys: seq<string>, rest: Remaining)
    requires keys == GetKeys(json, row.key) && rest == Kept(row, keys, d)
    ensures Delete(json, row, d) == if Refused(row, keys, d, rest) then (false, row) else (true, Replaced(json, row, rest))
    ensures Rest(json, row, d) == rest.keys
  {
  }

  /** The keys a deletion means to leave. */
  function Rest(json: ArrayParser, row: Row, d: Deletion): seq<string> {
    Kept(row, GetKeys(json, row.key), d).keys
  }

  // The intended effect, on the list of entries

  function Survives(es: seq<Entry>, d: Deletion, i: int): bool
    requires 0 <= i < |es|
  {
    match d
    case One(k) => i != k
    case AutoDisabled => es[i].status != AUTO_DISABLED
  }

  /** Bulk deletion forgets the leftovers of enabled keys; deleting one key copies every entry. */
  function Carried(e: Entry, d: Deletion): Entry {
    if d.AutoDisabled? && e.status == ENABLED then Entry(e.key, ENABLED, None, None) else e
  }

  function Survivors(es: seq<Entry>, d: Deletion): seq<Entry> {
    if es == [] then []
    else
      var n := |es| - 1;
      var before := Survivors(es[..n], d);
      if Survives(es, d, n) then before + [Carried(es[n], d)] else before
  }

  lemma SurvivorsLast(es: seq<Entry>, d: Deletion, before: seq<Entry>)
    requires es != [] && before == Survivors(es[..|es| - 1], d)
    ensures Survivors(es, d) ==
            if Survives(es, d, |es| - 1) then before + [Carried(es[|es| - 1], d)] else before
  {
  }

  predicate IndexesBelow(r: Remaining) {
    && (forall i :: i in r.status ==> 0 <= i < |r.keys|)
    && (forall i :: i in r.time ==> 0 <= i < |r.keys|)
    && (forall i :: i in r.reason ==> 0 <= i < |r.keys|)
  }

  lemma {:induction false} KeptIndexes(row: Row, keys: seq<string>, d: Deletion)
    ensures IndexesBelow(Kept(row, keys, d)) && |Kept(row, keys, d).keys| <= |keys|
    decreases |keys|
  {
    if keys != [] {
      KeptIndexes(row, keys[..|keys| - 1], d);
    }
  }

  function RemainingView(r: Remaining): seq<Entry> {
    View(r.keys, r.status, r.time, r.reason)
  }

  lemma KeepOneView(r: Remaining, row: Row, key: string, d: Deletion, i: int)
    requires IndexesBelow(r)
    ensures RemainingView(KeepOne(r, row, key, d, i)) ==
            if Dropped(row.status, d, i) then RemainingView(r)
            else RemainingView(r) + [Carried(EntryAt(key, row.status, row.time, row.reason, i), d)]
  {
  }

  lemma KeptViewNext(row: Row, keys: seq<string>, d: Deletion, prev: Remaining, e: Entry)
    requires keys != [] && prev == Kept(row, keys[..|keys| - 1], d) && IndexesBelow(prev)
    requires e == EntryAt(keys[|keys| - 1], row.status, row.time, row.reason, |keys| - 1)
    ensures RemainingView(Kept(row, keys, d)) ==
            if Dropped(row.status, d, |keys| - 1) then RemainingView(prev) else RemainingView(prev) + [Carried(e, d)]
  {
    KeepOneView(prev, row, keys[|keys| - 1], d, |keys| - 1);
  }

  lemma SurvivesIff(es: seq<Entry>, row: Row, d: Deletion, i: nat)
    requires i < |es| && es[i].status == StatusAt(row.status, i)
    ensures Survives(es, d, i) <==> !Dropped(row.status, d, i)
  {
  }

  /** Re-indexing leaves exactly the surviving entries, in their order, each with its own metadata. */
  lemma {:induction false} KeptView(row: Row, keys: seq<string>, d: Deletion)
    ensures RemainingView(Kept(row, keys, d)) == Survivors(View(keys, row.status, row.time, row.reason), d)
    decreases |keys|
  {
    if keys != [] {
      var n := |keys| - 1;
      var es := View(keys, row.status, row.time, row.reason);
      KeptView(row, keys[..n], d);
      KeptIndexes(row, keys[..n], d);
      assert es[..n] == View(keys[..n], row.status, row.time, row.reason);
      KeptViewNext(row, keys, d, Kept(row, keys[..n], d), es[n]);
      SurvivorsLast(es, d, Survivors(es[..n], d));
      SurvivesIff(es, row, d, n);
    }
  }

  lemma {:induction false} KeptFewer(row: Row, keys: seq<string>, d: Deletion, k: nat)
    requires k < |keys| && Dropped(row.status, d, k)
    ensures |Kept(row, keys, d).keys| < |keys|
    decreases |keys|
  {
    var n := |keys| - 1;
    KeptIndexes(row, keys[..n], d);
    if k < n {
      KeptFewer(row, keys[..n], d, k);
    }
  }

  // All operations

  datatype Action =
    | DisableKey(index: Option<int>)
    | EnableKey(index: Option<int>)
    | EnableAll
    | DisableAll
    | DeleteKey(index: Option<int>)
    | DeleteDisabled
    | Report(usingKey: string, newStatus: int, why: string, now: int)

  predicate Within(index: Option<int>, n: nat) {
    index.Some? && 0 <= index.value < n
  }

  /** The loop of disable_all_keys. */
  function DisableFirst(status: map<int, int>, n: nat): map<int, int> {
    if n == 0 then status
    else
      var done := DisableFirst(status, n - 1);
      if StatusAt(done, n - 1) == ENABLED then done[n - 1 := MANUALLY_DISABLED] else done
  }

  /** hasEnabledMultiKey. */
  predicate AnyEnabled(status: map<int, int>, n: nat) {
    exists i :: 0 <= i < n && StatusAt(status, i) == ENABLED
  }

  function IndexOf(keys: seq<string>, key: string): (r: int)
    ensures -1 <= r < |keys|
    ensures r == -1 <==> key !in keys
    ensures r >= 0 ==> keys[r] == key && forall j :: 0 <= j < r ==> keys[j] != key
  {
    if keys == [] then -1
    else if keys[0] == key then 0
    else
      var r := IndexOf(keys[1..], key);
      if r < 0 then -1 else r + 1
  }

  /** Recording a report about the key at position `i`. */
  function ReportedAt(row: Row, i: int, newStatus: int, why: string, now: int): Row {
    if newStatus == ENABLED then row.(status := Without(row.status, i))
    else row.(status := row.status[i := newStatus], time := row.time[i := now], reason := row.reason[i := why])
  }

  function ChannelStatusAfter(row: Row, n: nat, newStatus: int): int {
    if !AnyEnabled(row.status, n) then AUTO_DISABLED
    else if newStatus == ENABLED then ENABLED
    else row.channelStatus
  }

  /** handlerMultiKeyUpdate. */
  function Reported(json: ArrayParser, row: Row, usingKey: string, newStatus: int, why: string, now: int): Row {
    var keys := GetKeys(json, row.key);
    var i := IndexOf(keys, usingKey);
    if keys == [] || (i < 0 && usingKey == "") then row.(channelStatus := newStatus)
    else if i < 0 then row
    else
      var r := ReportedAt(row, i, newStatus, why, now);
      r.(channelStatus := ChannelStatusAfter(r, |keys|, newStatus))
  }

  /** Whether the action is carried out, and the channel it leaves. */
  function Act(json: ArrayParser, row: Row, a: Action): (bool, Row) {
    match a
    case DisableKey(index) =>
      if !Within(index, row.size) then (false, row)
      else (true, Save(json, row, row.(status := row.status[index.value := MANUALLY_DISABLED])))
    case EnableKey(index) =>
      if !Within(index, row.size) then (false, row)
      else
        var i := index.value;
        (true, Save(json, row, row.(status := Without(row.status, i), time := Without(row.time, i),
                                    reason := Without(row.reason, i))))
    case EnableAll => (true, Save(json, row, row.(status := map[], time := map[], reason := map[])))
    case DisableAll =>
      if !AnyEnabled(row.status, row.size) then (false, row)
      else (true, Save(json, row, row.(status := DisableFirst(row.status, row.size))))
    case DeleteKey(index) => if index.None? then (false, row) else Delete(json, row, One(index.value))
    case DeleteDisabled => Delete(json, row, AutoDisabled)
    case Report(usingKey, newStatus, why, now) =>
      // UpdateChannelStatus returns early when the channel already has that status
      if row.channelStatus == newStatus then (false, row)
      else (true, Reported(json, row, usingKey, newStatus, why, now))
  }

  /** The intended effect of an action on the list of entries. */
  function Ideal(es: seq<Entry>, a: Action): seq<Entry> {
    match a
    case DisableKey(index) =>
      if Within(index, |es|) then es[index.value := es[index.value].(status := MANUALLY_DISABLED)] else es
    case EnableKey(index) =>
      if Within(index, |es|) then es[index.value := Entry(es[index.value].key, ENABLED, None, None)] else es
    case EnableAll => seq(|es|, i requires 0 <= i < |es| => Entry(es[i].key, ENABLED, None, None))
    case DisableAll =>
      seq(|es|, i requires 0 <= i < |es| =>
        if es[i].status == ENABLED then es[i].(status := MANUALLY_DISABLED) else es[i])
    case DeleteKey(index) => if Within(index, |es|) && |es| > 1 then Survivors(es, One(index.value)) else es
    case DeleteDisabled =>
      if exists i :: 0 <= i < |es| && es[i].status == AUTO_DISABLED then Survivors(es, AutoDisabled) else es
    case Report(usingKey, newStatus, why, now) =>
      var i := FirstWithKey(es, usingKey);
      if i == |es| then es
      else if newStatus == ENABLED then es[i := es[i].(status := ENABLED)]
      else es[i := Entry(usingKey, newStatus, Some(now), Some(why))]
  }

  /** What the channel shows: its keys and its own status. */
  datatype Board = Board(entries: seq<Entry>, channelStatus: int)

  function BoardOf(json: ArrayParser, row: Row): Board {
    Board(Entries(json, row), row.channelStatus)
  }

  predicate SomeEnabled(es: seq<Entry>) {
    exists i :: 0 <= i < |es| && es[i].status == ENABLED
  }

  /** The channel status a report leaves: that of its keys, unless the report names no key. */
  function StatusAfter(b: Board, a: Action): int
    requires a.Report?
  {
    var known := FirstWithKey(b.entries, a.usingKey) < |b.entries|;
    if b.entries == [] || (!known && a.usingKey == "") then a.newStatus
    else if !known then b.channelStatus
    else if !SomeEnabled(Ideal(b.entries, a)) then AUTO_DISABLED
    else if a.newStatus == ENABLED then ENABLED
    else b.channelStatus
  }

  /** The intended effect of an action; a report of the status the channel already has is ignored. */
  function IdealBoard(b: Board, a: Action): Board {
    if !a.Report? then b.(entries := Ideal(b.entries, a))
    else if b.channelStatus == a.newStatus then b
    else Board(Ideal(b.entries, a), StatusAfter(b, a))
  }

  function FirstWithKey(es: seq<Entry>, key: string): (i: nat)
    ensures i <= |es|
    ensures i < |es| ==> es[i].key == key
    ensures forall j :: 0 <= j < i ==> es[j].key != key
  {
    if es == [] || es[0].key == key then 0 else 1 + FirstWithKey(es[1..], key)
  }

  /** The size column counts the keys, and every recorded position is one of theirs. */
  predicate Consistent(json: ArrayParser, row: Row) {
    && row.size == |GetKeys(json, row.key)| == |CountedKeys(json, row.key)|
    && (forall i :: i in row.status ==> 0 <= i < row.size)
    && (forall i :: i in row.time ==> 0 <= i < row.size)
    && (forall i :: i in row.reason ==> 0 <= i < row.size)
  }

  /** What a caller can check before deleting: some key is left, and the keys left can be stored. */
  predicate SafeDeletion(json: ArrayParser, row: Row, d: Deletion) {
    Rest(json, row, d) != [] && Storable(json, Rest(json, row, d))
  }

  predicate Safe(json: ArrayParser, row: Row, a: Action) {
    match a
    case DeleteKey(index) =>
      index.Some? && Delete(json, row, One(index.value)).0 ==> SafeDeletion(json, row, One(index.value))
    case DeleteDisabled => Delete(json, row, AutoDisabled).0 ==> SafeDeletion(json, row, AutoDisabled)
    case _ => true
  }

  lemma SaveSameKeys(json: ArrayParser, row: Row, r: Row)
    requires Consistent(json, row) && r.key == row.key
    requires forall i :: i in r.status ==> 0 <= i < row.size
    requires forall i :: i in r.time ==> 0 <= i < row.size
    requires forall i :: i in r.reason ==> 0 <= i < row.size
    ensures Save(json, row, r) == r.(size := row.size)
    ensures Consistent(json, Save(json, row, r))
    ensures Entries(json, Save(json, row, r)) == View(GetKeys(json, row.key), r.status, r.time, r.reason)
  {
    assert Save(json, row, r).status == r.status;
  }

  lemma {:induction false} DisableFirstAt(status: map<int, int>, n: nat, i: int)
    ensures StatusAt(DisableFirst(status, n), i) ==
            if 0 <= i < n && StatusAt(status, i) == ENABLED then MANUALLY_DISABLED else StatusAt(status, i)
    ensures i in DisableFirst(status, n) ==> i in status || 0 <= i < n
  {
    if n > 0 {
      DisableFirstAt(status, n - 1, i);
    }
  }

  lemma DisableFirstView(keys: seq<string>, row: Row)
    ensures View(keys, DisableFirst(row.status, |keys|), row.time, row.reason) ==
            Ideal(View(keys, row.status, row.time, row.reason), DisableAll)
  {
    forall i | 0 <= i < |keys| ensures StatusAt(DisableFirst(row.status, |keys|), i) ==
                     if StatusAt(row.status, i) == ENABLED then MANUALLY_DISABLED else StatusAt(row.status, i)
    {
      DisableFirstAt(row.status, |keys|, i);
    }
  }

  lemma DisableFirstRange(status: map<int, int>, n: nat)
    requires forall i :: i in status ==> 0 <= i < n
    ensures forall i :: i in DisableFirst(status, n) ==> 0 <= i < n
  {
    forall i | i in DisableFirst(status, n) ensures 0 <= i < n {
      DisableFirstAt(status, n, i);
    }
  }

  lemma NoneEnabled(keys: seq<string>, row: Row)
    requires !AnyEnabled(row.status, |keys|)
    ensures Ideal(View(keys, row.status, row.time, row.reason), DisableAll) == View(keys, row.status, row.time, row.reason)
  {
  }

  lemma DisableAllRefines(json: ArrayParser, row: Row)
    requires Consistent(json, row)
    ensures Consistent(json, Act(json, row, DisableAll).1)
    ensures Entries(json, Act(json, row, DisableAll).1) == Ideal(Entries(json, row), DisableAll)
  {
    var keys := GetKeys(json, row.key);
    if AnyEnabled(row.status, row.size) {
      DisableFirstRange(row.status, row.size);
      DisableFirstView(keys, row);
      SaveSameKeys(json, row, row.(status := DisableFirst(row.status, row.size)));
    } else {
      NoneEnabled(keys, row);
    }
  }

  /** Changing the records of one position changes one entry. */
  lemma ViewUpdate(keys: seq<string>, row: Row, r: Row, i: nat)
    requires i < |keys|
    requires forall k :: k != i ==> StatusAt(r.status, k) == StatusAt(row.status, k)
    requires forall k :: k != i ==> Find(r.time, k) == Find(row.time, k)
    requires forall k :: k != i ==> Find(r.reason, k) == Find(row.reason, k)
    ensures View(keys, r.status, r.time, r.reason) ==
            View(keys, row.status, row.time, row.reason)[i := EntryAt(keys[i], r.status, r.time, r.reason, i)]
  {
  }

  lemma DisableKeyRefines(json: ArrayParser, row: Row, index: Option<int>)
    requires Consistent(json, row)
    ensures Consistent(json, Act(json, row, DisableKey(index)).1)
    ensures Entries(json, Act(json, row, DisableKey(index)).1) == Ideal(Entries(json, row), DisableKey(index))
  {
    if Within(index, row.size) {
      var r := row.(status := row.status[index.value := MANUALLY_DISABLED]);
      SaveSameKeys(json, row, r);
      ViewUpdate(GetKeys(json, row.key), row, r, index.value);
    }
  }

  lemma EnabledView(keys: seq<string>, row: Row, i: nat)
    requires i < |keys|
    ensures var es := View(keys, row.status, row.time, row.reason);
            View(keys, Without(row.status, i), Without(row.time, i), Without(row.reason, i)) ==
            es[i := Entry(es[i].key, ENABLED, None, None)]
  {
    ViewUpdate(keys, row,
               row.(status := Without(row.status, i), time := Without(row.time, i), reason := Without(row.reason, i)), i);
  }

  lemma EnableKeyRefines(json: ArrayParser, row: Row, index: Option<int>)
    requires Consistent(json, row)
    ensures Consistent(json, Act(json, row, EnableKey(index)).1)
    ensures Entries(json, Act(json, row, EnableKey(index)).1) == Ideal(Entries(json, row), EnableKey(index))
  {
    if Within(index, row.size) {
      var i := index.value;
      var r := row.(status := Without(row.status, i), time := Without(row.time, i), reason := Without(row.reason, i));
      SaveSameKeys(json, row, r);
      EnabledView(GetKeys(json, row.key), row, i);
    }
  }

  lemma EnableAllRefines(json: ArrayParser, row: Row)
    requires Consistent(json, row)
    ensures Consistent(json, Act(json, row, EnableAll).1)
    ensures Entries(json, Act(json, row, EnableAll).1) == Ideal(Entries(json, row), EnableAll)
  {
    SaveSameKeys(json, row, row.(status := map[], time := map[], reason := map[]));
  }

  lemma FirstIsIndexOf(keys: seq<string>, es: seq<Entry>, key: string)
    requires |es| == |keys| && forall j :: 0 <= j < |es| ==> es[j].key == keys[j]
    ensures FirstWithKey(es, key) == if IndexOf(keys, key) < 0 then |keys| else IndexOf(keys, key)
  {
    var i, k := FirstWithKey(es, key), IndexOf(keys, key);
    assert i < |es| ==> es[i].key == keys[i];
    assert 0 <= k ==> es[k].key == keys[k];
  }

  lemma ReportedAtView(keys: seq<string>, row: Row, i: nat, newStatus: int, why: string, now: int)
    requires i < |keys|
    ensures var r, es := ReportedAt(row, i, newStatus, why, now), View(keys, row.status, row.time, row.reason);
            View(keys, r.status, r.time, r.reason) ==
            if newStatus == ENABLED then es[i := es[i].(status := ENABLED)]
            else es[i := Entry(keys[i], newStatus, Some(now), Some(why))]
  {
    ViewUpdate(keys, row, ReportedAt(row, i, newStatus, why, now), i);
  }

  lemma ReportedView(keys: seq<string>, row: Row, a: Action)
    requires a.Report? && IndexOf(keys, a.usingKey) >= 0
    ensures var r := ReportedAt(row, IndexOf(keys, a.usingKey), a.newStatus, a.why, a.now);
            View(keys, r.status, r.time, r.reason) == Ideal(View(keys, row.status, row.time, row.reason), a)
  {
    var es := View(keys, row.status, row.time, row.reason);
    FirstIsIndexOf(keys, es, a.usingKey);
    ReportedAtView(keys, row, IndexOf(keys, a.usingKey), a.newStatus, a.why, a.now);
  }

  lemma ReportedInRange(row: Row, n: nat, i: nat, newStatus: int, why: string, now: int)
    requires i < n
    requires forall k :: k in row.status ==> 0 <= k < n
    requires forall k :: k in row.time ==> 0 <= k < n
    requires forall k :: k in row.reason ==> 0 <= k < n
    ensures var r := ReportedAt(row, i, newStatus, why, now);
            && r.key == row.key && r.size == row.size
            && (forall k :: k in r.status ==> 0 <= k < n)
            && (forall k :: k in r.time ==> 0 <= k < n)
            && (forall k :: k in r.reason ==> 0 <= k < n)
  {
  }

  lemma UnknownReport(keys: seq<string>, row: Row, a: Action)
    requires a.Report? && IndexOf(keys, a.usingKey) < 0
    ensures Ideal(View(keys, row.status, row.time, row.reason), a) == View(keys, row.status, row.time, row.reason)
  {
    FirstIsIndexOf(keys, View(keys, row.status, row.time, row.reason), a.usingKey);
  }

  lemma ReportKeepsConsistent(json: ArrayParser, row: Row, usingKey: string, newStatus: int, why: string, now: int)
    requires Consistent(json, row)
    ensures Consistent(json, Reported(json, row, usingKey, newStatus, why, now))
    ensures Reported(json, row, usingKey, newStatus, why, now).key == row.key
  {
    var i := IndexOf(GetKeys(json, row.key), usingKey);
    if i >= 0 {
      ReportedInRange(row, row.size, i, newStatus, why, now);
    }
  }

  lemma ReportRefines(json: ArrayParser, row: Row, a: Action)
    requires Consistent(json, row) && a.Report?
    ensures Entries(json, Reported(json, row, a.usingKey, a.newStatus, a.why, a.now)) == Ideal(Entries(json, row), a)
  {
    var keys := GetKeys(json, row.key);
    ReportKeepsConsistent(json, row, a.usingKey, a.newStatus, a.why, a.now);
    if IndexOf(keys, a.usingKey) >= 0 {
      ReportedView(keys, row, a);
    } else {
      UnknownReport(keys, row, a);
    }
  }

  lemma EnabledShown(keys: seq<string>, row: Row)
    ensures AnyEnabled(row.status, |keys|) <==> SomeEnabled(View(keys, row.status, row.time, row.reason))
  {
    var es := View(keys, row.status, row.time, row.reason);
    if i :| 0 <= i < |keys| && StatusAt(row.status, i) == ENABLED {
      assert es[i].status == ENABLED;
    }
  }

  lemma ReportStatus(json: ArrayParser, row: Row, a: Action)
    requires a.Report?
    ensures Reported(json, row, a.usingKey, a.newStatus, a.why, a.now).channelStatus == StatusAfter(BoardOf(json, row), a)
  {
    var keys, es := GetKeys(json, row.key), Entries(json, row);
    var i := IndexOf(keys, a.usingKey);
    FirstIsIndexOf(keys, es, a.usingKey);
    if i >= 0 {
      ReportedView(keys, row, a);
      EnabledShown(keys, ReportedAt(row, i, a.newStatus, a.why, a.now));
    }
  }

  lemma BoardIs(b: Board, a: Action, es: seq<Entry>, status: int)
    requires a.Report? && b.channelStatus != a.newStatus && es == Ideal(b.entries, a) && status == StatusAfter(b, a)
    ensures IdealBoard(b, a) == Board(es, status)
  {
  }

  lemma ReportRefinesBoard(json: ArrayParser, row: Row, a: Action, after: Row)
    requires Consistent(json, row) && a.Report? && row.channelStatus != a.newStatus
    requires after == Reported(json, row, a.usingKey, a.newStatus, a.why, a.now)
    ensures Consistent(json, after) && BoardOf(json, after) == IdealBoard(BoardOf(json, row), a)
  {
    ReportKeepsConsistent(json, row, a.usingKey, a.newStatus, a.why, a.now);
    ReportRefines(json, row, a);
    ReportStatus(json, row, a);
    BoardIs(BoardOf(json, row), a, Entries(json, after), after.channelStatus);
  }

  /** A deletion that leaves storable keys behind leaves exactly the surviving entries. */
  lemma SafeDeletionRefines(json: ArrayParser, row: Row, d: Deletion)
    requires Consistent(json, row) && Delete(json, row, d).0 && SafeDeletion(json, row, d)
    ensures Consistent(json, Delete(json, row, d).1)
    ensures Entries(json, Delete(json, row, d).1) == Survivors(Entries(json, row), d)
  {
    var keys := GetKeys(json, row.key);
    var rest := Kept(row, keys, d);
    KeptIndexes(row, keys, d);
    KeptView(row, keys, d);
    JoinedReadBack(json, rest.keys);
    assert Delete(json, row, d).1.status == rest.status;
  }

  lemma {:induction false} SurvivorsCount(es: seq<Entry>, d: Deletion)
    ensures |Survivors(es, d)| <= |es|
    ensures |Survivors(es, d)| == |es| <==> forall i :: 0 <= i < |es| ==> Survives(es, d, i)
    decreases |es|
  {
    if es != [] {
      var n := |es| - 1;
      SurvivorsCount(es[..n], d);
      assert forall i :: 0 <= i < n ==> (Survives(es, d, i) <==> Survives(es[..n], d, i));
    }
  }

  lemma {:induction false} OneDeletedAtMost(es: seq<Entry>, k: int)
    ensures |Survivors(es, One(k))| >= |es| - 1
    ensures !(0 <= k < |es|) ==> |Survivors(es, One(k))| == |es|
    decreases |es|
  {
    if es != [] {
      OneDeletedAtMost(es[..|es| - 1], k);
    }
  }

  lemma RestCount(json: ArrayParser, row: Row, d: Deletion)
    ensures |Rest(json, row, d)| == |Survivors(Entries(json, row), d)|
  {
    KeptView(row, GetKeys(json, row.key), d);
  }

  /** A deletion is refused exactly when it is meant to change nothing. */
  lemma RefusedIff(json: ArrayParser, row: Row, d: Deletion)
    requires Consistent(json, row)
    ensures var es := Entries(json, row);
            Delete(json, row, d).0 <==>
            match d
            case One(k) => 0 <= k < |es| && |es| > 1
            case AutoDisabled => exists i :: 0 <= i < |es| && es[i].status == AUTO_DISABLED
  {
    var es := Entries(json, row);
    DeleteIs(json, row, d, GetKeys(json, row.key), Kept(row, GetKeys(json, row.key), d));
    RestCount(json, row, d);
    SurvivorsCount(es, d);
    match d
    case One(k) =>
      OneDeletedAtMost(es, k);
      if 0 <= k < |es| {
        assert !Survives(es, d, k);
      }
    case AutoDisabled =>
      assert forall i :: 0 <= i < |es| ==> (Survives(es, d, i) <==> es[i].status != AUTO_DISABLED);
  }

  lemma RefusedKeepsRow(json: ArrayParser, row: Row, d: Deletion)
    requires !Delete(json, row, d).0
    ensures Delete(json, row, d).1 == row
  {
  }

  /** What a deletion leaves, refused or not. */
  lemma DeleteLeaves(json: ArrayParser, row: Row, d: Deletion, ok: bool, after: Row)
    requires Consistent(json, row) && (ok, after) == Delete(json, row, d) && (ok ==> SafeDeletion(json, row, d))
    ensures Consistent(json, after)
    ensures Entries(json, after) == if ok then Survivors(Entries(json, row), d) else Entries(json, row)
  {
    if ok {
      SafeDeletionRefines(json, row, d);
    } else {
      RefusedKeepsRow(json, row, d);
    }
  }

  lemma DeleteKeyIdeal(es: seq<Entry>, k: int, ok: bool)
    requires ok <==> 0 <= k < |es| && |es| > 1
    ensures Ideal(es, DeleteKey(Some(k))) == if ok then Survivors(es, One(k)) else es
  {
  }

  lemma DeleteDisabledIdeal(es: seq<Entry>, ok: bool)
    requires ok <==> exists i :: 0 <= i < |es| && es[i].status == AUTO_DISABLED
    ensures Ideal(es, DeleteDisabled) == if ok then Survivors(es, AutoDisabled) else es
  {
  }

  lemma DeleteRefines(json: ArrayParser, row: Row, d: Deletion, a: Action, ok: bool, after: Row)
    requires Consistent(json, row) && (ok, after) == Delete(json, row, d) && (ok ==> SafeDeletion(json, row, d))
    requires a == match d case One(k) => DeleteKey(Some(k)) case AutoDisabled => DeleteDisabled
    ensures Consistent(json, after)
    ensures Entries(json, after) == Ideal(Entries(json, row), a)
  {
    DeleteLeaves(json, row, d, ok, after);
    RefusedIff(json, row, d);
    if d.One? {
      DeleteKeyIdeal(Entries(json, row), d.index, ok);
    } else {
      DeleteDisabledIdeal(Entries(json, row), ok);
    }
  }

  lemma KeyActionRefines(json: ArrayParser, row: Row, a: Action)
    requires Consistent(json, row) && Safe(json, row, a) && !a.Report?
    ensures Consistent(json, Act(json, row, a).1)
    ensures Entries(json, Act(json, row, a).1) == Ideal(Entries(json, row), a)
  {
    match a
    case DisableKey(index) => DisableKeyRefines(json, row, index);
    case EnableKey(index) => EnableKeyRefines(json, row, index);
    case EnableAll => EnableAllRefines(json, row);
    case DisableAll => DisableAllRefines(json, row);
    case DeleteKey(index) =>
      if index.Some? {
        var (ok, after) := Delete(json, row, One(index.value));
        DeleteRefines(json, row, One(index.value), a, ok, after);
      }
    case DeleteDisabled =>
      var (ok, after) := Delete(json, row, AutoDisabled);
      DeleteRefines(json, row, AutoDisabled, a, ok, after);
  }

  lemma KeyActionKeepsStatus(json: ArrayParser, row: Row, a: Action)
    requires !a.Report?
    ensures Act(json, row, a).1.channelStatus == row.channelStatus
  {
  }

  /** Every action on the stored text and maps does to the keys and the channel status what it is meant
      to do. */
  lemma ActRefines(json: ArrayParser, row: Row, a: Action)
    requires Consistent(json, row) && Safe(json, row, a)
    ensures Consistent(json, Act(json, row, a).1)
    ensures BoardOf(json, Act(json, row, a).1) == IdealBoard(BoardOf(json, row), a)
  {
    if a.Report? {
      if row.channelStatus != a.newStatus {
        ReportRefinesBoard(json, row, a, Reported(json, row, a.usingKey, a.newStatus, a.why, a.now));
      }
    } else {
      KeyActionRefines(json, row, a);
      KeyActionKeepsStatus(json, row, a);
    }
  }

  function Run(json: ArrayParser, row: Row, actions: seq<Action>): Row {
    if actions == [] then row
    else Act(json, Run(json, row, actions[..|actions| - 1]), actions[|actions| - 1]).1
  }

  function IdealRun(b: Board, actions: seq<Action>): Board {
    if actions == [] then b
    else IdealBoard(IdealRun(b, actions[..|actions| - 1]), actions[|actions| - 1])
  }

  predicate SafeRun(json: ArrayParser, row: Row, actions: seq<Action>) {
    actions == [] ||
    var n := |actions| - 1;
    SafeRun(json, row, actions[..n]) && Safe(json, Run(json, row, actions[..n]), actions[n])
  }

  /** Whole runs of actions refine the same run on the board. */
  lemma {:induction false} RunRefines(json: ArrayParser, row: Row, actions: seq<Action>)
    requires Consistent(json, row) && SafeRun(json, row, actions)
    ensures Consistent(json, Run(json, row, actions))
    ensures BoardOf(json, Run(json, row, actions)) == IdealRun(BoardOf(json, row), actions)
    decreases |actions|
  {
    if actions != [] {
      var n := |actions| - 1;
      RunRefines(json, row, actions[..n]);
      ActRefines(json, Run(json, row, actions[..n]), actions[n]);
    }
  }

  // Exactly when a deletion does what it reports

  lemma SameViewSameKeys(keys: seq<string>, row: Row, rest: Remaining)
    requires View(keys, row.status, row.time, row.reason) == RemainingView(rest)
    ensures keys == rest.keys
  {
    forall i | 0 <= i < |keys| ensures keys[i] == rest.keys[i] {
      assert View(keys, row.status, row.time, row.reason)[i].key == RemainingView(rest)[i].key;
    }
  }

  /** A deletion that reports success leaves exactly the surviving entries if and only if some key is
      left and the keys left can be stored as text. */
  lemma DeletionIff(json: ArrayParser, row: Row, d: Deletion)
    requires ArrayText(json) && Consistent(json, row) && Delete(json, row, d).0
    ensures Entries(json, Delete(json, row, d).1) == Survivors(Entries(json, row), d) <==> SafeDeletion(json, row, d)
  {
    var keys := GetKeys(json, row.key);
    var rest := Kept(row, keys, d);
    var after := Delete(json, row, d).1;
    if SafeDeletion(json, row, d) {
      SafeDeletionRefines(json, row, d);
    } else if Entries(json, after) == Survivors(Entries(json, row), d) {
      KeptView(row, keys, d);
      SameViewSameKeys(GetKeys(json, after.key), after, rest);
      StorableIff(json, rest.keys);
      KeptIndexes(row, keys, d);
      if d.One? {
        KeptFewer(row, keys, d, d.index);
      }
      assert false;
    }
  }

  /** The text a deletion stores: an empty one is not written. */
  function TextLeft(json: ArrayParser, row: Row, d: Deletion): string {
    var text := Join(Rest(json, row, d), '\n');
    if text != "" then text else row.key
  }

  predicate Recorded(e: Entry) {
    e.time.Some? || e.reason.Some?
  }

  /** The records left for positions at or past the recounted size. */
  predicate RecordedPast(es: seq<Entry>, size: nat) {
    exists i :: size <= i < |es| && Recorded(es[i])
  }

  lemma RecordedView(rest: Remaining, size: nat)
    requires IndexesBelow(rest)
    ensures RecordedPast(RemainingView(rest), size) <==>
            (exists i :: i in rest.time && i >= size) || (exists i :: i in rest.reason && i >= size)
  {
    var es := RemainingView(rest);
    assert |es| == |rest.keys|;
    assert forall i :: 0 <= i < |es| ==> (Recorded(es[i]) <==> i in rest.time || i in rest.reason);
  }

  /** After a deletion that reports success the size and the recorded positions fit the stored text, if
      and only if that text is not an empty array and no time or reason is left past its key count. */
  lemma ConsistentAfterIff(json: ArrayParser, row: Row, d: Deletion)
    requires Consistent(json, row) && Delete(json, row, d).0
    ensures Consistent(json, Delete(json, row, d).1) <==>
            && ParsedArray(json, TextLeft(json, row, d)) != Some([])
            && !RecordedPast(Survivors(Entries(json, row), d), |CountedKeys(json, TextLeft(json, row, d))|)
  {
    var keys := GetKeys(json, row.key);
    var rest := Kept(row, keys, d);
    DeleteIs(json, row, d, keys, rest);
    KeptIndexes(row, keys, d);
    KeptView(row, keys, d);
    RecordedView(rest, |CountedKeys(json, TextLeft(json, row, d))|);
    SavedSizeIff(json, row, row.(key := Join(rest.keys, '\n'), size := |rest.keys|,
                                 status := rest.status, time := rest.time, reason := rest.reason));
    ReplacedIs(json, row, rest);
  }

  lemma ReplacedIs(json: ArrayParser, row: Row, rest: Remaining)
    ensures var after, text := Replaced(json, row, rest), Join(rest.keys, '\n');
            && after.key == (if text != "" then text else row.key) && after.size == |CountedKeys(json, after.key)|
            && after.time == rest.time && after.reason == rest.reason
            && (forall i :: i in after.status ==> i in rest.status && i < after.size)
  {
  }

  // Keys that do not survive

  function Others(keys: seq<string>, k: int): seq<string> {
    if 0 <= k < |keys| then keys[..k] + keys[k + 1..] else keys
  }

  lemma OthersLast(keys: seq<string>, k: int)
    requires keys != []
    ensures var n := |keys| - 1; Others(keys, k) == Others(keys[..n], k) + if k == n then [] else [keys[n]]
  {
    var n := |keys| - 1;
    if 0 <= k < n {
      assert keys[..n][..k] == keys[..k];
      assert keys[..n][k + 1..] + [keys[n]] == keys[k + 1..];
    } else if k == n {
      assert keys[..k] + keys[k + 1..] == keys[..n];
    } else {
      assert keys[..n] + [keys[n]] == keys;
    }
  }

  lemma KeptLast(row: Row, keys: seq<string>, k: int)
    requires keys != []
    ensures var n := |keys| - 1;
            Kept(row, keys, One(k)).keys == Kept(row, keys[..n], One(k)).keys + if k == n then [] else [keys[n]]
  {
  }

  lemma {:induction false} OthersKept(row: Row, keys: seq<string>, k: int)
    ensures Kept(row, keys, One(k)).keys == Others(keys, k)
    decreases |keys|
  {
    if keys != [] {
      OthersKept(row, keys[..|keys| - 1], k);
      KeptLast(row, keys, k);
      OthersLast(keys, k);
    }
  }

  lemma BlankLine(x: string)
    requires x != "" && '\n' !in x
    ensures Join([x, ""], '\n') == x + "\n" && Lines(x + "\n") == [x]
  {
    var text := x + "\n";
    assert Join([""], '\n') == "";
    assert [x, ""][1..] == [""];
    assert text[..|text| - 1] == x;
    assert TrimSep(x, '\n') == x;
    SplitWhole(x, '\n');
  }

  /** Deleting the last of three keys whose middle one is blank loses the blank key as well. */
  lemma BlankKeyLost(json: ArrayParser, row: Row, x: string, y: string)
    requires Consistent(json, row) && GetKeys(json, row.key) == [x, "", y]
    requires x != "" && '\n' !in x && ParsedArray(json, x + "\n").None?
    ensures Delete(json, row, One(2)).0 && GetKeys(json, Delete(json, row, One(2)).1.key) == [x]
  {
    var keys, rest: seq<string> := [x, "", y], [x, ""];
    OthersKept(row, keys, 2);
    assert Others(keys, 2) == rest;
    BlankLine(x);
    LeavesText(json, row, 2, keys, rest, x + "\n");
  }

  /** The text a deletion of one key stores. */
  lemma LeavesText(json: ArrayParser, row: Row, k: nat, keys: seq<string>, rest: seq<string>, text: string)
    requires keys == GetKeys(json, row.key) && Kept(row, keys, One(k)).keys == rest
    requires k < row.size && rest != [] && Join(rest, '\n') == text && text != ""
    ensures Delete(json, row, One(k)).0 && Delete(json, row, One(k)).1.key == text
  {
    DeleteIs(json, row, One(k), keys, Kept(row, keys, One(k)));
  }

  lemma {:induction false} SplitMany(s: string, sep: char)
    requires sep in s
    ensures |Split(s, sep)| >= 2
  {
    if s[0] != sep {
      assert sep in s[1..];
      SplitMany(s[1..], sep);
    }
  }

  /** Deleting one of two keys, when the other spans lines, leaves two keys or more. */
  lemma MultiLineKeySplits(json: ArrayParser, row: Row, x: string, y: string)
    requires Consistent(json, row) && GetKeys(json, row.key) == [x, y]
    requires '\n' in y && y[0] != '\n' && y[|y| - 1] != '\n' && ParsedArray(json, y).None?
    ensures Delete(json, row, One(0)).0 && |GetKeys(json, Delete(json, row, One(0)).1.key)| >= 2
  {
    OthersKept(row, [x, y], 0);
    assert Others([x, y], 0) == [y];
    assert Join([y], '\n') == y;
    SplitMany(y, '\n');
    LeavesText(json, row, 0, [x, y], [y], y);
  }

  /** Deleting one of two keys, when the other is the text of a JSON array, leaves the array's members. */
  lemma ArrayKeyExpands(json: ArrayParser, row: Row, x: string, y: string, members: seq<string>)
    requires Consistent(json, row) && GetKeys(json, row.key) == [x, y] && ParsedArray(json, y) == Some(members)
    ensures Delete(json, row, One(0)).0 && GetKeys(json, Delete(json, row, One(0)).1.key) == members
  {
    OthersKept(row, [x, y], 0);
    assert Others([x, y], 0) == [y];
    assert Join([y], '\n') == y;
    assert TrimSpace("") == "";
    LeavesText(json, row, 0, [x, y], [y], y);
  }

  lemma {:induction false} AllDropped(row: Row, keys: seq<string>, d: Deletion)
    requires forall i :: 0 <= i < |keys| ==> Dropped(row.status, d, i)
    ensures Kept(row, keys, d) == Remaining([], map[], map[], map[])
    decreases |keys|
  {
    if keys != [] {
      AllDropped(row, keys[..|keys| - 1], d);
    }
  }

  /** Storing no keys at all stores the old ones, with empty maps. */
  lemma ReplacedByNothing(json: ArrayParser, row: Row)
    ensures Replaced(json, row, Remaining([], map[], map[], map[])) == Act(json, row, EnableAll).1
  {
    assert Join([], '\n') == "";
  }

  /** The failing case that is not about odd keys: when every key is auto-disabled, bulk deletion
      reports success, deletes nothing and does what enable_all_keys does. */
  lemma AllDisabledComeBack(json: ArrayParser, row: Row)
    requires Consistent(json, row) && row.size > 0
    requires forall i :: 0 <= i < row.size ==> StatusAt(row.status, i) == AUTO_DISABLED
    ensures Delete(json, row, AutoDisabled).0
    ensures Delete(json, row, AutoDisabled).1 == Act(json, row, EnableAll).1
    ensures Entries(json, Delete(json, row, AutoDisabled).1) == Ideal(Entries(json, row), EnableAll)
  {
    var keys := GetKeys(json, row.key);
    AllDropped(row, keys, AutoDisabled);
    DeleteIs(json, row, AutoDisabled, keys, Remaining([], map[], map[], map[]));
    ReplacedByNothing(json, row);
    EnableAllRefines(json, row);
  }

  // Leftovers of an earlier disable

  predicate CleanEntry(e: Entry) {
    e.status == ENABLED ==> e.time == None && e.reason == None
  }

  /** Enabled keys carry no disable time and no reason. */
  predicate Clean(es: seq<Entry>) {
    forall i :: 0 <= i < |es| ==> CleanEntry(es[i])
  }

  /** A report that re-enables a key whose disable time or reason is recorded. It goes through only
      while the channel itself is not enabled. */
  predicate LeavesLeftovers(b: Board, a: Action) {
    a.Report? && a.newStatus == ENABLED && b.channelStatus != ENABLED &&
    var i := FirstWithKey(b.entries, a.usingKey);
    i < |b.entries| && (b.entries[i].time.Some? || b.entries[i].reason.Some?)
  }

  lemma {:induction false} SurvivorsClean(es: seq<Entry>, d: Deletion)
    requires Clean(es)
    ensures Clean(Survivors(es, d))
    decreases |es|
  {
    if es != [] {
      SurvivorsClean(es[..|es| - 1], d);
    }
  }

  lemma ReportClean(es: seq<Entry>, a: Action)
    requires Clean(es) && a.Report?
    ensures var i := FirstWithKey(es, a.usingKey);
            Clean(Ideal(es, a)) <==>
            !(a.newStatus == ENABLED && i < |es| && (es[i].time.Some? || es[i].reason.Some?))
  {
    var i := FirstWithKey(es, a.usingKey);
    if i < |es| {
      assert CleanEntry(es[i]);
      assert CleanEntry(Ideal(es, a)[i]) <==> !(a.newStatus == ENABLED && (es[i].time.Some? || es[i].reason.Some?));
      assert forall k :: 0 <= k < |es| && k != i ==> Ideal(es, a)[k] == es[k];
    }
  }

  /** Every action keeps enabled keys clean, except exactly the automatic re-enabling, in a channel that
      is not enabled, of a key that was disabled with a time or reason. */
  lemma CleanIff(b: Board, a: Action)
    requires Clean(b.entries)
    ensures Clean(IdealBoard(b, a).entries) <==> !LeavesLeftovers(b, a)
  {
    match a
    case DeleteKey(index) =>
      if index.Some? {
        SurvivorsClean(b.entries, One(index.value));
      }
    case DeleteDisabled => SurvivorsClean(b.entries, AutoDisabled);
    case Report(_, _, _, _) => ReportClean(b.entries, a);
    case _ =>
  }

  /** A report about the only key of a channel. */
  lemma OnlyKeyReport(e: Entry, status: int, a: Action)
    requires a.Report? && a.usingKey == e.key && status != a.newStatus
    ensures IdealBoard(Board([e], status), a) ==
            if a.newStatus == ENABLED then Board([e.(status := ENABLED)], ENABLED)
            else Board([Entry(e.key, a.newStatus, Some(a.now), Some(a.why))], AUTO_DISABLED)
  {
    var es := [e];
    assert FirstWithKey(es, a.usingKey) == 0;
    var next := Ideal(es, a);
    assert next == [if a.newStatus == ENABLED then e.(status := ENABLED)
                    else Entry(e.key, a.newStatus, Some(a.now), Some(a.why))];
    assert next[0].status == a.newStatus;
    assert SomeEnabled(next) <==> a.newStatus == ENABLED;
  }

  /** The leftovers resurface: a key disabled by hand then shows the time and reason of an earlier
      automatic disable. */
  lemma ManualDisableShowsOldReason(key: string, t: int, why: string, u: int)
    ensures IdealRun(Board([Entry(key, ENABLED, None, None)], ENABLED),
                     [Report(key, AUTO_DISABLED, why, t), Report(key, ENABLED, "", u), DisableKey(Some(0))]) ==
            Board([Entry(key, MANUALLY_DISABLED, Some(t), Some(why))], ENABLED)
  {
    var b := Board([Entry(key, ENABLED, None, None)], ENABLED);
    var actions := [Report(key, AUTO_DISABLED, why, t), Report(key, ENABLED, "", u), DisableKey(Some(0))];
    var b1, b2 := Board([Entry(key, AUTO_DISABLED, Some(t), Some(why))], AUTO_DISABLED),
                  Board([Entry(key, ENABLED, Some(t), Some(why))], ENABLED);
    assert actions[..2] == [actions[0], actions[1]] && actions[..2][..1] == [actions[0]] && actions[..2][..1][..0] == [];
    assert IdealRun(b, []) == b;
    OnlyKeyReport(b.entries[0], ENABLED, actions[0]);
    assert IdealRun(b, [actions[0]]) == b1;
    OnlyKeyReport(b1.entries[0], AUTO_DISABLED, actions[1]);
    assert IdealRun(b, actions[..2]) == b2;
  }
}
