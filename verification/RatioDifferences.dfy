/**
 Comparing local pricing with upstream channels: which (model, field) pairs are reported as differing,
 with which channels, and how far each channel's data is trusted.
 */
module RatioDifferences {
  import ModelsDev

  /** A pricing value; `Number` stands for the numeric types other than float64. */
  datatype Value = Null | Float(r: real) | Number(n: real) | Str(s: string) | Bool(b: bool)

  /** pricingSyncFields. */
  datatype Field =
    | ModelRatio | CompletionRatio | CacheRatio | CreateCacheRatio | ImageRatio | AudioRatio
    | AudioCompletionRatio | ModelPrice | BillingMode | BillingExpr

  /** Field to model name to value; a field that is absent or not a map holds no models. */
  type Pricing = map<Field, map<string, Value>>

  datatype Channel = Channel(name: string, data: Pricing)

  /** The marker for "no change", which is an ordinary string value. */
  const SAME := Str("same")

  const FIELDS := [
    ModelRatio, CompletionRatio, CacheRatio, CreateCacheRatio, ImageRatio, AudioRatio, AudioCompletionRatio, ModelPrice,
    BillingMode, BillingExpr]

  predicate Numeric(field: Field) {
    field != BillingMode && field != BillingExpr
  }

  function Entries(data: Pricing, field: Field): map<string, Value> {
    if field in data then data[field] else map[]
  }

  /** normalizeSyncValue. */
  function Normalize(field: Field, v: Value): Value {
    if Numeric(field) && v.Number? then Float(v.n) else v
  }

  predicate Present(data: Pricing, field: Field, model: string) {
    model in Entries(data, field)
  }

  /** The value found, with Null for none. */
  function Lookup(data: Pricing, field: Field, model: string): Value {
    if Present(data, field, model) then Normalize(field, Entries(data, field)[model]) else Null
  }

  /** valuesEqual. */
  predicate Equal(a: Value, b: Value) {
    if a.Float? && b.Float? then ModelsDev.NearlyEqual(a.r, b.r) else a == b
  }

  // One channel, one model, one field

  /** The value shown for a channel. */
  function Shown(local: Value, data: Pricing, field: Field, model: string): Value {
    var v := Lookup(data, field, model);
    if Present(data, field, model) && Equal(local, v) then SAME
    else if v == Null && local == Null then SAME
    else v
  }

  predicate Real(v: Value) {
    v != Null && v != SAME
  }

  /** The channel has a value for the model and it is not the local one. */
  predicate Differs(local: Value, data: Pricing, field: Field, model: string) {
    Present(data, field, model) && !Equal(local, Lookup(data, field, model))
  }

  /** What sets the hasDifference flag. */
  predicate Flags(local: Value, data: Pricing, field: Field, model: string) {
    if local != Null then Differs(local, data, field, model) else Real(Shown(local, data, field, model))
  }

  /** A pricing endpoint answers with ratio 37.5 and completion ratio 1 for models it does not know. */
  predicate Trusted(data: Pricing, model: string) {
    !(Present(data, ModelRatio, model) && Present(data, CompletionRatio, model) &&
      var m := Lookup(data, ModelRatio, model);
      var c := Lookup(data, CompletionRatio, model);
      m.Float? && c.Float? && ModelsDev.NearlyEqual(m.r, 37.5) && ModelsDev.NearlyEqual(c.r, 1.0))
  }

  // All channels

  function Names(channels: seq<Channel>): set<string> {
    set i | 0 <= i < |channels| :: channels[i].name
  }

  /** Channels may share a name; the last one fills the maps. */
  function Last(channels: seq<Channel>, name: string): (c: Channel)
    requires name in Names(channels)
    ensures c in channels && c.name == name
  {
    var n := |channels| - 1;
    if channels[n].name == name then channels[n] else Last(channels[..n], name)
  }

  function ShownAll(local: Value, channels: seq<Channel>, field: Field, model: string): map<string, Value> {
    map c | c in Names(channels) :: Shown(local, Last(channels, c).data, field, model)
  }

  function TrustedAll(channels: seq<Channel>, model: string): map<string, bool> {
    map c | c in Names(channels) :: Trusted(Last(channels, c).data, model)
  }

  predicate AnyPresent(channels: seq<Channel>, field: Field, model: string) {
    exists i :: 0 <= i < |channels| && Present(channels[i].data, field, model)
  }

  predicate AnyFlags(local: Value, channels: seq<Channel>, field: Field, model: string) {
    exists i :: 0 <= i < |channels| && Flags(local, channels[i].data, field, model)
  }

  datatype Item = Item(current: Value, upstreams: map<string, Value>, confidence: map<string, bool>)

  function RawItem(local: Pricing, channels: seq<Channel>, field: Field, model: string): Item {
    var v := Lookup(local, field, model);
    Item(v, ShownAll(v, channels, field, model), TrustedAll(channels, model))
  }

  predicate Included(local: Pricing, channels: seq<Channel>, field: Field, model: string) {
    var v := Lookup(local, field, model);
    if v != Null then AnyFlags(v, channels, field, model) else AnyPresent(channels, field, model)
  }

  type Differences = map<string, map<Field, Item>>

  function RawRow(local: Pricing, channels: seq<Channel>, model: string): map<Field, Item> {
    map f: Field | Included(local, channels, f, model) :: RawItem(local, channels, f, model)
  }

  function ModelsOf(data: Pricing): set<string> {
    set f: Field, m | m in Entries(data, f) :: m
  }

  function Models(local: Pricing, channels: seq<Channel>): set<string> {
    ModelsOf(local) + set i, m | 0 <= i < |channels| && m in ModelsOf(channels[i].data) :: m
  }

  function RawOver(local: Pricing, channels: seq<Channel>, models: set<string>): Differences {
    map m | m in models && RawRow(local, channels, m) != map[] :: RawRow(local, channels, m)
  }

  /** The differences before pruning. */
  function Raw(local: Pricing, channels: seq<Channel>): Differences {
    RawOver(local, channels, Models(local, channels))
  }

  // Pruning

  function RealIn(item: Item): set<string> {
    set c | c in item.upstreams && Real(item.upstreams[c])
  }

  function InvolvedInRow(row: map<Field, Item>): set<string> {
    set f, c | f in row && c in RealIn(row[f]) :: c
  }

  /** The channels with a real difference somewhere. */
  function Involved(d: Differences): set<string> {
    set m, c | m in d && c in InvolvedInRow(d[m]) :: c
  }

  function KeepChannels(item: Item, keep: set<string>): Item {
    Item(item.current,
         map c | c in item.upstreams && c in keep :: item.upstreams[c],
         map c | c in item.confidence && c in keep :: item.confidence[c])
  }

  predicate AllSame(upstreams: map<string, Value>) {
    forall c :: c in upstreams ==> upstreams[c] == SAME
  }

  function PrunedRow(row: map<Field, Item>, keep: set<string>): map<Field, Item> {
    map f | f in row && !AllSame(KeepChannels(row[f], keep).upstreams) :: KeepChannels(row[f], keep)
  }

  function PrunedOver(d: Differences, keep: set<string>, models: set<string>): Differences
    requires models <= d.Keys
  {
    map m | m in models && PrunedRow(d[m], keep) != map[] :: PrunedRow(d[m], keep)
  }

  function Pruned(d: Differences, keep: set<string>): Differences {
    PrunedOver(d, keep, d.Keys)
  }

  /** buildDifferences. */
  function Report(local: Pricing, channels: seq<Channel>): Differences {
    var raw := Raw(local, channels);
    Pruned(raw, Involved(raw))
  }

  predicate In(d: Differences, model: string, field: Field) {
    model in d && field in d[model]
  }

  // What the report holds

  lemma RawRowHolds(local: Pricing, channels: seq<Channel>, model: string, field: Field)
    ensures field in RawRow(local, channels, model) <==> Included(local, channels, field, model)
    ensures field in RawRow(local, channels, model) ==>
              RawRow(local, channels, model)[field] == RawItem(local, channels, field, model)
  {
  }

  lemma RowOfRaw(local: Pricing, channels: seq<Channel>, model: string, field: Field)
    ensures In(Raw(local, channels), model, field) <==>
            model in Models(local, channels) && field in RawRow(local, channels, model)
    ensures model in Raw(local, channels) ==> Raw(local, channels)[model] == RawRow(local, channels, model)
  {
  }

  lemma RawHolds(local: Pricing, channels: seq<Channel>, model: string, field: Field)
    ensures In(Raw(local, channels), model, field) <==> Included(local, channels, field, model)
    ensures In(Raw(local, channels), model, field) ==>
              Raw(local, channels)[model][field] == RawItem(local, channels, field, model)
  {
    RowOfRaw(local, channels, model, field);
    RawRowHolds(local, channels, model, field);
    if Included(local, channels, field, model) {
      IncludedIsModel(local, channels, model, field);
    }
  }

  lemma IncludedIsModel(local: Pricing, channels: seq<Channel>, model: string, field: Field)
    requires Included(local, channels, field, model)
    ensures model in Models(local, channels)
  {
    if Lookup(local, field, model) != Null {
      assert model in Entries(local, field);
    } else {
      var i :| 0 <= i < |channels| && Present(channels[i].data, field, model);
      assert model in Entries(channels[i].data, field);
      assert model in ModelsOf(channels[i].data);
    }
  }

  lemma PrunedHolds(d: Differences, keep: set<string>, model: string, field: Field)
    ensures In(Pruned(d, keep), model, field) <==>
            In(d, model, field) && !AllSame(KeepChannels(d[model][field], keep).upstreams)
    ensures In(Pruned(d, keep), model, field) ==>
              Pruned(d, keep)[model][field] == KeepChannels(d[model][field], keep)
  {
    if In(d, model, field) && !AllSame(KeepChannels(d[model][field], keep).upstreams) {
      assert field in PrunedRow(d[model], keep);
    }
  }

  /** The channels with a real difference in some included item. */
  function Listed(local: Pricing, channels: seq<Channel>): set<string> {
    Involved(Raw(local, channels))
  }

  ghost predicate RealSomewhere(local: Pricing, channels: seq<Channel>, c: string) {
    exists m, f :: Included(local, channels, f, m) && c in RealIn(RawItem(local, channels, f, m))
  }

  lemma ListedIff(local: Pricing, channels: seq<Channel>, c: string)
    ensures c in Listed(local, channels) <==> RealSomewhere(local, channels, c)
    ensures c in Listed(local, channels) ==> c in Names(channels)
  {
    var raw := Raw(local, channels);
    if c in Listed(local, channels) {
      var m :| m in raw && c in InvolvedInRow(raw[m]);
      var f :| f in raw[m] && c in RealIn(raw[m][f]);
      RawHolds(local, channels, m, f);
      assert Included(local, channels, f, m) && c in RealIn(RawItem(local, channels, f, m));
    }
    if m, f :| Included(local, channels, f, m) && c in RealIn(RawItem(local, channels, f, m)) {
      RawHolds(local, channels, m, f);
      assert c in InvolvedInRow(raw[m]);
    }
  }

  /** Some listed channel shows something other than "same". */
  predicate SomeChange(local: Pricing, channels: seq<Channel>, model: string, field: Field) {
    exists c :: c in Listed(local, channels) && c in Names(channels) &&
                RawItem(local, channels, field, model).upstreams[c] != SAME
  }

  /** The report as a whole: which pairs it holds, and each pair's item over exactly the listed channels. */
  lemma ReportHolds(local: Pricing, channels: seq<Channel>, model: string, field: Field)
    ensures In(Report(local, channels), model, field) <==>
            Included(local, channels, field, model) && SomeChange(local, channels, model, field)
    ensures In(Report(local, channels), model, field) ==>
              var item := Report(local, channels)[model][field];
              && item == KeepChannels(RawItem(local, channels, field, model), Listed(local, channels))
              && item.upstreams.Keys == item.confidence.Keys == Listed(local, channels)
  {
    var keep := Listed(local, channels);
    var item := RawItem(local, channels, field, model);
    RawHolds(local, channels, model, field);
    PrunedHolds(Raw(local, channels), keep, model, field);
    forall c | c in keep ensures c in Names(channels) {
      ListedIff(local, channels, c);
    }
    assert item.upstreams.Keys == item.confidence.Keys == Names(channels);
    assert KeepChannels(item, keep).upstreams.Keys == keep;
    assert KeepChannels(item, keep).confidence.Keys == keep;
    ChangeIff(item, keep);
  }

  lemma ChangeIff(item: Item, keep: set<string>)
    ensures AllSame(KeepChannels(item, keep).upstreams) <==>
            !exists c :: c in keep && c in item.upstreams && item.upstreams[c] != SAME
  {
    var kept := KeepChannels(item, keep).upstreams;
    if c :| c in keep && c in item.upstreams && item.upstreams[c] != SAME {
      assert c in kept && kept[c] != SAME;
    }
  }

  // What that means for the reader of the report

  /** Every real difference of an included pair is in the report, with its value. */
  lemma NothingLost(local: Pricing, channels: seq<Channel>, model: string, field: Field, c: string)
    requires Included(local, channels, field, model)
    requires c in RealIn(RawItem(local, channels, field, model))
    ensures In(Report(local, channels), model, field)
    ensures c in Report(local, channels)[model][field].upstreams
    ensures Report(local, channels)[model][field].upstreams[c] == RawItem(local, channels, field, model).upstreams[c]
  {
    ListedIff(local, channels, c);
    ReportHolds(local, channels, model, field);
    assert SomeChange(local, channels, model, field);
  }

  /** Every channel that the report lists has a real difference in the report itself. */
  lemma ListedHasDifference(local: Pricing, channels: seq<Channel>, c: string)
    requires c in Listed(local, channels)
    ensures c in Involved(Report(local, channels))
  {
    ListedIff(local, channels, c);
    var m, f :| Included(local, channels, f, m) && c in RealIn(RawItem(local, channels, f, m));
    NothingLost(local, channels, m, f, c);
    var d := Report(local, channels);
    assert f in d[m] && c in RealIn(d[m][f]);
    assert c in InvolvedInRow(d[m]);
  }

  predicate SomeDiffers(local: Pricing, channels: seq<Channel>, model: string, field: Field) {
    exists i :: 0 <= i < |channels| && Differs(Lookup(local, field, model), channels[i].data, field, model)
  }

  predicate SomeReal(local: Pricing, channels: seq<Channel>, model: string, field: Field) {
    exists i :: 0 <= i < |channels| && Real(Shown(Lookup(local, field, model), channels[i].data, field, model))
  }

  /** A listed channel that holds nothing for a pair which has a local value. */
  predicate ListedBlank(local: Pricing, channels: seq<Channel>, model: string, field: Field) {
    Lookup(local, field, model) != Null &&
    exists c :: c in Listed(local, channels) && c in Names(channels) &&
                RawItem(local, channels, field, model).upstreams[c] == Null
  }

  predicate Distinct(channels: seq<Channel>) {
    forall i, j :: 0 <= i < j < |channels| ==> channels[i].name != channels[j].name
  }

  lemma {:induction false} LastIs(channels: seq<Channel>, i: nat)
    requires Distinct(channels) && i < |channels|
    ensures channels[i].name in Names(channels) && Last(channels, channels[i].name) == channels[i]
    decreases |channels|
  {
    var n := |channels| - 1;
    if i < n {
      LastIs(channels[..n], i);
    }
  }

  lemma RealIsReported(local: Pricing, channels: seq<Channel>, model: string, field: Field)
    requires Distinct(channels) && SomeReal(local, channels, model, field)
    ensures In(Report(local, channels), model, field)
  {
    var v := Lookup(local, field, model);
    var i :| 0 <= i < |channels| && Real(Shown(v, channels[i].data, field, model));
    LastIs(channels, i);
    assert v != Null ==> Flags(v, channels[i].data, field, model);
    assert Present(channels[i].data, field, model);
    NothingLost(local, channels, model, field, channels[i].name);
  }

  /** A change shown for a listed channel is a real difference or a blank beside a local value. */
  lemma ChangeMeans(local: Pricing, channels: seq<Channel>, model: string, field: Field)
    requires SomeChange(local, channels, model, field)
    ensures SomeReal(local, channels, model, field) || ListedBlank(local, channels, model, field)
  {
    var item := RawItem(local, channels, field, model);
    var c :| c in Listed(local, channels) && c in Names(channels) && item.upstreams[c] != SAME;
    var i :| 0 <= i < |channels| && channels[i] == Last(channels, c);
    assert item.upstreams[c] == Shown(Lookup(local, field, model), channels[i].data, field, model);
  }

  lemma RealDiffers(local: Pricing, channels: seq<Channel>, model: string, field: Field)
    requires SomeReal(local, channels, model, field)
    ensures SomeDiffers(local, channels, model, field)
  {
    var v := Lookup(local, field, model);
    var i :| 0 <= i < |channels| && Real(Shown(v, channels[i].data, field, model));
    assert Differs(v, channels[i].data, field, model);
  }

  lemma BlankIsReported(local: Pricing, channels: seq<Channel>, model: string, field: Field)
    requires SomeDiffers(local, channels, model, field) && ListedBlank(local, channels, model, field)
    ensures In(Report(local, channels), model, field)
  {
    var v := Lookup(local, field, model);
    var i :| 0 <= i < |channels| && Differs(v, channels[i].data, field, model);
    assert Flags(v, channels[i].data, field, model);
    ReportHolds(local, channels, model, field);
  }

  /** A reported pair always has a channel whose value differs from the local one. */
  lemma ReportSound(local: Pricing, channels: seq<Channel>, model: string, field: Field)
    requires In(Report(local, channels), model, field)
    ensures SomeDiffers(local, channels, model, field)
  {
    ReportHolds(local, channels, model, field);
    var v := Lookup(local, field, model);
    if v != Null {
      var i :| 0 <= i < |channels| && Flags(v, channels[i].data, field, model);
      assert Differs(v, channels[i].data, field, model);
    } else {
      ChangeMeans(local, channels, model, field);
      RealDiffers(local, channels, model, field);
    }
  }

  /** A pair on which some channel differs is reported exactly when one of the differing values is
      neither null nor the text "same", or a listed channel is blank where there is a local value. */
  lemma ReportIff(local: Pricing, channels: seq<Channel>, model: string, field: Field)
    requires Distinct(channels) && SomeDiffers(local, channels, model, field)
    ensures In(Report(local, channels), model, field) <==>
            SomeReal(local, channels, model, field) || ListedBlank(local, channels, model, field)
  {
    ReportHolds(local, channels, model, field);
    if In(Report(local, channels), model, field) {
      ChangeMeans(local, channels, model, field);
    } else if SomeReal(local, channels, model, field) {
      RealIsReported(local, channels, model, field);
    } else if ListedBlank(local, channels, model, field) {
      BlankIsReported(local, channels, model, field);
    }
  }

  /** The upstream values of the pair are actual values. */
  predicate ActualValues(channels: seq<Channel>, model: string, field: Field) {
    forall i :: 0 <= i < |channels| && Present(channels[i].data, field, model) ==>
                  Real(Lookup(channels[i].data, field, model))
  }

  /** On actual values the report holds exactly the pairs on which some channel differs. */
  lemma ActualValuesReported(local: Pricing, channels: seq<Channel>, model: string, field: Field)
    requires Distinct(channels) && ActualValues(channels, model, field)
    ensures In(Report(local, channels), model, field) <==> SomeDiffers(local, channels, model, field)
  {
    if In(Report(local, channels), model, field) {
      ReportSound(local, channels, model, field);
    }
    if SomeDiffers(local, channels, model, field) {
      var v := Lookup(local, field, model);
      var i :| 0 <= i < |channels| && Differs(v, channels[i].data, field, model);
      assert Real(Shown(v, channels[i].data, field, model));
      RealIsReported(local, channels, model, field);
    }
  }

  /** Every upstream value is null or the text "same". */
  ghost predicate NothingReal(channels: seq<Channel>) {
    forall i, f: Field, m ::
      0 <= i < |channels| && Present(channels[i].data, f, m) ==> !Real(Lookup(channels[i].data, f, m))
  }

  lemma NothingRealShown(local: Pricing, channels: seq<Channel>, field: Field, model: string, c: string)
    requires NothingReal(channels)
    ensures c !in RealIn(RawItem(local, channels, field, model))
  {
    if c in Names(channels) {
      var i :| 0 <= i < |channels| && channels[i] == Last(channels, c);
      assert !Real(Lookup(channels[i].data, field, model));
    }
  }

  lemma NothingRealListed(local: Pricing, channels: seq<Channel>, c: string)
    requires NothingReal(channels)
    ensures c !in Listed(local, channels)
  {
    forall m, f ensures c !in RealIn(RawItem(local, channels, f, m)) {
      NothingRealShown(local, channels, f, m, c);
    }
    ListedIff(local, channels, c);
  }

  /** When no channel holds a real value, nothing is reported, whatever differs. */
  lemma NothingRealReported(local: Pricing, channels: seq<Channel>, model: string, field: Field)
    requires NothingReal(channels)
    ensures !In(Report(local, channels), model, field)
  {
    ReportHolds(local, channels, model, field);
    forall c ensures c !in Listed(local, channels) {
      NothingRealListed(local, channels, c);
    }
  }

  /** One channel with one value. */
  function Single(name: string, field: Field, model: string, v: Value): seq<Channel> {
    [Channel(name, map[field := map[model := v]])]
  }

  lemma SingleValue(name: string, field: Field, model: string, v: Value, f: Field, m: string)
    ensures Present(Single(name, field, model, v)[0].data, f, m) <==> f == field && m == model
    ensures Lookup(Single(name, field, model, v)[0].data, field, model) == Normalize(field, v)
  {
  }

  /** A null beside a local value differs from it and goes unreported. */
  lemma NullGoesUnreported(local: Pricing, name: string, model: string, field: Field)
    requires Lookup(local, field, model) != Null
    ensures var channels := Single(name, field, model, Null);
            SomeDiffers(local, channels, model, field) && !In(Report(local, channels), model, field)
  {
    UnrealGoesUnreported(local, name, model, field, Null);
  }

  /** The text "same" beside another billing mode or expression differs from it and goes unreported. */
  lemma SameGoesUnreported(local: Pricing, name: string, model: string, field: Field)
    requires Lookup(local, field, model) != SAME
    ensures var channels := Single(name, field, model, SAME);
            SomeDiffers(local, channels, model, field) && !In(Report(local, channels), model, field)
  {
    UnrealGoesUnreported(local, name, model, field, SAME);
  }

  lemma UnrealGoesUnreported(local: Pricing, name: string, model: string, field: Field, v: Value)
    requires (v == Null || v == SAME) && Lookup(local, field, model) != v
    ensures var channels := Single(name, field, model, v);
            SomeDiffers(local, channels, model, field) && !In(Report(local, channels), model, field)
  {
    var channels := Single(name, field, model, v);
    forall i, f: Field, m | 0 <= i < |channels| && Present(channels[i].data, f, m)
      ensures !Real(Lookup(channels[i].data, f, m))
    {
      SingleValue(name, field, model, v, f, m);
    }
    SingleValue(name, field, model, v, field, model);
    assert Differs(Lookup(local, field, model), channels[0].data, field, model);
    NothingRealReported(local, channels, model, field);
  }
}
