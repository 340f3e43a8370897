/** The loops of buildDifferences, over maps in any order, against the report they are meant to build. */
module DifferenceBuilder {
  import ModelsDev
  import opened RatioDifferences

  // The models and how far each channel is trusted on them

  lemma EveryField(f: Field)
    ensures f in FIELDS
  {
    var i := match f
      case ModelRatio => 0 case CompletionRatio => 1 case CacheRatio => 2 case CreateCacheRatio => 3
      case ImageRatio => 4 case AudioRatio => 5 case AudioCompletionRatio => 6 case ModelPrice => 7
      case BillingMode => 8 case BillingExpr => 9;
    assert FIELDS[i] == f;
  }

  method AddFieldModels(data: Pricing, models: set<string>, fields: seq<Field>) returns (all: set<string>)
    ensures all == models + set f, m | f in fields && m in Entries(data, f) :: m
  {
    all := models;
    for k := 0 to |fields|
      invariant all == models + set f, m | f in fields[..k] && m in Entries(data, f) :: m
    {
      assert fields[..k + 1] == fields[..k] + [fields[k]];
      all := all + Entries(data, fields[k]).Keys;
    }
    assert fields[..|fields|] == fields;
  }

  method AddModels(data: Pricing, models: set<string>) returns (all: set<string>)
    ensures all == models + ModelsOf(data)
  {
    all := AddFieldModels(data, models, FIELDS);
    forall f: Field ensures f in FIELDS {
      EveryField(f);
    }
  }

  lemma ModelsNext(local: Pricing, channels: seq<Channel>, k: nat)
    requires k < |channels|
    ensures Models(local, channels[..k + 1]) == Models(local, channels[..k]) + ModelsOf(channels[k].data)
  {
    var next := channels[..k + 1];
    assert next[k] == channels[k];
    forall m | m in Models(local, channels[..k]) ensures m in Models(local, next) {
      if m !in ModelsOf(local) {
        var i :| 0 <= i < k && m in ModelsOf(channels[..k][i].data);
        assert next[i] == channels[..k][i];
      }
    }
    forall m | m in Models(local, next) && m !in ModelsOf(channels[k].data) ensures m in Models(local, channels[..k]) {
      if m !in ModelsOf(local) {
        var i :| 0 <= i < k + 1 && m in ModelsOf(next[i].data);
        assert next[i] == channels[..k][i];
      }
    }
  }

  method AllModels(local: Pricing, channels: seq<Channel>) returns (all: set<string>)
    ensures all == Models(local, channels)
  {
    all := AddModels(local, {});
    for k := 0 to |channels|
      invariant all == Models(local, channels[..k])
    {
      ModelsNext(local, channels, k);
      all := AddModels(channels[k].data, all);
    }
    assert channels[..|channels|] == channels;
  }

  method CheckModel(data: Pricing, m: string) returns (ok: bool)
    ensures ok == Trusted(data, m)
  {
    var ratios, completions := Entries(data, ModelRatio), Entries(data, CompletionRatio);
    if |ratios| > 0 && |completions| > 0 {
      if m in ratios && m in completions {
        var r, c := Normalize(ModelRatio, ratios[m]), Normalize(CompletionRatio, completions[m]);
        if r.Float? && c.Float? && ModelsDev.NearlyEqual(r.r, 37.5) && ModelsDev.NearlyEqual(c.r, 1.0) {
          return false;
        }
      }
    }
    return true;
  }

  function TrustIn(data: Pricing, models: set<string>): map<string, bool> {
    map m | m in models :: Trusted(data, m)
  }

  method Confidence(data: Pricing, models: set<string>) returns (trust: map<string, bool>)
    ensures trust == TrustIn(data, models)
  {
    trust := map[];
    var todo := models;
    while todo != {}
      invariant todo <= models
      invariant trust == TrustIn(data, models - todo)
      decreases |todo|
    {
      var m :| m in todo;
      var ok := CheckModel(data, m);
      assert models - (todo - {m}) == (models - todo) + {m};
      trust := trust[m := ok];
      todo := todo - {m};
    }
    assert models - todo == models;
  }

  /** The channel each name stands for. */
  function ByName(channels: seq<Channel>): map<string, Channel> {
    map c | c in Names(channels) :: Last(channels, c)
  }

  lemma LastNext(channels: seq<Channel>, k: nat, c: string)
    requires k < |channels| && c in Names(channels[..k + 1])
    ensures c != channels[k].name ==> c in Names(channels[..k])
    ensures Last(channels[..k + 1], c) ==
            if c == channels[k].name then channels[k] else Last(channels[..k], c)
  {
    assert channels[..k + 1][..k] == channels[..k];
  }

  lemma NamesNext(channels: seq<Channel>, k: nat)
    requires k < |channels|
    ensures Names(channels[..k + 1]) == Names(channels[..k]) + {channels[k].name}
  {
    var next := channels[..k + 1];
    assert next[k].name in Names(next);
    forall c | c in Names(channels[..k]) ensures c in Names(next) {
      var i :| 0 <= i < k && channels[..k][i].name == c;
      assert next[i].name == c;
    }
    forall c | c in Names(next) && c != channels[k].name ensures c in Names(channels[..k]) {
      var i :| 0 <= i < k + 1 && next[i].name == c;
      assert channels[..k][i].name == c;
    }
  }

  lemma ByNameNext(channels: seq<Channel>, k: nat)
    requires k < |channels|
    ensures ByName(channels[..k + 1]) == ByName(channels[..k])[channels[k].name := channels[k]]
  {
    NamesNext(channels, k);
    var next, prev := ByName(channels[..k + 1]), ByName(channels[..k]);
    forall c | c in next ensures next[c] == prev[channels[k].name := channels[k]][c] {
      LastNext(channels, k, c);
    }
  }

  function TrustOf(named: map<string, Channel>, models: set<string>): map<string, map<string, bool>> {
    map c | c in named :: TrustIn(named[c].data, models)
  }

  function ShownOf(named: map<string, Channel>, local: Value, field: Field, model: string): map<string, Value> {
    map c | c in named :: Shown(local, named[c].data, field, model)
  }

  lemma TrustOfNext(named: map<string, Channel>, models: set<string>, c: Channel)
    ensures TrustOf(named[c.name := c], models) == TrustOf(named, models)[c.name := TrustIn(c.data, models)]
  {
  }

  lemma ShownOfNext(named: map<string, Channel>, local: Value, field: Field, model: string, c: Channel)
    ensures ShownOf(named[c.name := c], local, field, model) ==
            ShownOf(named, local, field, model)[c.name := Shown(local, c.data, field, model)]
  {
  }

  lemma ShownOfAll(channels: seq<Channel>, local: Value, field: Field, model: string)
    ensures ShownOf(ByName(channels), local, field, model) == ShownAll(local, channels, field, model)
  {
  }

  function TrustMaps(channels: seq<Channel>, models: set<string>): map<string, map<string, bool>> {
    TrustOf(ByName(channels), models)
  }

  method ConfidenceMap(channels: seq<Channel>, models: set<string>) returns (conf: map<string, map<string, bool>>)
    ensures conf == TrustMaps(channels, models)
  {
    conf := map[];
    for k := 0 to |channels|
      invariant conf == TrustMaps(channels[..k], models)
    {
      ByNameNext(channels, k);
      TrustOfNext(ByName(channels[..k]), models, channels[k]);
      var trust := Confidence(channels[k].data, models);
      conf := conf[channels[k].name := trust];
    }
    assert channels[..|channels|] == channels;
  }

  // Comparing the channels on one model and field

  lemma ShownAllNext(local: Value, channels: seq<Channel>, field: Field, model: string, k: nat)
    requires k < |channels|
    ensures ShownAll(local, channels[..k + 1], field, model) ==
            ShownAll(local, channels[..k], field, model)[channels[k].name := Shown(local, channels[k].data, field, model)]
  {
    ByNameNext(channels, k);
    ShownOfNext(ByName(channels[..k]), local, field, model, channels[k]);
    ShownOfAll(channels[..k + 1], local, field, model);
    ShownOfAll(channels[..k], local, field, model);
  }

  lemma AnyPresentNext(channels: seq<Channel>, field: Field, model: string, k: nat)
    requires k < |channels|
    ensures AnyPresent(channels[..k + 1], field, model) <==>
            AnyPresent(channels[..k], field, model) || Present(channels[k].data, field, model)
  {
    var prev, next := channels[..k], channels[..k + 1];
    assert next[k] == channels[k];
    assert forall i :: 0 <= i < k ==> next[i] == prev[i];
  }

  lemma AnyFlagsNext(local: Value, channels: seq<Channel>, field: Field, model: string, k: nat)
    requires k < |channels|
    ensures AnyFlags(local, channels[..k + 1], field, model) <==>
            AnyFlags(local, channels[..k], field, model) || Flags(local, channels[k].data, field, model)
  {
    if AnyFlags(local, channels[..k], field, model) || Flags(local, channels[k].data, field, model) {
      FlagsKept(local, channels, field, model, k);
    }
    if AnyFlags(local, channels[..k + 1], field, model) {
      FlagsFound(local, channels, field, model, k);
    }
  }

  lemma FlagsKept(local: Value, channels: seq<Channel>, field: Field, model: string, k: nat)
    requires k < |channels|
    requires AnyFlags(local, channels[..k], field, model) || Flags(local, channels[k].data, field, model)
    ensures AnyFlags(local, channels[..k + 1], field, model)
  {
    var prev, next := channels[..k], channels[..k + 1];
    if Flags(local, channels[k].data, field, model) {
      assert next[k] == channels[k];
    } else {
      var i :| 0 <= i < k && Flags(local, prev[i].data, field, model);
      assert next[i] == prev[i];
    }
  }

  lemma FlagsFound(local: Value, channels: seq<Channel>, field: Field, model: string, k: nat)
    requires k < |channels| && AnyFlags(local, channels[..k + 1], field, model)
    ensures AnyFlags(local, channels[..k], field, model) || Flags(local, channels[k].data, field, model)
  {
    var prev, next := channels[..k], channels[..k + 1];
    var i :| 0 <= i < k + 1 && Flags(local, next[i].data, field, model);
    if i < k {
      assert prev[i] == next[i];
    }
  }

  /** The comparison with one channel. */
  method CompareOne(local: Value, data: Pricing, field: Field, model: string)
    returns (shown: Value, has: bool, flags: bool)
    ensures shown == Shown(local, data, field, model)
    ensures has == Present(data, field, model)
    ensures flags == Flags(local, data, field, model)
  {
    shown, has, flags := Null, false, false;
    if model in Entries(data, field) {
      shown := Normalize(field, Entries(data, field)[model]);
      has := true;
      if local != Null && !Equal(local, shown) {
        flags := true;
      } else if Equal(local, shown) {
        shown := SAME;
      }
    }
    if shown == Null && local == Null {
      shown := SAME;
    }
    if local == Null && shown != Null && shown != SAME {
      flags := true;
    }
  }

  datatype Findings = Findings(ups: map<string, Value>, has: bool, differs: bool)

  /** What the channel loop has found after the channels given. */
  function Found(local: Value, channels: seq<Channel>, field: Field, model: string): Findings {
    if channels == [] then Findings(map[], false, false)
    else
      var c, before := channels[|channels| - 1], Found(local, channels[..|channels| - 1], field, model);
      Findings(before.ups[c.name := Shown(local, c.data, field, model)],
               before.has || Present(c.data, field, model),
               before.differs || Flags(local, c.data, field, model))
  }

  lemma FoundNext(local: Value, channels: seq<Channel>, field: Field, model: string, k: nat, before: Findings)
    requires k < |channels| && before == Found(local, channels[..k], field, model)
    ensures var c := channels[k];
            Found(local, channels[..k + 1], field, model) ==
            Findings(before.ups[c.name := Shown(local, c.data, field, model)],
                     before.has || Present(c.data, field, model),
                     before.differs || Flags(local, c.data, field, model))
  {
    assert channels[..k + 1][..k] == channels[..k];
  }

  lemma {:induction false} FoundIs(local: Value, channels: seq<Channel>, field: Field, model: string, k: nat, r: Findings)
    requires k <= |channels| && r == Found(local, channels[..k], field, model)
    ensures r.ups == ShownAll(local, channels[..k], field, model)
    ensures r.has == AnyPresent(channels[..k], field, model)
    ensures r.differs == AnyFlags(local, channels[..k], field, model)
  {
    if k > 0 {
      var before := Found(local, channels[..k - 1], field, model);
      FoundIs(local, channels, field, model, k - 1, before);
      FoundNext(local, channels, field, model, k - 1, before);
      ShownAllNext(local, channels, field, model, k - 1);
      AnyPresentNext(channels, field, model, k - 1);
      AnyFlagsNext(local, channels, field, model, k - 1);
    }
  }

  method CompareAll(local: Value, channels: seq<Channel>, field: Field, model: string)
    returns (ups: map<string, Value>, has: bool, differs: bool)
    ensures ups == ShownAll(local, channels, field, model)
    ensures has == AnyPresent(channels, field, model)
    ensures differs == AnyFlags(local, channels, field, model)
  {
    ups, has, differs := map[], false, false;
    for k := 0 to |channels|
      invariant Findings(ups, has, differs) == Found(local, channels[..k], field, model)
    {
      FoundNext(local, channels, field, model, k, Findings(ups, has, differs));
      var shown, present, flags := CompareOne(local, channels[k].data, field, model);
      ups := ups[channels[k].name := shown];
      has, differs := has || present, differs || flags;
    }
    FoundIs(local, channels, field, model, |channels|, Findings(ups, has, differs));
    assert channels[..|channels|] == channels;
  }

  /** The trust of the first `k` channels' names, read off the confidence map. */
  function TrustFor(conf: map<string, map<string, bool>>, names: set<string>, model: string): map<string, bool> {
    map c | c in names && c in conf && model in conf[c] :: conf[c][model]
  }

  lemma TrustForAll(channels: seq<Channel>, models: set<string>, model: string)
    requires model in models
    ensures TrustFor(TrustMaps(channels, models), Names(channels), model) == TrustedAll(channels, model)
  {
  }

  method ReadConfidence(conf: map<string, map<string, bool>>, channels: seq<Channel>, model: string)
    returns (trust: map<string, bool>)
    requires forall k :: 0 <= k < |channels| ==> channels[k].name in conf && model in conf[channels[k].name]
    ensures trust == TrustFor(conf, Names(channels), model)
  {
    trust := map[];
    for k := 0 to |channels|
      invariant trust == TrustFor(conf, Names(channels[..k]), model)
    {
      NamesNext(channels, k);
      trust := trust[channels[k].name := conf[channels[k].name][model]];
    }
    assert channels[..|channels|] == channels;
  }

  method ConfidenceValues(conf: map<string, map<string, bool>>, channels: seq<Channel>, models: set<string>,
                          model: string)
    returns (trust: map<string, bool>)
    requires conf == TrustMaps(channels, models) && model in models
    ensures trust == TrustedAll(channels, model)
  {
    TrustForAll(channels, models, model);
    forall k | 0 <= k < |channels| ensures channels[k].name in conf && model in conf[channels[k].name] {
      assert channels[k].name in Names(channels);
    }
    trust := ReadConfidence(conf, channels, model);
  }

  // The differences of one model, and of all models

  method CompareField(local: Pricing, channels: seq<Channel>, conf: map<string, map<string, bool>>, models: set<string>,
                      field: Field, model: string)
    returns (wanted: bool, item: Item)
    requires conf == TrustMaps(channels, models) && model in models
    ensures wanted == Included(local, channels, field, model)
    ensures item == RawItem(local, channels, field, model)
  {
    var current := Null;
    if model in Entries(local, field) {
      current := Normalize(field, Entries(local, field)[model]);
    }
    var ups, has, differs := CompareAll(current, channels, field, model);
    var trust := ConfidenceValues(conf, channels, models, model);
    wanted := if current != Null then differs else has;
    item := Item(current, ups, trust);
  }

  function RowUpTo(local: Pricing, channels: seq<Channel>, model: string, fields: seq<Field>): map<Field, Item> {
    map f | f in fields && Included(local, channels, f, model) :: RawItem(local, channels, f, model)
  }

  lemma RowNext(local: Pricing, channels: seq<Channel>, model: string, fields: seq<Field>, k: nat)
    requires k < |fields|
    ensures RowUpTo(local, channels, model, fields[..k + 1]) ==
            if Included(local, channels, fields[k], model)
            then RowUpTo(local, channels, model, fields[..k])[fields[k] := RawItem(local, channels, fields[k], model)]
            else RowUpTo(local, channels, model, fields[..k])
  {
    assert fields[..k + 1] == fields[..k] + [fields[k]];
  }

  method BuildFields(local: Pricing, channels: seq<Channel>, conf: map<string, map<string, bool>>, models: set<string>,
                     model: string, fields: seq<Field>)
    returns (row: map<Field, Item>)
    requires conf == TrustMaps(channels, models) && model in models
    ensures row == RowUpTo(local, channels, model, fields)
  {
    row := map[];
    for k := 0 to |fields|
      invariant row == RowUpTo(local, channels, model, fields[..k])
    {
      RowNext(local, channels, model, fields, k);
      var wanted, item := CompareField(local, channels, conf, models, fields[k], model);
      if wanted {
        row := row[fields[k] := item];
      }
    }
    assert fields[..|fields|] == fields;
  }

  lemma FullRow(local: Pricing, channels: seq<Channel>, model: string)
    ensures RowUpTo(local, channels, model, FIELDS) == RawRow(local, channels, model)
  {
    forall f: Field ensures f in FIELDS {
      EveryField(f);
    }
  }

  method BuildRow(local: Pricing, channels: seq<Channel>, conf: map<string, map<string, bool>>, models: set<string>,
                  model: string)
    returns (row: map<Field, Item>)
    requires conf == TrustMaps(channels, models) && model in models
    ensures row == RawRow(local, channels, model)
  {
    row := BuildFields(local, channels, conf, models, model, FIELDS);
    FullRow(local, channels, model);
  }

  function Rows(local: Pricing, channels: seq<Channel>, models: set<string>): Differences {
    map m | m in models :: RawRow(local, channels, m)
  }

  function NonEmpty(d: Differences): Differences {
    map m | m in d && d[m] != map[] :: d[m]
  }

  lemma RowsNonEmpty(local: Pricing, channels: seq<Channel>, models: set<string>)
    ensures RawOver(local, channels, models) == NonEmpty(Rows(local, channels, models))
  {
  }

  lemma RowsNext(local: Pricing, channels: seq<Channel>, done: set<string>, m: string)
    ensures Rows(local, channels, done + {m}) == Rows(local, channels, done)[m := RawRow(local, channels, m)]
  {
  }

  lemma NonEmptyNext(d: Differences, m: string, row: map<Field, Item>)
    requires m !in d
    ensures NonEmpty(d[m := row]) == if row == map[] then NonEmpty(d) else NonEmpty(d)[m := row]
  {
  }

  lemma RawOverNext(local: Pricing, channels: seq<Channel>, done: set<string>, m: string, row: map<Field, Item>)
    requires m !in done && row == RawRow(local, channels, m)
    ensures RawOver(local, channels, done + {m}) ==
            if row == map[] then RawOver(local, channels, done) else RawOver(local, channels, done)[m := row]
  {
    RowsNonEmpty(local, channels, done);
    RowsNonEmpty(local, channels, done + {m});
    RowsNext(local, channels, done, m);
    NonEmptyNext(Rows(local, channels, done), m, row);
  }

  /** One more model is done. */
  lemma RawOverStep(local: Pricing, channels: seq<Channel>, models: set<string>, todo: set<string>, m: string,
                    row: map<Field, Item>, d: Differences)
    requires m in todo && todo <= models && row == RawRow(local, channels, m)
    requires d == RawOver(local, channels, models - todo)
    ensures RawOver(local, channels, models - (todo - {m})) == if row == map[] then d else d[m := row]
  {
    assert models - (todo - {m}) == (models - todo) + {m};
    RawOverNext(local, channels, models - todo, m, row);
  }

  method BuildRawOver(local: Pricing, channels: seq<Channel>, conf: map<string, map<string, bool>>, models: set<string>)
    returns (d: Differences)
    requires conf == TrustMaps(channels, models)
    ensures d == RawOver(local, channels, models)
  {
    d := map[];
    var todo := models;
    while todo != {}
      invariant todo <= models
      invariant d == RawOver(local, channels, models - todo)
      decreases |todo|
    {
      var m :| m in todo;
      var row := BuildRow(local, channels, conf, models, m);
      RawOverStep(local, channels, models, todo, m, row, d);
      if row != map[] {
        d := d[m := row];
      }
      todo := todo - {m};
    }
    assert models - todo == models;
  }

  method BuildRaw(local: Pricing, channels: seq<Channel>) returns (d: Differences)
    ensures d == Raw(local, channels)
  {
    var models := AllModels(local, channels);
    var conf := ConfidenceMap(channels, models);
    d := BuildRawOver(local, channels, conf, models);
  }

  // Pruning

  method RealChannels(upstreams: map<string, Value>, found: set<string>) returns (all: set<string>)
    ensures all == found + set c | c in upstreams && Real(upstreams[c])
  {
    all := found;
    var todo := upstreams.Keys;
    while todo != {}
      invariant todo <= upstreams.Keys
      invariant all == found + set c | c in upstreams && c !in todo && Real(upstreams[c])
      decreases |todo|
    {
      var c :| c in todo;
      if upstreams[c] != Null && upstreams[c] != SAME {
        all := all + {c};
      }
      todo := todo - {c};
    }
  }

  method RealInRow(row: map<Field, Item>, found: set<string>) returns (all: set<string>)
    ensures all == found + InvolvedInRow(row)
  {
    all := found;
    var todo := row.Keys;
    while todo != {}
      invariant todo <= row.Keys
      invariant all == found + set f, c | f in row && f !in todo && c in RealIn(row[f]) :: c
      decreases |todo|
    {
      var f :| f in todo;
      all := RealChannels(row[f].upstreams, all);
      assert RealIn(row[f]) == set c | c in row[f].upstreams && Real(row[f].upstreams[c]);
      todo := todo - {f};
    }
  }

  /** The channels with a real difference somewhere (channelHasDiff). */
  method InvolvedChannels(d: Differences) returns (all: set<string>)
    ensures all == Involved(d)
  {
    all := {};
    var todo := d.Keys;
    while todo != {}
      invariant todo <= d.Keys
      invariant all == set m, c | m in d && m !in todo && c in InvolvedInRow(d[m]) :: c
      decreases |todo|
    {
      var m :| m in todo;
      all := RealInRow(d[m], all);
      todo := todo - {m};
    }
  }

  method DropChannels(item: Item, keep: set<string>) returns (r: Item)
    requires item.upstreams.Keys == item.confidence.Keys
    ensures r == KeepChannels(item, keep)
  {
    var ups, conf := item.upstreams, item.confidence;
    var todo := item.upstreams.Keys;
    while todo != {}
      invariant todo <= item.upstreams.Keys
      invariant ups == map c | c in item.upstreams && (c in keep || c in todo) :: item.upstreams[c]
      invariant conf == map c | c in item.confidence && (c in keep || c in todo) :: item.confidence[c]
      decreases |todo|
    {
      var c :| c in todo;
      if c !in keep {
        ups, conf := ups - {c}, conf - {c};
      }
      todo := todo - {c};
    }
    r := Item(item.current, ups, conf);
  }

  method CheckAllSame(upstreams: map<string, Value>) returns (same: bool)
    ensures same == AllSame(upstreams)
  {
    var todo := upstreams.Keys;
    while todo != {}
      invariant todo <= upstreams.Keys
      invariant forall c :: c in upstreams && c !in todo ==> upstreams[c] == SAME
      decreases |todo|
    {
      var c :| c in todo;
      if upstreams[c] != SAME {
        return false;
      }
      todo := todo - {c};
    }
    return true;
  }

  ghost predicate Paired(row: map<Field, Item>) {
    forall f :: f in row ==> row[f].upstreams.Keys == row[f].confidence.Keys
  }

  function PrunedFields(row: map<Field, Item>, keep: set<string>, fields: set<Field>): map<Field, Item>
    requires fields <= row.Keys
  {
    map f | f in fields && !AllSame(KeepChannels(row[f], keep).upstreams) :: KeepChannels(row[f], keep)
  }

  lemma PrunedFieldsNext(row: map<Field, Item>, keep: set<string>, done: set<Field>, f: Field, item: Item)
    requires done <= row.Keys && f in row && f !in done && item == KeepChannels(row[f], keep)
    ensures PrunedFields(row, keep, done + {f}) ==
            if AllSame(item.upstreams) then PrunedFields(row, keep, done) else PrunedFields(row, keep, done)[f := item]
  {
  }

  method PruneRow(row: map<Field, Item>, keep: set<string>) returns (r: map<Field, Item>)
    requires Paired(row)
    ensures r == PrunedRow(row, keep)
  {
    r := map[];
    var todo := row.Keys;
    while todo != {}
      invariant todo <= row.Keys
      invariant r == PrunedFields(row, keep, row.Keys - todo)
      decreases |todo|
    {
      var f :| f in todo;
      var item := DropChannels(row[f], keep);
      var same := CheckAllSame(item.upstreams);
      PrunedFieldsNext(row, keep, row.Keys - todo, f, item);
      assert row.Keys - (todo - {f}) == (row.Keys - todo) + {f};
      if !same {
        r := r[f := item];
      }
      todo := todo - {f};
    }
    assert row.Keys - todo == row.Keys;
  }

  lemma PrunedOverNext(d: Differences, keep: set<string>, done: set<string>, m: string, row: map<Field, Item>)
    requires done <= d.Keys && m !in done && m in d && row == PrunedRow(d[m], keep)
    ensures PrunedOver(d, keep, done + {m}) ==
            if row == map[] then PrunedOver(d, keep, done) else PrunedOver(d, keep, done)[m := row]
  {
  }

  method Prune(d: Differences, keep: set<string>) returns (r: Differences)
    requires forall m :: m in d ==> Paired(d[m])
    ensures r == Pruned(d, keep)
  {
    r := map[];
    var todo := d.Keys;
    while todo != {}
      invariant todo <= d.Keys
      invariant r == PrunedOver(d, keep, d.Keys - todo)
      decreases |todo|
    {
      var m :| m in todo;
      var row := PruneRow(d[m], keep);
      PrunedOverNext(d, keep, d.Keys - todo, m, row);
      assert d.Keys - (todo - {m}) == (d.Keys - todo) + {m};
      if row != map[] {
        r := r[m := row];
      }
      todo := todo - {m};
    }
    assert d.Keys - todo == d.Keys;
  }

  lemma ItemPaired(local: Pricing, channels: seq<Channel>, field: Field, model: string)
    ensures var item := RawItem(local, channels, field, model);
            item.upstreams.Keys == item.confidence.Keys == Names(channels)
  {
  }

  lemma RawPaired(local: Pricing, channels: seq<Channel>, m: string)
    requires m in Raw(local, channels)
    ensures Paired(Raw(local, channels)[m])
  {
    var row := Raw(local, channels)[m];
    forall f | f in row ensures row[f].upstreams.Keys == row[f].confidence.Keys {
      RawHolds(local, channels, m, f);
      ItemPaired(local, channels, f, m);
    }
  }

  /** buildDifferences. */
  method BuildDifferences(local: Pricing, channels: seq<Channel>) returns (d: Differences)
    ensures d == Report(local, channels)
  {
    var raw := BuildRaw(local, channels);
    var keep := InvolvedChannels(raw);
    forall m | m in raw ensures Paired(raw[m]) {
      RawPaired(local, channels, m);
    }
    d := Prune(raw, keep);
  }
}
