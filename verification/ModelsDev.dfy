/**
 Choosing one provider's price per model from models.dev data: prefer a non-zero price, then the
 cheaper one unless the two differ by less than an epsilon, then the smaller provider name. The
 comparison is a fold over the providers and is not transitive.
 */
module ModelsDev {
  import opened MachineTypes
  import opened Options

  datatype Cost = Cost(input: Option<Float>, output: Option<Float>, cacheRead: Option<Float>)

  datatype Candidate = Candidate(provider: string, input: real, output: Option<real>, cacheRead: Option<real>)

  const EPSILON := 0.000000001

  predicate ValidNonNegative(f: Float) {
    f.Fin? && f.r >= 0.0
  }

  /** buildModelsDevCandidate. */
  function BuildCandidate(provider: string, cost: Cost): (r: Option<Candidate>)
    ensures r.Some? ==> r.value.provider == provider && cost.input == Some(Fin(r.value.input)) && r.value.input >= 0.0
    ensures r.Some? && r.value.input == 0.0 && r.value.output.Some? ==> r.value.output.value == 0.0
  {
    if cost.input.None? || !ValidNonNegative(cost.input.value) then None
    else
      var input := cost.input.value.r;
      if cost.output.Some? && !ValidNonNegative(cost.output.value) then None
      else
        var output := if cost.output.Some? then Some(cost.output.value.r) else None;
        if input == 0.0 && output.Some? && output.value > 0.0 then None
        else
          var cacheRead :=
            if cost.cacheRead.Some? && ValidNonNegative(cost.cacheRead.value) then Some(cost.cacheRead.value.r) else None;
          Some(Candidate(provider, input, output, cacheRead))
  }

  predicate NearlyEqual(a: real, b: real) {
    if a > b then a - b < EPSILON else b - a < EPSILON
  }

  /** Go's string order. */
  predicate Less(a: string, b: string) {
    if b == "" then false
    else if a == "" then true
    else a[0] < b[0] || (a[0] == b[0] && Less(a[1..], b[1..]))
  }

  lemma {:induction false} LessTotal(a: string, b: string)
    ensures Less(a, b) || Less(b, a) || a == b
    ensures !(Less(a, b) && Less(b, a)) && !Less(a, a)
    decreases |a| + |b|
  {
    if a != "" {
      LessIrreflexive(a);
    }
    if a != "" && b != "" {
      LessTotal(a[1..], b[1..]);
      assert a == [a[0]] + a[1..] && b == [b[0]] + b[1..];
    }
  }

  lemma {:induction false} LessIrreflexive(a: string)
    ensures !Less(a, a)
    decreases |a|
  {
    if a != "" {
      LessIrreflexive(a[1..]);
    }
  }

  lemma {:induction false} LessTransitive(a: string, b: string, c: string)
    requires Less(a, b) && Less(b, c)
    ensures Less(a, c)
    decreases |a|
  {
    if a != "" && a[0] == b[0] == c[0] {
      LessTransitive(a[1..], b[1..], c[1..]);
    }
  }

  /** shouldReplaceModelsDevCandidate. */
  predicate ShouldReplace(current: Candidate, next: Candidate) {
    if (current.input > 0.0) != (next.input > 0.0) then next.input > 0.0
    else if next.input > 0.0 && !NearlyEqual(next.input, current.input) then next.input < current.input
    else Less(next.provider, current.provider)
  }

  /** The selection over the candidates of one model, in visiting order. */
  function Select(cs: seq<Candidate>): (r: Candidate)
    requires |cs| > 0
    ensures r in cs
  {
    if |cs| == 1 then cs[0]
    else
      var current := Select(cs[..|cs| - 1]);
      if ShouldReplace(current, cs[|cs| - 1]) then cs[|cs| - 1] else current
  }

  // The comparison is a tournament: of two providers exactly one wins

  lemma OneWins(a: Candidate, b: Candidate)
    requires a.provider != b.provider
    ensures ShouldReplace(a, b) <==> !ShouldReplace(b, a)
  {
    LessTotal(a.provider, b.provider);
  }

  ghost predicate DistinctProviders(s: set<Candidate>) {
    forall a, b :: a in s && b in s && a.provider == b.provider ==> a == b
  }

  /** `w` wins the direct comparison with every other candidate. */
  ghost predicate BeatsAll(w: Candidate, s: set<Candidate>) {
    w in s && forall x :: x in s && x != w ==> !ShouldReplace(w, x)
  }

  /** A visiting order of the candidates. */
  ghost predicate Arranges(cs: seq<Candidate>, s: set<Candidate>) {
    |cs| == |s| && forall x :: x in cs <==> x in s
  }

  /** The selection picks `w` in every visiting order. */
  ghost predicate AlwaysPicks(w: Candidate, s: set<Candidate>) {
    forall cs :: Arranges(cs, s) && |cs| > 0 ==> Select(cs) == w
  }

  lemma {:induction false} WinnerIsSelected(cs: seq<Candidate>, s: set<Candidate>, w: Candidate)
    requires DistinctProviders(s) && BeatsAll(w, s)
    requires w in cs && forall x :: x in cs ==> x in s
    ensures Select(cs) == w
    decreases |cs|
  {
    if |cs| > 1 {
      var init, last := cs[..|cs| - 1], cs[|cs| - 1];
      assert forall x :: x in cs <==> x in init || x == last;
      if w in init {
        WinnerIsSelected(init, s, w);
      } else {
        assert w == last && Select(init) in s;
        OneWins(w, Select(init));
      }
    }
  }

  lemma {:induction false} SomeArrangement(s: set<Candidate>) returns (cs: seq<Candidate>)
    ensures Arranges(cs, s)
    decreases |s|
  {
    if s == {} {
      cs := [];
    } else {
      var x :| x in s;
      cs := SomeArrangement(s - {x});
      cs := cs + [x];
    }
  }

  lemma PickedBeats(s: set<Candidate>, w: Candidate, y: Candidate)
    requires DistinctProviders(s) && w in s && y in s && y != w && AlwaysPicks(w, s)
    ensures !ShouldReplace(w, y)
  {
    var cs := SomeArrangement(s - {y});
    var all := cs + [y];
    assert Arranges(all, s);
    assert w in s - {y};
    assert all[..|all| - 1] == cs;
    assert Select(all) == w;
  }

  /** The choice does not depend on the visiting order exactly when one candidate wins every direct
      comparison, and then it is that candidate. */
  lemma OrderIndependentIff(s: set<Candidate>, w: Candidate)
    requires DistinctProviders(s) && w in s
    ensures AlwaysPicks(w, s) <==> BeatsAll(w, s)
  {
    if BeatsAll(w, s) {
      forall cs | Arranges(cs, s) && |cs| > 0 ensures Select(cs) == w {
        WinnerIsSelected(cs, s, w);
      }
    }
    if AlwaysPicks(w, s) {
      forall x | x in s && x != w ensures !ShouldReplace(w, x) {
        PickedBeats(s, w, x);
      }
    }
  }

  // Prices that are equal or an epsilon apart

  ghost predicate Separated(s: set<Candidate>) {
    forall a, b :: a in s && b in s && a.input > 0.0 && b.input > 0.0 && NearlyEqual(a.input, b.input) ==> a.input == b.input
  }

  lemma BeatsTransitive(a: Candidate, b: Candidate, c: Candidate)
    requires Separated({a, b, c}) && a.provider != b.provider && b.provider != c.provider && a.provider != c.provider
    requires a.input >= 0.0 && b.input >= 0.0 && c.input >= 0.0
    requires ShouldReplace(b, a) && ShouldReplace(c, b)
    ensures ShouldReplace(c, a)
  {
    if Less(a.provider, b.provider) && Less(b.provider, c.provider) {
      LessTransitive(a.provider, b.provider, c.provider);
    }
  }

  /** A candidate that beats the winner so far beats everything the winner beat. */
  lemma BeatsWhatItsLoserBeats(s: set<Candidate>, x: Candidate, v: Candidate, y: Candidate)
    requires DistinctProviders(s) && Separated(s) && forall z :: z in s ==> z.input >= 0.0
    requires x in s && v in s && y in s && y != x && v != x && ShouldReplace(v, x)
    requires y != v ==> !ShouldReplace(v, y)
    ensures !ShouldReplace(x, y)
  {
    OneWins(x, y);
    if y != v {
      OneWins(v, y);
      BeatsTransitive(x, v, y);
    }
  }

  /** With separated prices there is a candidate that wins every comparison, so the visiting order is
      irrelevant. */
  lemma {:induction false} SeparatedHasWinner(s: set<Candidate>) returns (w: Candidate)
    requires s != {} && DistinctProviders(s) && Separated(s) && forall x :: x in s ==> x.input >= 0.0
    ensures BeatsAll(w, s)
    decreases |s|
  {
    var x :| x in s;
    var rest := s - {x};
    if rest == {} {
      w := x;
      assert s == {x};
    } else {
      var v := SeparatedHasWinner(rest);
      OneWins(v, x);
      if ShouldReplace(v, x) {
        w := x;
        forall y | y in s && y != x ensures !ShouldReplace(x, y) {
          BeatsWhatItsLoserBeats(s, x, v, y);
        }
      } else {
        w := v;
      }
    }
  }

  /** The winner of separated prices has the lowest non-zero one, if there is a non-zero one. */
  lemma WinnerPrice(s: set<Candidate>, w: Candidate, x: Candidate)
    requires BeatsAll(w, s) && Separated(s) && x in s && x.input > 0.0
    ensures 0.0 < w.input <= x.input
  {
    assert x == w || !ShouldReplace(w, x);
  }

  /** With separated prices every visiting order picks the same candidate, at the lowest non-zero price if
      there is one. */
  lemma SeparatedChoice(s: set<Candidate>) returns (w: Candidate)
    requires s != {} && DistinctProviders(s) && Separated(s) && forall x :: x in s ==> x.input >= 0.0
    ensures w in s && AlwaysPicks(w, s)
    ensures forall x :: x in s && x.input > 0.0 ==> 0.0 < w.input <= x.input
  {
    w := SeparatedHasWinner(s);
    OrderIndependentIff(s, w);
    forall x | x in s && x.input > 0.0 ensures 0.0 < w.input <= x.input {
      WinnerPrice(s, w, x);
    }
  }

  /** Three prices within an epsilon of their neighbours can beat each other in a circle; then the
      choice depends on the order, and may lie more than an epsilon above the cheapest. */
  lemma EpsilonCycle()
    ensures var a := Candidate("c", 1.0, None, None);
            var b := Candidate("b", 1.0000000006, None, None);
            var c := Candidate("a", 1.0000000012, None, None);
            && ShouldReplace(a, b) && ShouldReplace(b, c) && ShouldReplace(c, a)
            && Select([a, b, c]) == c && Select([b, c, a]) == a
            && c.input - a.input >= EPSILON
  {
    var a := Candidate("c", 1.0, None, None);
    var b := Candidate("b", 1.0000000006, None, None);
    var c := Candidate("a", 1.0000000012, None, None);
    assert Less("b", "c") && Less("a", "b");
    assert [a, b, c][..2] == [a, b] && [a, b][..1] == [a];
    assert [b, c, a][..2] == [b, c] && [b, c][..1] == [b];
    assert Select([a, b]) == b && Select([b, c]) == c;
  }

  // The order the code uses: ascending provider names

  ghost predicate ByProvider(cs: seq<Candidate>) {
    forall i, j :: 0 <= i < j < |cs| ==> Less(cs[i].provider, cs[j].provider)
  }

  /** In provider order the selected price is within an epsilon of the cheapest non-zero price, for all
      prices, and it is zero only if every price is. */
  lemma {:induction false} SelectedPrice(cs: seq<Candidate>, c: Candidate)
    requires |cs| > 0 && ByProvider(cs) && c in cs && c.input > 0.0
    ensures 0.0 < Select(cs).input < c.input + EPSILON
    decreases |cs|
  {
    if |cs| > 1 {
      var init, last := cs[..|cs| - 1], cs[|cs| - 1];
      var current := Select(init);
      LessTotal(last.provider, current.provider);
      if c in init {
        SelectedPrice(init, c);
      } else {
        assert c == last;
      }
    }
  }

  // The loops of convertModelsDevToRatioData

  type Data = map<string, map<string, Cost>>

  ghost predicate Ascending(names: seq<string>) {
    forall i, j :: 0 <= i < j < |names| ==> Less(names[i], names[j])
  }

  /** sort.Strings over the keys of a map. */
  method SortKeys(keys: set<string>) returns (sorted: seq<string>)
    ensures Ascending(sorted) && forall k :: k in sorted <==> k in keys
  {
    sorted := [];
    var rest := keys;
    while rest != {}
      invariant rest <= keys && Ascending(sorted)
      invariant forall k :: k in sorted <==> k in keys && k !in rest
      decreases rest
    {
      var k :| k in rest;
      sorted := Insert(sorted, k);
      rest := rest - {k};
    }
  }

  method Insert(sorted: seq<string>, k: string) returns (r: seq<string>)
    requires Ascending(sorted) && k !in sorted
    ensures Ascending(r) && forall x :: x in r <==> x in sorted || x == k
  {
    var i := 0;
    while i < |sorted| && Less(sorted[i], k)
      invariant 0 <= i <= |sorted|
      invariant forall j :: 0 <= j < i ==> Less(sorted[j], k)
    {
      i := i + 1;
    }
    InsertionPoint(sorted, i, k);
    r := sorted[..i] + [k] + sorted[i..];
    assert sorted == sorted[..i] + sorted[i..];
  }

  lemma InsertionPoint(sorted: seq<string>, i: nat, k: string)
    requires Ascending(sorted) && i <= |sorted| && k !in sorted
    requires forall j :: 0 <= j < i ==> Less(sorted[j], k)
    requires i < |sorted| ==> !Less(sorted[i], k)
    ensures Ascending(sorted[..i] + [k] + sorted[i..])
  {
    forall j | i <= j < |sorted| ensures Less(k, sorted[j]) {
      LessTotal(k, sorted[i]);
      if i < j {
        LessTransitive(k, sorted[i], sorted[j]);
      }
    }
    var r := sorted[..i] + [k] + sorted[i..];
    assert forall j :: 0 <= j < |r| ==> r[j] == if j < i then sorted[j] else if j == i then k else sorted[j - 1];
  }

  /** The valid candidates for a model, in the order of the given providers. */
  function CandidatesOf(data: Data, providers: seq<string>, m: string): seq<Candidate> {
    if providers == [] then []
    else
      var p := providers[|providers| - 1];
      CandidatesOf(data, providers[..|providers| - 1], m) + Offer(data, p, m)
  }

  function Offer(data: Data, p: string, m: string): seq<Candidate> {
    if p in data && m in data[p] && BuildCandidate(p, data[p][m]).Some?
    then [BuildCandidate(p, data[p][m]).value] else []
  }

  lemma {:induction false} CandidatesOrdered(data: Data, providers: seq<string>, m: string)
    requires Ascending(providers)
    ensures ByProvider(CandidatesOf(data, providers, m))
    ensures forall c :: c in CandidatesOf(data, providers, m) ==> c.provider in providers
    decreases |providers|
  {
    if providers != [] {
      var init, p := providers[..|providers| - 1], providers[|providers| - 1];
      CandidatesOrdered(data, init, m);
      var cs := CandidatesOf(data, init, m);
      forall i | 0 <= i < |cs| ensures Less(cs[i].provider, p) {
        assert cs[i] in cs;
      }
    }
  }

  /** The selection so far for a model is the fold over its candidates so far. */
  ghost predicate Selected(selected: map<string, Candidate>, m: string, cs: seq<Candidate>) {
    && (m in selected <==> cs != [])
    && (m in selected ==> selected[m] == Select(cs))
  }

  /** One iteration of the inner loop. */
  method Consider(before: map<string, Candidate>, m: string, candidate: Option<Candidate>, ghost cs: seq<Candidate>)
    returns (selected: map<string, Candidate>)
    requires Selected(before, m, cs)
    ensures Selected(selected, m, cs + if candidate.Some? then [candidate.value] else [])
    ensures selected - {m} == before - {m}
  {
    selected := before;
    if candidate.Some? && (m !in selected || ShouldReplace(selected[m], candidate.value)) {
      selected := selected[m := candidate.value];
    }
    if candidate.Some? {
      assert (cs + [candidate.value])[..|cs|] == cs;
    } else {
      assert cs + [] == cs;
    }
  }

  lemma SelectedElsewhere(a: map<string, Candidate>, b: map<string, Candidate>, m: string, k: string, cs: seq<Candidate>)
    requires a - {m} == b - {m} && k != m && Selected(a, k, cs)
    ensures Selected(b, k, cs)
  {
    assert k in a <==> k in a - {m};
    assert k in b <==> k in b - {m};
    assert k in a ==> a[k] == (a - {m})[k] && b[k] == (b - {m})[k];
  }

  /** The candidates for `m` once `p` is visited, or before it while `m` is still to do. */
  ghost function Visited(data: Data, p: string, providers: seq<string>, todo: set<string>, m: string): seq<Candidate> {
    CandidatesOf(data, providers, m) + if m in todo then [] else Offer(data, p, m)
  }

  method AddProvider(data: Data, p: string, before: map<string, Candidate>, ghost providers: seq<string>)
    returns (selected: map<string, Candidate>)
    requires p in data
    requires forall m :: Selected(before, m, CandidatesOf(data, providers, m))
    ensures forall m :: Selected(selected, m, CandidatesOf(data, providers, m) + Offer(data, p, m))
  {
    selected := before;
    var names := data[p].Keys;
    forall m ensures Selected(selected, m, Visited(data, p, providers, names, m)) {
      assert Visited(data, p, providers, names, m) == CandidatesOf(data, providers, m);
    }
    while names != {}
      invariant names <= data[p].Keys
      invariant forall m :: Selected(selected, m, Visited(data, p, providers, names, m))
      decreases names
    {
      var m :| m in names;
      ghost var cs, prior := CandidatesOf(data, providers, m), selected;
      assert Visited(data, p, providers, names, m) == cs;
      selected := Consider(selected, m, BuildCandidate(p, data[p][m]), cs);
      forall k | k != m ensures Selected(selected, k, Visited(data, p, providers, names - {m}, k)) {
        SelectedElsewhere(prior, selected, m, k, Visited(data, p, providers, names, k));
      }
      names := names - {m};
    }
    forall m ensures Selected(selected, m, CandidatesOf(data, providers, m) + Offer(data, p, m)) {
      assert Selected(selected, m, Visited(data, p, providers, names, m));
    }
  }

  /** The error results of the conversion. */
  datatype Outcome = EmptyResponse | NoValidEntries | Chosen(candidates: map<string, Candidate>)

  /** The fold over all providers, visited in order. */
  method FoldProviders(data: Data, providers: seq<string>) returns (selected: map<string, Candidate>)
    requires forall p :: p in providers ==> p in data
    ensures forall m :: Selected(selected, m, CandidatesOf(data, providers, m))
  {
    selected := map[];
    var i := 0;
    while i < |providers|
      invariant 0 <= i <= |providers|
      invariant forall m :: Selected(selected, m, CandidatesOf(data, providers[..i], m))
    {
      selected := AddProvider(data, providers[i], selected, providers[..i]);
      NextProvider(data, providers, i);
      i := i + 1;
    }
    assert providers[..i] == providers;
  }

  lemma NextProvider(data: Data, providers: seq<string>, i: nat)
    requires i < |providers|
    ensures forall m :: CandidatesOf(data, providers[..i + 1], m) ==
                        CandidatesOf(data, providers[..i], m) + Offer(data, providers[i], m)
  {
    assert providers[..i + 1][..i] == providers[..i];
  }

  lemma NothingSelected(data: Data, providers: seq<string>, selected: map<string, Candidate>)
    requires forall m :: Selected(selected, m, CandidatesOf(data, providers, m))
    ensures |selected| == 0 <==> forall m :: CandidatesOf(data, providers, m) == []
  {
    if |selected| == 0 {
      forall m ensures CandidatesOf(data, providers, m) == [] {
        assert Selected(selected, m, CandidatesOf(data, providers, m));
      }
    } else {
      var m :| m in selected;
      assert CandidatesOf(data, providers, m) != [];
    }
  }

  method SelectAll(data: Data) returns (outcome: Outcome, ghost providers: seq<string>)
    ensures Ascending(providers) && forall p :: p in providers <==> p in data
    ensures outcome.EmptyResponse? <==> |data| == 0
    ensures outcome.NoValidEntries? <==> |data| > 0 && forall m :: CandidatesOf(data, providers, m) == []
    ensures outcome.Chosen? ==> forall m :: Selected(outcome.candidates, m, CandidatesOf(data, providers, m))
  {
    var sorted := SortKeys(data.Keys);
    providers := sorted;
    if |data| == 0 {
      return EmptyResponse, providers;
    }
    var selected := FoldProviders(data, sorted);
    NothingSelected(data, sorted, selected);
    outcome := if |selected| == 0 then NoValidEntries else Chosen(selected);
  }

  /** What the conversion keeps for a model costs less than an epsilon more than its cheapest non-zero
      valid offer, and is free only if every valid offer is. */
  lemma ChosenPrice(data: Data, providers: seq<string>, m: string, p: string)
    requires Ascending(providers) && p in providers && p in data && m in data[p]
    requires BuildCandidate(p, data[p][m]).Some? && BuildCandidate(p, data[p][m]).value.input > 0.0
    ensures CandidatesOf(data, providers, m) != []
    ensures 0.0 < Select(CandidatesOf(data, providers, m)).input < BuildCandidate(p, data[p][m]).value.input + EPSILON
  {
    CandidatesOrdered(data, providers, m);
    OfferIsCandidate(data, providers, m, p);
    SelectedPrice(CandidatesOf(data, providers, m), BuildCandidate(p, data[p][m]).value);
  }

  lemma {:induction false} OfferIsCandidate(data: Data, providers: seq<string>, m: string, p: string)
    requires p in providers && p in data && m in data[p] && BuildCandidate(p, data[p][m]).Some?
    ensures BuildCandidate(p, data[p][m]).value in CandidatesOf(data, providers, m)
    decreases |providers|
  {
    if p != providers[|providers| - 1] {
      OfferIsCandidate(data, providers[..|providers| - 1], m, p);
    }
  }
}
