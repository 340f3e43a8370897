/**
 Detecting the difference between a channel's models and its upstream's, and applying selected parts
 of it. The stored pending lists are updated incrementally; the theorems say exactly when they stay
 equal to what a fresh detection would store.
 */
module UpstreamModels {
  import opened Text
  import opened ModelNames

  /** The stored fields of a channel that the update task reads and writes. */
  datatype Channel = Channel(models: string, ignored: Names, detected: Names, removed: Names)

  /** What the upstream reports, the channel's normalized redirects, and regexp.MatchString (false
      when the pattern does not compile). */
  datatype Upstream = Upstream(names: Names, mapping: map<string, string>, matches: (string, string) -> bool)

  const REGEX_PREFIX := "regex:"

  /** Channel.GetModels. */
  function GetModels(models: string): Names {
    if models == "" then [] else Split(TrimSep(models, ','), ',')
  }

  function LocalModels(c: Channel): (r: Names)
    ensures Normalized(r)
  {
    Normalize(GetModels(c.models))
  }

  function UpstreamNames(u: Upstream): (r: Names)
    ensures Normalized(r)
  {
    Normalize(u.names)
  }

  /** An ignore entry is a regular expression when it carries the prefix and a plain name otherwise. */
  predicate IgnoreHits(u: Upstream, entry: string, name: string) {
    if REGEX_PREFIX <= entry then u.matches(TrimSpace(entry[|REGEX_PREFIX|..]), name) else entry == name
  }

  predicate Ignored(u: Upstream, ignored: Names, name: string) {
    exists e :: e in Normalize(ignored) && IgnoreHits(u, e, name)
  }

  predicate PendingAdd(u: Upstream, local: Names, ignored: Names, name: string) {
    name !in local && name !in u.mapping.Values && !Ignored(u, ignored, name)
  }

  predicate PendingRemove(u: Upstream, name: string) {
    name !in u.mapping && name !in UpstreamNames(u)
  }

  /** collectPendingUpstreamModelChangesFromModels, the additions. */
  function DetectAdd(u: Upstream, local: Names, ignored: Names): Names {
    Keep(UpstreamNames(u), set n | n in UpstreamNames(u) && PendingAdd(u, local, ignored, n))
  }

  /** collectPendingUpstreamModelChangesFromModels, the removals. */
  function DetectRemove(u: Upstream, local: Names): Names {
    Keep(local, set n | n in local && PendingRemove(u, n))
  }

  /** checkAndPersistChannelUpstreamModelUpdates, when the upstream answers and the row is saved. */
  function Check(c: Channel, u: Upstream, auto: bool): Channel {
    var add, remove := DetectAdd(u, LocalModels(c), c.ignored), DetectRemove(u, LocalModels(c));
    if auto && |add| > 0 then
      var origin := LocalModels(c);
      var merged := Merge(origin, add);
      c.(models := if |merged| > |origin| then Join(merged, ',') else c.models, detected := [], removed := remove)
    else
      c.(detected := add, removed := remove)
  }

  /** What an apply request asks for, as typed by the administrator. */
  datatype Selection = Selection(add: Names, ignore: Names, remove: Names)

  function SelectedAdd(c: Channel, sel: Selection): Names {
    Intersect(sel.add, Normalize(c.detected))
  }

  function SelectedIgnore(c: Channel, sel: Selection): Names {
    Intersect(sel.ignore, Normalize(c.detected))
  }

  function SelectedRemove(c: Channel, sel: Selection): Names {
    Subtract(Intersect(sel.remove, Normalize(c.removed)), SelectedAdd(c, sel))
  }

  function NextModels(c: Channel, sel: Selection): Names {
    ApplySelected(LocalModels(c), SelectedAdd(c, sel), SelectedRemove(c, sel))
  }

  function IgnoredAfter(ignored: Names, ignore: Names, add: Names): Names {
    var merged := Merge(ignored, ignore);
    if |add| > 0 then Subtract(merged, add) else merged
  }

  function NextIgnored(c: Channel, sel: Selection): Names {
    IgnoredAfter(c.ignored, SelectedIgnore(c, sel), SelectedAdd(c, sel))
  }

  /** The channel with the given names added, ignored and removed. */
  function ApplyNames(c: Channel, add: Names, ignore: Names, remove: Names): Channel {
    var next := ApplySelected(LocalModels(c), add, remove);
    Channel(
      if next != LocalModels(c) then Join(next, ',') else c.models,
      IgnoredAfter(c.ignored, ignore, add),
      Subtract(Normalize(c.detected), add + ignore),
      Subtract(Normalize(c.removed), remove))
  }

  /** applyChannelUpstreamModelUpdates, when the row is saved. */
  function Apply(c: Channel, sel: Selection): Channel {
    ApplyNames(c, SelectedAdd(c, sel), SelectedIgnore(c, sel), SelectedRemove(c, sel))
  }

  /** The stored pending lists are what a fresh detection would store. */
  predicate Synced(c: Channel, u: Upstream) {
    c.detected == DetectAdd(u, LocalModels(c), c.ignored) && c.removed == DetectRemove(u, LocalModels(c))
  }

  /** Every name the upstream can offer survives the comma-separated models column and, used as an
      ignore entry, ignores itself and no other offered name. */
  ghost predicate Plain(u: Upstream) {
    && (forall n :: Offerable(u, n) ==> ',' !in n)
    && (forall n, m :: Offerable(u, n) && Offerable(u, m) ==> (IgnoreHits(u, n, m) <==> n == m))
  }

  predicate Offerable(u: Upstream, n: string) {
    n in UpstreamNames(u) && n !in u.mapping.Values
  }

  // The models column

  lemma {:induction false} LocalCommaFree(models: string, n: string)
    requires n in Normalize(GetModels(models))
    ensures ',' !in n
  {
    NormalizeMembers(GetModels(models), n);
    var x :| x in GetModels(models) && TrimsTo(x, n);
    var l := TrimSpaceLeft(x);
    assert n == TrimSpaceRight(l);
  }

  lemma GetModelsJoin(xs: Names)
    requires forall i :: 0 <= i < |xs| ==> xs[i] != "" && ',' !in xs[i]
    ensures GetModels(Join(xs, ',')) == xs
  {
    if xs != [] {
      JoinEnds(xs, ',');
      assert ',' !in xs[0] && ',' !in xs[|xs| - 1];
      SplitJoin(xs, ',');
    }
  }

  /** Writing a normalized comma-free list to the column and reading it back gives the list. */
  lemma ColumnRoundTrip(xs: Names)
    requires Normalized(xs) && forall i :: 0 <= i < |xs| ==> ',' !in xs[i]
    ensures Normalize(GetModels(Join(xs, ','))) == xs
  {
    GetModelsJoin(xs);
    NormalizeFixes(xs);
  }

  // One apply request on a synced channel

  lemma DetectedAre(c: Channel, u: Upstream)
    ensures Normalized(DetectAdd(u, LocalModels(c), c.ignored)) && Normalized(DetectRemove(u, LocalModels(c)))
    ensures forall n :: n in DetectAdd(u, LocalModels(c), c.ignored) <==>
                        n in UpstreamNames(u) && PendingAdd(u, LocalModels(c), c.ignored, n)
    ensures forall n :: n in DetectRemove(u, LocalModels(c)) <==> n in LocalModels(c) && PendingRemove(u, n)
  {
    KeepNormalized(UpstreamNames(u), set n | n in UpstreamNames(u) && PendingAdd(u, LocalModels(c), c.ignored, n));
    KeepNormalized(LocalModels(c), set n | n in LocalModels(c) && PendingRemove(u, n));
  }

  /** Which names each part of a request selects. */
  lemma SelectedAre(c: Channel, sel: Selection, u: Upstream)
    requires Synced(c, u)
    ensures Normalize(c.detected) == c.detected && Normalize(c.removed) == c.removed
    ensures Normalized(SelectedAdd(c, sel)) && Normalized(SelectedIgnore(c, sel)) && Normalized(SelectedRemove(c, sel))
    ensures forall n :: n in SelectedAdd(c, sel) ==> Offerable(u, n) && PendingAdd(u, LocalModels(c), c.ignored, n)
    ensures forall n :: n in SelectedIgnore(c, sel) ==> Offerable(u, n) && PendingAdd(u, LocalModels(c), c.ignored, n)
    ensures forall n :: n in SelectedRemove(c, sel) ==> n in LocalModels(c) && n !in UpstreamNames(u)
  {
    DetectedAre(c, u);
    NormalizeFixes(c.detected);
    NormalizeFixes(c.removed);
    IntersectNormalized(sel.add, c.detected);
    IntersectNormalized(sel.ignore, c.detected);
    IntersectNormalized(sel.remove, c.removed);
    NormalizeFixes(Intersect(sel.remove, c.removed));
    SubtractNormalized(Intersect(sel.remove, c.removed), SelectedAdd(c, sel));
  }

  /** The channel's models after the request: additions at the end, removals gone. */
  lemma NextModelsAre(c: Channel, sel: Selection, u: Upstream)
    requires Synced(c, u)
    ensures var l, a, r := LocalModels(c), SelectedAdd(c, sel), SelectedRemove(c, sel);
            NextModels(c, sel) == Keep(l, Members(l) - Members(r)) + a
    ensures Normalized(NextModels(c, sel))
  {
    var l, a, r := LocalModels(c), SelectedAdd(c, sel), SelectedRemove(c, sel);
    SelectedAre(c, sel, u);
    ApplySelectedMembers(l, a, r);
    NextModelsOrder(l, a, r);
  }

  lemma NextModelsOrder(l: Names, a: Names, r: Names)
    requires Normalized(l) && Normalized(a) && Normalized(r)
    requires forall n :: n in a ==> n !in l && n !in r
    ensures ApplySelected(l, a, r) == Keep(l, Members(l) - Members(r)) + a
  {
    NormalizeFixes(a);
    NormalizeFixes(r);
    MergeDisjoint(l, a);
    KeepAll(r, Members(r) - Members(a));
    assert Subtract(r, a) == r;
    ConcatNormalized(l, a);
    NormalizeFixes(l + a);
    var keep := Members(l + a) - Members(r);
    KeepConcat(l, a, keep);
    KeepSame(l, keep, Members(l) - Members(r));
    KeepAll(a, keep);
  }

  lemma LocalAfterApply(c: Channel, sel: Selection, u: Upstream)
    requires Synced(c, u) && forall n :: n in SelectedAdd(c, sel) ==> ',' !in n
    ensures LocalModels(Apply(c, sel)) == NextModels(c, sel)
  {
    var next := NextModels(c, sel);
    if next != LocalModels(c) {
      NextModelsAre(c, sel, u);
      SelectedAre(c, sel, u);
      forall i | 0 <= i < |next| ensures ',' !in next[i] {
        assert next[i] in next;
        if next[i] !in SelectedAdd(c, sel) {
          LocalCommaFree(c.models, next[i]);
        }
      }
      ColumnRoundTrip(next);
    }
  }

  lemma RemovalsStaySynced(c: Channel, sel: Selection, u: Upstream)
    requires Synced(c, u) && LocalModels(Apply(c, sel)) == NextModels(c, sel)
    ensures Apply(c, sel).removed == DetectRemove(u, LocalModels(Apply(c, sel)))
  {
    var l, a, r, next := LocalModels(c), SelectedAdd(c, sel), SelectedRemove(c, sel), NextModels(c, sel);
    SelectedAre(c, sel, u);
    NextModelsAre(c, sel, u);
    NormalizeFixes(r);
    var q := set n | n in l && PendingRemove(u, n);
    var q' := set n | n in next && PendingRemove(u, n);
    var left := Members(c.removed) - Members(r);
    NormalizeFixes(c.removed);
    assert Apply(c, sel).removed == Keep(c.removed, left);
    DropAgrees(l, a, Members(l) - Members(r), q', q, left);
  }

  /** A fresh selection from the kept and added names, none of the added ones qualifying, is the old
      selection without what was dropped. */
  lemma DropAgrees(l: Names, a: Names, kept: set<string>, q': set<string>, q: set<string>, left: set<string>)
    requires forall n :: n in a ==> n !in q'
    requires forall n :: n in l ==> (n in kept && n in q' <==> n in q && n in left)
    ensures Keep(Keep(l, kept) + a, q') == Keep(Keep(l, q), left)
  {
    KeepConcat(Keep(l, kept), a, q');
    EmptyIffNone(Keep(a, q'));
    KeepKeep(l, kept, q');
    KeepKeep(l, q, left);
    KeepSame(l, kept * q', q * left);
  }

  lemma NotSelfIgnored(u: Upstream, ignored: Names, n: string)
    requires Plain(u) && Offerable(u, n) && !Ignored(u, ignored, n)
    ensures n !in Normalize(ignored)
  {
    assert IgnoreHits(u, n, n);
  }

  /** Ignoring after the request is ignoring before it, plus the names just ignored. */
  lemma IgnoredAfterApply(c: Channel, sel: Selection, u: Upstream, n: string)
    requires Synced(c, u) && Plain(u) && Offerable(u, n) && n !in SelectedAdd(c, sel)
    ensures Ignored(u, NextIgnored(c, sel), n) <==> Ignored(u, c.ignored, n) || n in SelectedIgnore(c, sel)
  {
    var a, ig := SelectedAdd(c, sel), SelectedIgnore(c, sel);
    SelectedAre(c, sel, u);
    NextIgnoredMembers(c, sel, u);
    forall x | x in a ensures x !in Normalize(c.ignored) {
      NotSelfIgnored(u, c.ignored, x);
    }
    if Ignored(u, c.ignored, n) {
      var e :| e in Normalize(c.ignored) && IgnoreHits(u, e, n);
      assert e in Normalize(NextIgnored(c, sel));
    }
    if n in ig {
      assert n in Normalize(NextIgnored(c, sel)) && IgnoreHits(u, n, n);
    }
    if Ignored(u, NextIgnored(c, sel), n) && !Ignored(u, c.ignored, n) {
      var e :| e in Normalize(NextIgnored(c, sel)) && IgnoreHits(u, e, n);
      assert e in ig;
    }
  }

  lemma NextIgnoredMembers(c: Channel, sel: Selection, u: Upstream)
    requires Synced(c, u)
    ensures forall e :: e in Normalize(NextIgnored(c, sel)) <==>
              (e in Normalize(c.ignored) || e in SelectedIgnore(c, sel)) && e !in SelectedAdd(c, sel)
  {
    var a, ig := SelectedAdd(c, sel), SelectedIgnore(c, sel);
    SelectedAre(c, sel, u);
    NormalizeFixes(ig);
    MergeNormalized(c.ignored, ig);
    var merged := Merge(c.ignored, ig);
    NormalizeFixes(merged);
    if |a| > 0 {
      NormalizeFixes(a);
      SubtractNormalized(merged, a);
      NormalizeFixes(Subtract(merged, a));
    }
  }

  lemma AdditionsStaySynced(c: Channel, sel: Selection, u: Upstream)
    requires Synced(c, u) && Plain(u)
    ensures Apply(c, sel).detected == DetectAdd(u, LocalModels(Apply(c, sel)), NextIgnored(c, sel))
  {
    var up := UpstreamNames(u);
    var p := set n | n in up && PendingAdd(u, LocalModels(c), c.ignored, n);
    var p' := set n | n in up && PendingAdd(u, LocalModels(Apply(c, sel)), NextIgnored(c, sel), n);
    var left := Members(c.detected) - Members(SelectedAdd(c, sel)) - Members(SelectedIgnore(c, sel));
    forall n | n in up ensures n in p && n in left <==> n in p' {
      PendingAfterApply(c, sel, u, n);
    }
    RemainingAre(c, sel, u);
    KeepKeep(up, p, left);
    KeepSame(up, p * left, p');
  }

  /** Of the upstream's names, exactly the added ones join the channel's models. */
  lemma NextMember(c: Channel, sel: Selection, u: Upstream, n: string)
    requires Synced(c, u) && n in UpstreamNames(u)
    ensures n in NextModels(c, sel) <==> n in LocalModels(c) || n in SelectedAdd(c, sel)
  {
    SelectedAre(c, sel, u);
    NextModelsAre(c, sel, u);
  }

  lemma SelectedMember(c: Channel, sel: Selection, u: Upstream, n: string)
    requires Synced(c, u)
    ensures n in SelectedAdd(c, sel) || n in SelectedIgnore(c, sel) ==> n in c.detected
    ensures n in c.detected <==> n in UpstreamNames(u) && PendingAdd(u, LocalModels(c), c.ignored, n)
  {
    SelectedAre(c, sel, u);
  }

  lemma PendingAfterApply(c: Channel, sel: Selection, u: Upstream, n: string)
    requires Synced(c, u) && Plain(u) && n in UpstreamNames(u)
    ensures PendingAdd(u, LocalModels(Apply(c, sel)), NextIgnored(c, sel), n) <==>
            n in c.detected && n !in SelectedAdd(c, sel) && n !in SelectedIgnore(c, sel)
  {
    SelectedAre(c, sel, u);
    LocalAfterApply(c, sel, u);
    NextMember(c, sel, u, n);
    SelectedMember(c, sel, u, n);
    if n !in u.mapping.Values && n !in SelectedAdd(c, sel) {
      IgnoredAfterApply(c, sel, u, n);
    }
  }

  lemma RemainingAre(c: Channel, sel: Selection, u: Upstream)
    requires Synced(c, u)
    ensures Apply(c, sel).detected ==
            Keep(c.detected, Members(c.detected) - Members(SelectedAdd(c, sel)) - Members(SelectedIgnore(c, sel)))
  {
    var a, ig := SelectedAdd(c, sel), SelectedIgnore(c, sel);
    SelectedAre(c, sel, u);
    NormalizeFixes(c.detected);
    forall n ensures n in Normalize(a + ig) <==> n in a || n in ig {
      NormalizeMembers(a + ig, n);
      TrimmedMember(a, n);
      TrimmedMember(ig, n);
    }
    KeepSame(c.detected, Members(c.detected) - Members(Normalize(a + ig)),
             Members(c.detected) - Members(a) - Members(ig));
  }

  lemma TrimmedMember(xs: Names, n: string)
    requires Normalized(xs)
    ensures n in xs <==> exists x :: x in xs && TrimsTo(x, n)
  {
    assert forall x :: x in xs ==> Trimmed(x);
    if n in xs {
      assert TrimsTo(n, n);
    }
  }

  /** One apply request keeps a synced channel synced, for every selection. */
  lemma ApplyKeepsSynced(c: Channel, sel: Selection, u: Upstream)
    requires Synced(c, u) && Plain(u)
    ensures Synced(Apply(c, sel), u)
  {
    SelectedAre(c, sel, u);
    LocalAfterApply(c, sel, u);
    RemovalsStaySynced(c, sel, u);
    AdditionsStaySynced(c, sel, u);
  }

  // A check, with or without automatic adoption

  /** After a check the stored lists equal a fresh detection, except exactly when automatic adding adopts
      a name with a comma, which the models column cannot hold. */
  lemma CheckSyncsIff(c: Channel, u: Upstream, auto: bool)
    ensures Synced(Check(c, u, auto), u) <==>
            (auto ==> forall n :: n in DetectAdd(u, LocalModels(c), c.ignored) ==> ',' !in n)
  {
    var add := DetectAdd(u, LocalModels(c), c.ignored);
    if auto && |add| > 0 {
      if n :| n in add && ',' in n {
        CommaStaysPending(c, u, n);
      } else {
        AdoptedModels(c, u);
        AdoptedNothingLeft(u, LocalModels(c), c.ignored);
      }
    }
  }

  /** A name with a comma is not in the adopted models, so it is detected again. */
  lemma CommaStaysPending(c: Channel, u: Upstream, n: string)
    requires n in DetectAdd(u, LocalModels(c), c.ignored) && ',' in n
    ensures n in DetectAdd(u, LocalModels(Check(c, u, true)), c.ignored) && !Synced(Check(c, u, true), u)
  {
    var c' := Check(c, u, true);
    if n in LocalModels(c') {
      LocalCommaFree(c'.models, n);
      assert false;
    }
    DetectedAre(c, u);
    DetectedAre(c', u);
  }

  lemma PlainCheckSyncs(c: Channel, u: Upstream, auto: bool)
    requires Plain(u)
    ensures Synced(Check(c, u, auto), u)
  {
    CheckSyncsIff(c, u, auto);
    DetectedAre(c, u);
  }

  /** Once the detected additions are adopted, the same removals and no addition are pending. */
  lemma AdoptedNothingLeft(u: Upstream, l: Names, ignored: Names)
    ensures DetectAdd(u, l + DetectAdd(u, l, ignored), ignored) == []
    ensures DetectRemove(u, l + DetectAdd(u, l, ignored)) == DetectRemove(u, l)
  {
    var add := DetectAdd(u, l, ignored);
    var q := set n | n in l && PendingRemove(u, n);
    var q' := set n | n in l + add && PendingRemove(u, n);
    assert forall n :: n in add ==> n in UpstreamNames(u);
    KeepAll(l, Members(l));
    KeepAll(Keep(l, q), q);
    DropAgrees(l, add, Members(l), q', q, q);
    var again := DetectAdd(u, l + add, ignored);
    EmptyIffNone(again);
  }

  lemma AdoptedModels(c: Channel, u: Upstream)
    requires |DetectAdd(u, LocalModels(c), c.ignored)| > 0
    requires forall n :: n in DetectAdd(u, LocalModels(c), c.ignored) ==> ',' !in n
    ensures LocalModels(Check(c, u, true)) == LocalModels(c) + DetectAdd(u, LocalModels(c), c.ignored)
  {
    var l, add := LocalModels(c), DetectAdd(u, LocalModels(c), c.ignored);
    DetectedAre(c, u);
    MergeDisjoint(l, add);
    ConcatNormalized(l, add);
    forall i | 0 <= i < |l + add| ensures ',' !in (l + add)[i] {
      if i < |l| {
        LocalCommaFree(c.models, l[i]);
      } else {
        assert add[i - |l|] in add;
      }
    }
    ColumnRoundTrip(l + add);
  }

  lemma MergeDisjoint(l: Names, a: Names)
    requires Normalized(l) && Normalized(a) && forall n :: n in a ==> n !in l
    ensures Merge(l, a) == l + a
  {
    NormalizeFixes(l);
    NormalizeFixes(a);
    KeepAll(a, Members(a) - Members(l));
  }

  lemma AdoptedGrow(c: Channel, u: Upstream)
    ensures var l, add := LocalModels(c), DetectAdd(u, LocalModels(c), c.ignored);
            |Merge(l, add)| == |l| + |add|
  {
    DetectedAre(c, u);
    MergeDisjoint(LocalModels(c), DetectAdd(u, LocalModels(c), c.ignored));
  }

  // Runs

  /** Checks and apply requests; `saved` is false when the fetch or the database update fails, which
      leaves the stored models and lists as they were. */
  datatype Event = Checked(auto: bool, saved: bool) | Applied(sel: Selection, saved: bool)

  function Happen(c: Channel, u: Upstream, e: Event): Channel {
    if !e.saved then c else if e.Checked? then Check(c, u, e.auto) else Apply(c, e.sel)
  }

  function Run(c: Channel, u: Upstream, es: seq<Event>): Channel {
    if es == [] then c else Happen(Run(c, u, es[..|es| - 1]), u, es[|es| - 1])
  }

  lemma {:induction false} RunKeepsSynced(c: Channel, u: Upstream, es: seq<Event>)
    requires Synced(c, u) && Plain(u)
    ensures Synced(Run(c, u, es), u)
    decreases |es|
  {
    if es != [] {
      RunKeepsSynced(c, u, es[..|es| - 1]);
      var d, e := Run(c, u, es[..|es| - 1]), es[|es| - 1];
      if e.saved {
        if e.Checked? {
          PlainCheckSyncs(d, u, e.auto);
        } else {
          ApplyKeepsSynced(d, e.sel, u);
        }
      }
    }
  }

  /** On an upstream that is not plain, one check and one apply request leave a stale list behind. */
  lemma NotPlainGoesStale(u: Upstream) returns (c: Channel, sel: Selection)
    requires !Plain(u)
    ensures !Synced(Apply(Check(c, u, false), sel), u)
  {
    c := Channel("", [], [], []);
    if n :| Offerable(u, n) && ',' in n {
      sel := Selection([n], [], []);
      AddedWithComma(u, n);
    } else {
      var n, m :| Offerable(u, n) && Offerable(u, m) && IgnoreHits(u, n, m) != (n == m);
      sel := Selection([], [n], []);
      IgnoredNotItself(u, n, m);
    }
  }

  lemma EmptyChecked(u: Upstream, n: string)
    requires Offerable(u, n)
    ensures var d := Check(Channel("", [], [], []), u, false);
            LocalModels(d) == [] && Normalize(d.detected) == d.detected && n in d.detected &&
            d.ignored == [] && d.removed == []
  {
    var c := Channel("", [], [], []);
    DetectedAre(c, u);
    NormalizeFixes(DetectAdd(u, LocalModels(c), c.ignored));
  }

  lemma SingleNormal(u: Upstream, n: string)
    requires n in UpstreamNames(u)
    ensures Normalize([n]) == [n]
  {
    var up := UpstreamNames(u);
    var i :| 0 <= i < |up| && up[i] == n;
    NormalizeFixes([n]);
  }

  /** Adding one detected name on a channel without models, ignores or removals. */
  lemma AddOne(d: Channel, n: string)
    requires d.models == "" && d.ignored == [] && d.removed == []
    requires Normalize(d.detected) == d.detected && n in d.detected && Normalize([n]) == [n]
    ensures var d' := Apply(d, Selection([n], [], []));
            d'.ignored == [] && d'.detected == Subtract(d.detected, [n])
  {
    var sel := Selection([n], [], []);
    EmptyLists(d.detected);
    EmptyLists([]);
    EmptyLists([n]);
    assert SelectedAdd(d, sel) == [n] by { KeepAll([n], Members(d.detected)); }
    assert [n] + [] == [n];
  }

  lemma AddedWithComma(u: Upstream, n: string)
    requires Offerable(u, n) && ',' in n
    ensures !Synced(Apply(Check(Channel("", [], [], []), u, false), Selection([n], [], [])), u)
  {
    var d := Check(Channel("", [], [], []), u, false);
    EmptyChecked(u, n);
    SingleNormal(u, n);
    AddOne(d, n);
    var d' := Apply(d, Selection([n], [], []));
    SubtractNormalized(d.detected, [n]);
    if n in LocalModels(d') {
      LocalCommaFree(d'.models, n);
    }
    assert n in DetectAdd(u, LocalModels(d'), d'.ignored);
  }

  /** Ignoring one detected name on a channel without models, ignores or removals. */
  lemma IgnoreOne(d: Channel, n: string)
    requires d.models == "" && d.ignored == [] && d.removed == []
    requires Normalize(d.detected) == d.detected && n in d.detected && Normalize([n]) == [n]
    ensures var d' := Apply(d, Selection([], [n], []));
            d'.models == "" && d'.ignored == [n] && d'.detected == Subtract(d.detected, [n])
  {
    var sel := Selection([], [n], []);
    EmptyLists(d.detected);
    EmptyLists([]);
    EmptyLists([n]);
    assert SelectedIgnore(d, sel) == [n] by { KeepAll([n], Members(d.detected)); }
    assert NextModels(d, sel) == LocalModels(d);
    assert [] + [n] == [n];
  }

  lemma IgnoredNotItself(u: Upstream, n: string, m: string)
    requires Offerable(u, n) && Offerable(u, m) && IgnoreHits(u, n, m) != (n == m)
    ensures !Synced(Apply(Check(Channel("", [], [], []), u, false), Selection([], [n], [])), u)
  {
    var d := Check(Channel("", [], [], []), u, false);
    EmptyChecked(u, n);
    EmptyChecked(u, m);
    SingleNormal(u, n);
    IgnoreOne(d, n);
    var d' := Apply(d, Selection([], [n], []));
    SubtractNormalized(d.detected, [n]);
    assert m in d'.detected <==> m != n;
    OneEntry(u, n, m);
    assert m in DetectAdd(u, [], [n]) <==> !IgnoreHits(u, n, m);
  }

  lemma OneEntry(u: Upstream, n: string, m: string)
    requires Normalize([n]) == [n]
    ensures Ignored(u, [n], m) <==> IgnoreHits(u, n, m)
  {
    assert n in [n];
  }

  ghost predicate AlwaysSynced(u: Upstream) {
    forall c: Channel, es: seq<Event> :: Synced(Run(Check(c, u, false), u, es), u)
  }

  /** The incremental lists equal a fresh detection after every run of checks and apply requests, from
      every channel, exactly when the upstream's names are plain. */
  lemma IncrementalIffPlain(u: Upstream)
    ensures Plain(u) <==> AlwaysSynced(u)
  {
    if Plain(u) {
      forall c: Channel, es: seq<Event> ensures Synced(Run(Check(c, u, false), u, es), u) {
        CheckSyncsIff(c, u, false);
        RunKeepsSynced(Check(c, u, false), u, es);
      }
    } else {
      NotPlainNotAlways(u);
    }
  }

  lemma NotPlainNotAlways(u: Upstream)
    requires !Plain(u)
    ensures !AlwaysSynced(u)
  {
    var c, sel := NotPlainGoesStale(u);
    var es := [Applied(sel, true)];
    RunOne(Check(c, u, false), u, sel);
    assert !Synced(Run(Check(c, u, false), u, es), u);
  }

  lemma RunOne(d: Channel, u: Upstream, sel: Selection)
    ensures Run(d, u, [Applied(sel, true)]) == Apply(d, sel)
  {
    var es := [Applied(sel, true)];
    assert es[..0] == [];
    assert Run(d, u, []) == d;
  }

  // Applying everything that is pending

  function Everything(c: Channel): Selection {
    Selection(c.detected, [], c.removed)
  }

  lemma EverythingSelected(c: Channel, u: Upstream)
    requires Synced(c, u)
    ensures SelectedAdd(c, Everything(c)) == c.detected && SelectedIgnore(c, Everything(c)) == []
    ensures SelectedRemove(c, Everything(c)) == c.removed
    ensures Normalized(c.detected) && Normalized(c.removed)
  {
    DetectedAre(c, u);
    NormalizeFixes(c.detected);
    NormalizeFixes(c.removed);
    KeepAll(c.detected, Members(c.detected));
    KeepAll(c.removed, Members(c.removed));
    EmptyLists(c.detected);
    KeepAll(c.removed, Members(c.removed) - Members(c.detected));
  }

  lemma EverythingHandled(c: Channel, u: Upstream)
    requires Synced(c, u)
    ensures Apply(c, Everything(c)).detected == [] && Apply(c, Everything(c)).removed == []
  {
    EverythingSelected(c, u);
    assert c.detected + [] == c.detected;
    NormalizeFixes(c.detected);
    NormalizeFixes(c.removed);
    SubtractNormalized(c.detected, c.detected);
    SubtractNormalized(c.removed, c.removed);
    EmptyIffNone(Subtract(c.detected, c.detected));
    EmptyIffNone(Subtract(c.removed, c.removed));
  }

  /** No pending name is split by the comma-separated models column. */
  predicate NoComma(c: Channel) {
    forall n :: n in c.detected ==> ',' !in n
  }

  /** Every offered name that an ignore entry hides is hidden by an entry that is not itself a pending
      addition, since added names leave the ignore list. */
  ghost predicate StaysHidden(c: Channel, u: Upstream) {
    forall n :: Offerable(u, n) && n !in LocalModels(c) && Ignored(u, c.ignored, n) ==> HiddenOtherwise(c, u, n)
  }

  predicate HiddenOtherwise(c: Channel, u: Upstream, n: string) {
    exists e :: e in Normalize(c.ignored) && e !in c.detected && IgnoreHits(u, e, n)
  }

  /** What the ignore list hides once everything is added. */
  lemma HiddenAfterwards(c: Channel, u: Upstream, n: string)
    requires Synced(c, u)
    ensures Ignored(u, NextIgnored(c, Everything(c)), n) <==> HiddenOtherwise(c, u, n)
  {
    EverythingSelected(c, u);
    NextIgnoredMembers(c, Everything(c), u);
    var next := NextIgnored(c, Everything(c));
    if e :| e in Normalize(next) && IgnoreHits(u, e, n) {
      assert e in Normalize(c.ignored) && e !in c.detected;
    }
    if e :| e in Normalize(c.ignored) && e !in c.detected && IgnoreHits(u, e, n) {
      assert e in Normalize(next);
    }
  }

  /** An offered name is pending afterwards exactly when it was lost in the column or is no longer hidden. */
  lemma PendingAfterEverything(c: Channel, u: Upstream, n: string)
    requires Synced(c, u) && Offerable(u, n)
    ensures var c' := Apply(c, Everything(c));
            PendingAdd(u, LocalModels(c'), c'.ignored, n) <==> n !in LocalModels(c') && !HiddenOtherwise(c, u, n)
  {
    HiddenAfterwards(c, u, n);
  }

  lemma DetectedWasOpen(c: Channel, u: Upstream, n: string)
    requires Synced(c, u) && Offerable(u, n)
    ensures n in c.detected <==> n !in LocalModels(c) && !Ignored(u, c.ignored, n)
    ensures HiddenOtherwise(c, u, n) ==> Ignored(u, c.ignored, n)
  {
    DetectedAre(c, u);
    if e :| e in Normalize(c.ignored) && e !in c.detected && IgnoreHits(u, e, n) {
      assert Ignored(u, c.ignored, n);
    }
  }

  /** With comma-free additions, the names that come back are the ones no longer hidden. */
  lemma ComesBackIff(c: Channel, u: Upstream, n: string)
    requires Synced(c, u) && NoComma(c) && Offerable(u, n)
    ensures var c' := Apply(c, Everything(c));
            PendingAdd(u, LocalModels(c'), c'.ignored, n) <==>
            n !in LocalModels(c) && Ignored(u, c.ignored, n) && !HiddenOtherwise(c, u, n)
  {
    var sel := Everything(c);
    EverythingSelected(c, u);
    LocalAfterApply(c, sel, u);
    NextMember(c, sel, u, n);
    PendingAfterEverything(c, u, n);
    DetectedWasOpen(c, u, n);
  }

  lemma CommaComesBack(c: Channel, u: Upstream, n: string)
    requires Synced(c, u) && n in c.detected && ',' in n
    ensures !Synced(Apply(c, Everything(c)), u)
  {
    var c' := Apply(c, Everything(c));
    DetectedAre(c, u);
    EverythingHandled(c, u);
    PendingAfterEverything(c, u, n);
    DetectedWasOpen(c, u, n);
    assert n !in LocalModels(c') by {
      if n in LocalModels(c') {
        LocalCommaFree(c'.models, n);
      }
    }
    DetectedAre(c', u);
    assert n in DetectAdd(u, LocalModels(c'), c'.ignored);
  }

  lemma EverythingSyncs(c: Channel, u: Upstream)
    requires Synced(c, u) && NoComma(c) && StaysHidden(c, u)
    ensures Synced(Apply(c, Everything(c)), u)
  {
    var sel := Everything(c);
    var c' := Apply(c, sel);
    EverythingSelected(c, u);
    EverythingHandled(c, u);
    LocalAfterApply(c, sel, u);
    RemovalsStaySynced(c, sel, u);
    DetectedAre(c', u);
    forall n | n in UpstreamNames(u) ensures !PendingAdd(u, LocalModels(c'), c'.ignored, n) {
      if Offerable(u, n) {
        ComesBackIff(c, u, n);
      }
    }
    EmptyIffNone(DetectAdd(u, LocalModels(c'), c'.ignored));
  }

  /** Applying everything that is pending empties the pending lists; a fresh detection then finds nothing
      exactly when no pending name has a comma and no hidden name loses its last ignore entry. */
  lemma ApplyEverythingIff(c: Channel, u: Upstream)
    requires Synced(c, u)
    ensures var c' := Apply(c, Everything(c));
            && c'.detected == [] && c'.removed == []
            && (Synced(c', u) <==> NoComma(c) && StaysHidden(c, u))
  {
    var c' := Apply(c, Everything(c));
    EverythingHandled(c, u);
    if NoComma(c) && StaysHidden(c, u) {
      EverythingSyncs(c, u);
    } else if !NoComma(c) {
      var n :| n in c.detected && ',' in n;
      CommaComesBack(c, u, n);
    } else {
      var n :| Offerable(u, n) && n !in LocalModels(c) && Ignored(u, c.ignored, n) && !HiddenOtherwise(c, u, n);
      ComesBackIff(c, u, n);
      DetectedAre(c', u);
      assert n in DetectAdd(u, LocalModels(c'), c'.ignored);
    }
  }

  /** The upstream offers the text of an ignore entry as a name: adding it drops the entry, and the name
      the entry hid is pending again. */
  lemma HiddenNameComesBack(e: string, n: string)
    requires REGEX_PREFIX <= e && e != n && Normalized([e, n])
    ensures var u := Upstream([e, n], map[], (_, name) => name == n);
            var c := Check(Channel("", [e], [], []), u, false);
            Synced(c, u) && !Synced(Apply(c, Everything(c)), u)
  {
    var u := Upstream([e, n], map[], (_, name) => name == n);
    var c := Check(Channel("", [e], [], []), u, false);
    CheckSyncsIff(Channel("", [e], [], []), u, false);
    NormalizeFixes([e, n]);
    assert Normalized([e]) by { assert [e, n][0] == e; }
    NormalizeFixes([e]);
    assert LocalModels(c) == [];
    DetectedAre(c, u);
    assert [e, n][0] == e && [e, n][1] == n;
    assert e in c.detected;
    assert Ignored(u, c.ignored, n) by { assert e in [e]; }
    assert !HiddenOtherwise(c, u, n);
    ApplyEverythingIff(c, u);
  }

  lemma NothingPending(c: Channel, u: Upstream)
    requires c.detected == []
    ensures NoComma(c) && StaysHidden(c, u)
  {
    forall n | Offerable(u, n) && n !in LocalModels(c) && Ignored(u, c.ignored, n) ensures HiddenOtherwise(c, u, n) {
      var e :| e in Normalize(c.ignored) && IgnoreHits(u, e, n);
    }
  }
}
