/**
 The ordered-set algebra on model names: lists are trimmed, stripped of blanks and duplicates, and
 combined keeping first-seen order.
 */
module ModelNames {
  import opened Text

  type Names = seq<string>

  /** Trimmed, non-empty and without repetition. */
  ghost predicate Normalized(xs: Names) {
    && (forall i :: 0 <= i < |xs| ==> xs[i] != "" && Trimmed(xs[i]))
    && (forall i, j :: 0 <= i < j < |xs| ==> xs[i] != xs[j])
  }

  lemma AddedNormalized(xs: Names, name: string)
    requires Normalized(xs) && Trimmed(name) && name != "" && name !in xs
    ensures Normalized(xs + [name])
  {
  }

  /** normalizeModelNames: first occurrences of the trimmed, non-empty names. */
  function Normalize(xs: Names): (r: Names)
    ensures Normalized(r)
  {
    if xs == [] then []
    else
      var r := Normalize(xs[..|xs| - 1]);
      var name := TrimSpace(xs[|xs| - 1]);
      if name == "" || name in r then r
      else
        AddedNormalized(r, name);
        r + [name]
  }

  predicate TrimsTo(x: string, name: string) {
    TrimSpace(x) == name
  }

  /** A name is in the normalized list exactly when it is the non-empty trimming of a given name. */
  lemma {:induction false} NormalizeMembers(xs: Names, name: string)
    ensures name in Normalize(xs) <==> name != "" && exists x :: x in xs && TrimsTo(x, name)
    decreases |xs|
  {
    if xs != [] {
      var init, last := xs[..|xs| - 1], xs[|xs| - 1];
      NormalizeMembers(init, name);
      assert forall x :: x in xs <==> x in init || x == last;
      assert name == TrimSpace(last) <==> TrimsTo(last, name);
    }
  }

  lemma NormalizeNext(xs: Names, x: string)
    requires Normalize(xs) == xs && x != "" && Trimmed(x) && x !in xs
    ensures Normalize(xs + [x]) == xs + [x]
  {
    assert (xs + [x])[..|xs|] == xs;
  }

  lemma {:induction false} NormalizeFixes(xs: Names)
    requires Normalized(xs)
    ensures Normalize(xs) == xs
    decreases |xs|
  {
    if xs != [] {
      var init, last := xs[..|xs| - 1], xs[|xs| - 1];
      NormalizeFixes(init);
      assert last !in init;
      NormalizeNext(init, last);
      assert init + [last] == xs;
    }
  }

  lemma EmptyIffNone(xs: Names)
    ensures xs == [] <==> forall x :: x !in xs
  {
    if xs != [] {
      assert xs[0] in xs;
    }
  }

  /** lo.Filter by membership. */
  function Keep(xs: Names, keep: set<string>): (r: Names)
    ensures forall x :: x in r <==> x in xs && x in keep
  {
    if xs == [] then []
    else
      var r := Keep(xs[..|xs| - 1], keep);
      if xs[|xs| - 1] in keep then r + [xs[|xs| - 1]] else r
  }

  lemma {:induction false} KeepNormalized(xs: Names, keep: set<string>)
    requires Normalized(xs)
    ensures Normalized(Keep(xs, keep))
    decreases |xs|
  {
    if xs != [] {
      KeepNormalized(xs[..|xs| - 1], keep);
    }
  }

  /** Two selections of a list are equal sequences exactly when they select the same members. */
  lemma {:induction false} KeepSame(xs: Names, a: set<string>, b: set<string>)
    requires forall x :: x in xs ==> (x in a <==> x in b)
    ensures Keep(xs, a) == Keep(xs, b)
    decreases |xs|
  {
    if xs != [] {
      KeepSame(xs[..|xs| - 1], a, b);
    }
  }

  lemma {:induction false} KeepKeep(xs: Names, a: set<string>, b: set<string>)
    ensures Keep(Keep(xs, a), b) == Keep(xs, a * b)
    decreases |xs|
  {
    if xs != [] {
      KeepKeep(xs[..|xs| - 1], a, b);
      var r, last := Keep(xs[..|xs| - 1], a), xs[|xs| - 1];
      if last in a {
        assert (r + [last])[..|r|] == r;
      }
    }
  }

  lemma KeepNext(xs: Names, i: nat, keep: set<string>)
    requires i < |xs|
    ensures Keep(xs[..i + 1], keep) == Keep(xs[..i], keep) + if xs[i] in keep then [xs[i]] else []
  {
    assert xs[..i + 1][..i] == xs[..i];
  }

  lemma {:induction false} KeepConcat(xs: Names, ys: Names, keep: set<string>)
    ensures Keep(xs + ys, keep) == Keep(xs, keep) + Keep(ys, keep)
    decreases |ys|
  {
    if ys == [] {
      assert xs + ys == xs;
    } else {
      assert (xs + ys)[..|xs + ys| - 1] == xs + ys[..|ys| - 1];
      KeepConcat(xs, ys[..|ys| - 1], keep);
    }
  }

  lemma {:induction false} KeepAll(xs: Names, keep: set<string>)
    requires forall x :: x in xs ==> x in keep
    ensures Keep(xs, keep) == xs
    decreases |xs|
  {
    if xs != [] {
      KeepAll(xs[..|xs| - 1], keep);
      assert xs[..|xs| - 1] + [xs[|xs| - 1]] == xs;
    }
  }

  function Members(xs: Names): set<string> {
    set x | x in xs
  }

  /** mergeModelNames: the base, then the appended names it lacks. */
  function Merge(base: Names, appended: Names): Names {
    var b, a := Normalize(base), Normalize(appended);
    b + Keep(a, Members(a) - Members(b))
  }

  /** subtractModelNames. */
  function Subtract(base: Names, removed: Names): Names {
    var b := Normalize(base);
    Keep(b, Members(b) - Members(Normalize(removed)))
  }

  /** intersectModelNames. */
  function Intersect(base: Names, allowed: Names): Names {
    Keep(Normalize(base), Members(Normalize(allowed)))
  }

  lemma MergeNormalized(base: Names, appended: Names)
    ensures Normalized(Merge(base, appended))
    ensures forall x :: x in Merge(base, appended) <==> x in Normalize(base) || x in Normalize(appended)
  {
    var b, a := Normalize(base), Normalize(appended);
    var extra := Keep(a, Members(a) - Members(b));
    KeepNormalized(a, Members(a) - Members(b));
    ConcatNormalized(b, extra);
  }

  lemma ConcatNormalized(xs: Names, ys: Names)
    requires Normalized(xs) && Normalized(ys) && forall y :: y in ys ==> y !in xs
    ensures Normalized(xs + ys)
  {
    forall i, j | 0 <= i < j < |xs + ys| ensures (xs + ys)[i] != (xs + ys)[j] {
      if i < |xs| <= j {
        assert ys[j - |xs|] in ys && xs[i] in xs;
      }
    }
  }

  lemma SubtractNormalized(base: Names, removed: Names)
    ensures Normalized(Subtract(base, removed))
    ensures forall x :: x in Subtract(base, removed) <==> x in Normalize(base) && x !in Normalize(removed)
  {
    KeepNormalized(Normalize(base), Members(Normalize(base)) - Members(Normalize(removed)));
  }

  lemma IntersectNormalized(base: Names, allowed: Names)
    ensures Normalized(Intersect(base, allowed))
    ensures forall x :: x in Intersect(base, allowed) <==> x in Normalize(base) && x in Normalize(allowed)
  {
    KeepNormalized(Normalize(base), Members(Normalize(allowed)));
  }

  /** applySelectedModelChanges: additions win over removals. */
  function ApplySelected(origin: Names, add: Names, remove: Names): Names {
    var a := Normalize(add);
    Subtract(Merge(origin, a), Subtract(Normalize(remove), a))
  }

  lemma ApplySelectedMembers(origin: Names, add: Names, remove: Names)
    ensures Normalized(ApplySelected(origin, add, remove))
    ensures forall x :: x in ApplySelected(origin, add, remove) <==>
              x in Normalize(add) || (x in Normalize(origin) && x !in Normalize(remove))
  {
    var a := Normalize(add);
    NormalizeFixes(a);
    MergeNormalized(origin, a);
    NormalizeFixes(Merge(origin, a));
    NormalizeFixes(Normalize(remove));
    var r := Subtract(Normalize(remove), a);
    SubtractNormalized(Normalize(remove), a);
    NormalizeFixes(r);
    SubtractNormalized(Merge(origin, a), r);
  }

  lemma DroppedMembers(remove: Names, a: Names)
    requires Normalized(a)
    ensures Normalized(Subtract(Normalize(remove), a))
    ensures forall x :: x in Subtract(Normalize(remove), a) <==> x in Normalize(remove) && x !in a
  {
    NormalizeFixes(a);
    NormalizeFixes(Normalize(remove));
    SubtractNormalized(Normalize(remove), a);
  }

  lemma KeepWithTail(o: Names, a: Names, lacking: set<string>, dropped: Names, whole: Names)
    requires whole == o + Keep(a, lacking) && forall x :: x in dropped ==> x !in a
    ensures Keep(whole, Members(whole) - Members(dropped)) ==
            Keep(o, Members(o) - Members(dropped)) + Keep(a, lacking)
  {
    var keep := Members(whole) - Members(dropped);
    KeepConcat(o, Keep(a, lacking), keep);
    KeepSame(o, keep, Members(o) - Members(dropped));
    KeepAll(Keep(a, lacking), keep);
  }

  /** The result is the original names in their order, without the removed ones that are not also added,
      followed by the added names that are new, in theirs. */
  lemma ApplySelectedIs(origin: Names, add: Names, remove: Names)
    ensures var o, a, r := Normalize(origin), Normalize(add), Normalize(remove);
            ApplySelected(origin, add, remove) ==
            Keep(o, Members(o) - (Members(r) - Members(a))) + Keep(a, Members(a) - Members(o))
  {
    var o, a, r := Normalize(origin), Normalize(add), Normalize(remove);
    var whole, dropped := Merge(origin, a), Subtract(r, a);
    NormalizeFixes(a);
    MergeNormalized(origin, a);
    NormalizeFixes(whole);
    DroppedMembers(remove, a);
    NormalizeFixes(dropped);
    assert Members(dropped) == Members(r) - Members(a);
    KeepWithTail(o, a, Members(a) - Members(o), dropped, whole);
  }

  lemma EmptyLists(xs: Names)
    ensures Intersect([], xs) == [] && Subtract([], xs) == []
    ensures Merge([], xs) == Normalize(xs)
  {
    var b: Names, a := Normalize([]), Normalize(xs);
    assert b == [];
    KeepAll(a, Members(a) - Members(b));
    assert b + a == a;
  }

  // The loops

  method MergeModelNames(base: Names, appended: Names) returns (merged: Names)
    ensures merged == Merge(base, appended)
  {
    var b := Normalize(base);
    var extra := Normalize(appended);
    merged := AppendMissing(b, extra);
  }

  /** Whether the next name is still missing. */
  lemma MissingNext(base: Names, extra: Names, i: nat)
    requires Normalized(extra) && i < |extra|
    ensures extra[i] in Members(extra) - Members(base) <==> extra[i] !in Members(base) + Members(extra[..i])
    ensures Members(extra[..i + 1]) == Members(extra[..i]) + {extra[i]}
  {
    assert extra[i] in extra;
    assert extra[..i + 1] == extra[..i] + [extra[i]];
    assert extra[i] !in extra[..i];
  }

  method AppendMissing(base: Names, extra: Names) returns (merged: Names)
    requires Normalized(extra)
    ensures merged == base + Keep(extra, Members(extra) - Members(base))
  {
    merged := base;
    var seen := Members(base);
    ghost var lacking := Members(extra) - seen;
    var i := 0;
    while i < |extra|
      invariant 0 <= i <= |extra|
      invariant seen == Members(base) + Members(extra[..i])
      invariant merged == base + Keep(extra[..i], lacking)
    {
      KeepNext(extra, i, lacking);
      MissingNext(base, extra, i);
      ghost var kept := Keep(extra[..i], lacking);
      assert base + kept + [extra[i]] == base + (kept + [extra[i]]);
      if extra[i] !in seen {
        seen := seen + {extra[i]};
        merged := merged + [extra[i]];
      }
      i := i + 1;
    }
    assert extra[..i] == extra;
  }

  method SubtractModelNames(base: Names, removed: Names) returns (r: Names)
    ensures r == Subtract(base, removed)
  {
    var gone := Normalize(removed);
    var removeSet: set<string>, i := {}, 0;
    while i < |gone|
      invariant 0 <= i <= |gone|
      invariant removeSet == Members(gone[..i])
    {
      removeSet := removeSet + {gone[i]};
      i := i + 1;
    }
    assert gone[..i] == gone;
    r := Keep(Normalize(base), Members(Normalize(base)) - removeSet);
  }

  method IntersectModelNames(base: Names, allowed: Names) returns (r: Names)
    ensures r == Intersect(base, allowed)
  {
    var names := Normalize(allowed);
    var allowedSet: set<string>, i := {}, 0;
    while i < |names|
      invariant 0 <= i <= |names|
      invariant allowedSet == Members(names[..i])
    {
      allowedSet := allowedSet + {names[i]};
      i := i + 1;
    }
    assert names[..i] == names;
    r := Keep(Normalize(base), allowedSet);
  }
}
