/**
 The channel record that the update task changes in place, and the loops that collect the pending
 changes, proved against the functions of UpstreamModels.
 */
module UpstreamChannel {
  import opened ModelNames
  import opened UpstreamModels
  import opened Text

  /** collectPendingUpstreamModelChangesFromModels. */
  method CollectPending(u: Upstream, local: Names, ignored: Names) returns (add: Names, remove: Names)
    requires Normalized(local)
    ensures add == DetectAdd(u, local, ignored) && remove == DetectRemove(u, local)
  {
    var localSet := NameSet(local);
    var names := UpstreamNames(u);
    var upstreamSet := NameSet(names);
    var covered := localSet + u.mapping.Values;
    ghost var pendingAdd := set n | n in UpstreamNames(u) && PendingAdd(u, local, ignored, n);
    add := [];
    var i := 0;
    while i < |names|
      invariant 0 <= i <= |names|
      invariant add == Keep(names[..i], pendingAdd)
    {
      KeepNext(names, i, pendingAdd);
      if names[i] !in covered {
        var hit := ContainsHit(u, Normalize(ignored), names[i]);
        if !hit {
          add := add + [names[i]];
        }
      }
      i := i + 1;
    }
    assert names[..i] == names;
    remove := CollectRemovals(u, local, upstreamSet);
  }

  method CollectRemovals(u: Upstream, local: Names, upstreamSet: set<string>) returns (remove: Names)
    requires upstreamSet == Members(UpstreamNames(u))
    ensures remove == DetectRemove(u, local)
  {
    ghost var pending := set n | n in local && PendingRemove(u, n);
    remove := [];
    var i := 0;
    while i < |local|
      invariant 0 <= i <= |local|
      invariant remove == Keep(local[..i], pending)
    {
      KeepNext(local, i, pending);
      if local[i] !in u.mapping.Keys && local[i] !in upstreamSet {
        remove := remove + [local[i]];
      }
      i := i + 1;
    }
    assert local[..i] == local;
  }

  method NameSet(names: Names) returns (s: set<string>)
    ensures s == Members(names)
  {
    s := {};
    var i := 0;
    while i < |names|
      invariant 0 <= i <= |names|
      invariant s == Members(names[..i])
    {
      s := s + {names[i]};
      i := i + 1;
    }
    assert names[..i] == names;
  }

  /** lo.ContainsBy over the ignore entries. */
  method ContainsHit(u: Upstream, entries: Names, name: string) returns (hit: bool)
    ensures hit <==> exists e :: e in entries && IgnoreHits(u, e, name)
  {
    hit := false;
    var i := 0;
    while i < |entries|
      invariant 0 <= i <= |entries|
      invariant hit <==> exists e :: e in entries[..i] && IgnoreHits(u, e, name)
    {
      assert forall e :: e in entries[..i + 1] <==> e in entries[..i] || e == entries[i];
      if IgnoreHits(u, entries[i], name) {
        hit := true;
      }
      i := i + 1;
    }
    assert entries[..i] == entries;
  }

  class ChannelRecord {
    var models: string
    var ignored: Names
    var detected: Names
    var removed: Names

    ghost function Value(): Channel
      reads this
    {
      Channel(models, ignored, detected, removed)
    }

    /** Detected names join the models. */
    method Adopt(origin: Names, add: Names) returns (modelsChanged: bool, autoAdded: nat)
      modifies this`models
      ensures modelsChanged == (|Merge(origin, add)| > |origin|)
      ensures models == if modelsChanged then Join(Merge(origin, add), ',') else old(models)
      ensures autoAdded == if modelsChanged then |Merge(origin, add)| - |origin| else 0
    {
      modelsChanged, autoAdded := false, 0;
      var merged := MergeModelNames(origin, add);
      if |merged| > |origin| {
        models := Join(merged, ',');
        autoAdded := |merged| - |origin|;
        modelsChanged := true;
      }
    }

    /** checkAndPersistChannelUpstreamModelUpdates; returns modelsChanged and autoAdded. */
    method CheckAndPersist(u: Upstream, auto: bool) returns (modelsChanged: bool, autoAdded: nat)
      modifies this
      ensures Value() == Check(old(Value()), u, auto)
      ensures modelsChanged <==> auto && |DetectAdd(u, LocalModels(old(Value())), old(ignored))| > 0
      ensures autoAdded == if modelsChanged then |DetectAdd(u, LocalModels(old(Value())), old(ignored))| else 0
    {
      ghost var c := Value();
      var origin := Normalize(GetModels(models));
      var add, remove := CollectPending(u, origin, ignored);
      modelsChanged, autoAdded := false, 0;
      if auto && |add| > 0 {
        AdoptedGrow(c, u);
        modelsChanged, autoAdded := Adopt(origin, add);
        detected := [];
      } else {
        detected := add;
      }
      removed := remove;
    }

    /** The part of a request that is actually pending; additions win over removals. */
    method SelectPending(sel: Selection) returns (added: Names, ignore: Names, dropped: Names)
      ensures added == SelectedAdd(Value(), sel)
      ensures ignore == SelectedIgnore(Value(), sel)
      ensures dropped == SelectedRemove(Value(), sel)
    {
      added := IntersectModelNames(sel.add, Normalize(detected));
      ignore := IntersectModelNames(sel.ignore, Normalize(detected));
      dropped := IntersectModelNames(sel.remove, Normalize(removed));
      dropped := SubtractModelNames(dropped, added);
    }

    /** Ignored names join the ignore list; added names leave it. */
    method UpdateIgnored(ignore: Names, added: Names)
      modifies this`ignored
      ensures ignored == IgnoredAfter(old(ignored), ignore, added)
    {
      ignored := MergeModelNames(ignored, ignore);
      if |added| > 0 {
        ignored := SubtractModelNames(ignored, added);
      }
    }

    method UpdateModels(added: Names, dropped: Names) returns (modelsChanged: bool)
      modifies this`models
      ensures modelsChanged == (ApplySelected(LocalModels(old(Value())), added, dropped) != LocalModels(old(Value())))
      ensures models ==
              if modelsChanged then Join(ApplySelected(LocalModels(old(Value())), added, dropped), ',') else old(models)
    {
      var origin := Normalize(GetModels(models));
      var next := ApplySelected(origin, added, dropped);
      modelsChanged := origin != next;
      if modelsChanged {
        models := Join(next, ',');
      }
    }

    /** Handled names leave the pending lists. */
    method DropHandled(handled: Names, dropped: Names)
      modifies this`detected, this`removed
      ensures detected == Subtract(Normalize(old(detected)), handled)
      ensures removed == Subtract(Normalize(old(removed)), dropped)
    {
      detected := SubtractModelNames(Normalize(detected), handled);
      removed := SubtractModelNames(Normalize(removed), dropped);
    }

    method ApplyPending(added: Names, ignore: Names, dropped: Names) returns (modelsChanged: bool)
      modifies this
      ensures modelsChanged == (ApplySelected(LocalModels(old(Value())), added, dropped) != LocalModels(old(Value())))
      ensures Value() == ApplyNames(old(Value()), added, ignore, dropped)
    {
      modelsChanged := UpdateModels(added, dropped);
      UpdateIgnored(ignore, added);
      DropHandled(added + ignore, dropped);
    }

    /** applyChannelUpstreamModelUpdates. */
    method ApplySelection(sel: Selection) returns (added: Names, dropped: Names, modelsChanged: bool)
      modifies this
      ensures Value() == Apply(old(Value()), sel)
      ensures added == SelectedAdd(old(Value()), sel) && dropped == SelectedRemove(old(Value()), sel)
      ensures modelsChanged == (NextModels(old(Value()), sel) != LocalModels(old(Value())))
    {
      var ignore;
      added, ignore, dropped := SelectPending(sel);
      modelsChanged := ApplyPending(added, ignore, dropped);
    }

    /** One channel of ApplyAllChannelUpstreamModelUpdates. */
    method ApplyAll(ghost u: Upstream)
      requires Synced(Value(), u)
      modifies this
      ensures detected == [] && removed == []
      ensures Synced(Value(), u) <==> old(NoComma(Value()) && StaysHidden(Value(), u))
    {
      ghost var c := Value();
      DetectedAre(c, u);
      NormalizeFixes(detected);
      NormalizeFixes(removed);
      ApplyEverythingIff(c, u);
      var pendingAdd, pendingRemove := Normalize(detected), Normalize(removed);
      if |pendingAdd| > 0 || |pendingRemove| > 0 {
        var _, _, _ := ApplySelection(Selection(pendingAdd, [], pendingRemove));
      } else {
        NothingPending(c, u);
      }
    }
  }
}
