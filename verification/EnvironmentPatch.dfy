/** The environment patch of a workspace save (extensions/top/src/workspace.tsx). */
module EnvironmentPatch {
  type Variables = seq<(string, string)>

  datatype Patch = Patch(changes: Variables, remove: seq<string>)

  /** `new Map(pairs)`: a later pair replaces an earlier one with the same name. */
  function AsMap(pairs: Variables): map<string, string> {
    if pairs == [] then map[]
    else AsMap(pairs[..|pairs| - 1])[pairs[|pairs| - 1].0 := pairs[|pairs| - 1].1]
  }

  predicate Changes(previous: map<string, string>, pair: (string, string)) {
    pair.0 !in previous || previous[pair.0] != pair.1
  }

  function Changed(previous: map<string, string>, after: Variables): Variables {
    if after == [] then []
    else (if Changes(previous, after[0]) then [after[0]] else []) + Changed(previous, after[1..])
  }

  function Dropped(before: Variables, next: map<string, string>): seq<string> {
    if before == [] then []
    else (if before[0].0 !in next then [before[0].0] else []) + Dropped(before[1..], next)
  }

  function DiffEnvironment(before: Variables, after: Variables): Patch {
    Patch(Changed(AsMap(before), after), Dropped(before, AsMap(after)))
  }

  // ------------------------------------------------------- applying a patch

  function ApplySet(environment: map<string, string>, pairs: Variables): map<string, string>
    decreases pairs
  {
    if pairs == [] then environment else ApplySet(environment[pairs[0].0 := pairs[0].1], pairs[1..])
  }

  function ApplyRemove(environment: map<string, string>, names: seq<string>): map<string, string>
    decreases names
  {
    if names == [] then environment else ApplyRemove(environment - {names[0]}, names[1..])
  }

  predicate UniqueNames(pairs: Variables) {
    forall i, j :: 0 <= i < j < |pairs| ==> pairs[i].0 != pairs[j].0
  }

  // -------------------------------------------------------------- validation

  datatype Verdict = Accepted | BadName(name: string) | Duplicate(name: string)

  predicate NameCharacter(c: char, first: bool) {
    'A' <= c <= 'Z' || 'a' <= c <= 'z' || c == '_' || (!first && '0' <= c <= '9')
  }

  predicate ValidName(name: string) {
    name != "" && forall i :: 0 <= i < |name| ==> NameCharacter(name[i], i == 0)
  }

  predicate ValidNames(pairs: Variables) {
    forall i :: 0 <= i < |pairs| ==> ValidName(pairs[i].0)
  }

  /** The part of `validate` that looks at the environment. */
  method Validate(environment: Variables) returns (v: Verdict)
    ensures v == Accepted <==> ValidNames(environment) && UniqueNames(environment)
    ensures v.BadName? ==> !ValidName(v.name) && exists i :: 0 <= i < |environment| && environment[i].0 == v.name &&
                                                            ValidNames(environment[..i]) && UniqueNames(environment[..i])
    ensures v.Duplicate? ==> ValidName(v.name) && exists i, j :: 0 <= i < j < |environment| &&
                                                                environment[i].0 == v.name == environment[j].0 &&
                                                                ValidNames(environment[..j]) && UniqueNames(environment[..j])
  {
    var names: set<string> := {};
    for k := 0 to |environment|
      invariant ValidNames(environment[..k]) && UniqueNames(environment[..k])
      invariant forall name :: name in names <==> exists i :: 0 <= i < k && environment[i].0 == name
    {
      var name := environment[k].0;
      if !ValidName(name) {
        return BadName(name);
      }
      if name in names {
        var i :| 0 <= i < k && environment[i].0 == name;
        return Duplicate(name);
      }
      names := names + {name};
      assert environment[..k + 1] == environment[..k] + [environment[k]];
    }
    assert environment[..|environment|] == environment;
    return Accepted;
  }

  // ------------------------------------------------------------ round trip

  predicate Named(pairs: Variables, name: string) {
    exists i :: 0 <= i < |pairs| && pairs[i].0 == name
  }

  lemma NamedSnoc(pairs: Variables, name: string)
    requires pairs != []
    ensures Named(pairs, name) <==> Named(pairs[..|pairs| - 1], name) || pairs[|pairs| - 1].0 == name
  {
    var front := pairs[..|pairs| - 1];
    if Named(front, name) {
      var i :| 0 <= i < |front| && front[i].0 == name;
      assert pairs[i].0 == name;
    }
    if Named(pairs, name) && pairs[|pairs| - 1].0 != name {
      var i :| 0 <= i < |pairs| && pairs[i].0 == name;
      assert front[i].0 == name;
    }
  }

  lemma {:induction false} MapNames(pairs: Variables)
    ensures forall name :: name in AsMap(pairs) <==> Named(pairs, name)
  {
    if pairs != [] {
      var front, last := pairs[..|pairs| - 1], pairs[|pairs| - 1];
      MapNames(front);
      forall name ensures name in AsMap(pairs) <==> Named(pairs, name) {
        NamedSnoc(pairs, name);
      }
    }
  }

  /** The map gives a name the value of its last pair. */
  lemma {:induction false} MapIsLast(pairs: Variables, i: nat)
    requires i < |pairs| && forall j :: i < j < |pairs| ==> pairs[j].0 != pairs[i].0
    ensures pairs[i].0 in AsMap(pairs) && AsMap(pairs)[pairs[i].0] == pairs[i].1
    decreases |pairs|
  {
    if i < |pairs| - 1 {
      assert pairs[..|pairs| - 1][i] == pairs[i];
      MapIsLast(pairs[..|pairs| - 1], i);
    }
  }

  lemma {:induction false} UniqueLookup(pairs: Variables, i: nat)
    requires UniqueNames(pairs) && i < |pairs|
    ensures pairs[i].0 in AsMap(pairs) && AsMap(pairs)[pairs[i].0] == pairs[i].1
  {
    if i < |pairs| - 1 {
      assert pairs[..|pairs| - 1][i] == pairs[i];
      UniqueLookup(pairs[..|pairs| - 1], i);
    }
  }

  lemma {:induction false} SetAppend(environment: map<string, string>, a: Variables, b: Variables)
    ensures ApplySet(environment, a + b) == ApplySet(ApplySet(environment, a), b)
    decreases a
  {
    if a == [] {
      assert a + b == b;
    } else {
      assert (a + b)[1..] == a[1..] + b;
      SetAppend(environment[a[0].0 := a[0].1], a[1..], b);
    }
  }

  /** Setting a list of variables lays its map over the environment. */
  lemma {:induction false} SetOverlays(environment: map<string, string>, pairs: Variables)
    ensures ApplySet(environment, pairs) == environment + AsMap(pairs)
  {
    if pairs != [] {
      var front, last := pairs[..|pairs| - 1], pairs[|pairs| - 1];
      assert pairs == front + [last];
      SetAppend(environment, front, [last]);
      SetOverlays(environment, front);
      var mid := ApplySet(environment, front);
      assert ApplySet(mid[last.0 := last.1], [last][1..]) == mid[last.0 := last.1];
    }
  }

  lemma {:induction false} RemoveDrops(environment: map<string, string>, names: seq<string>)
    ensures ApplyRemove(environment, names) == environment - (set n | n in names)
    decreases names
  {
    if names != [] {
      RemoveDrops(environment - {names[0]}, names[1..]);
      assert names == [names[0]] + names[1..];
      assert (set n | n in names) == {names[0]} + (set n | n in names[1..]);
    }
  }

  lemma {:induction false} DroppedNames(before: Variables, next: map<string, string>)
    ensures forall name :: name in Dropped(before, next) <==> Named(before, name) && name !in next
  {
    if before != [] {
      DroppedNames(before[1..], next);
      assert before == [before[0]] + before[1..];
      forall name ensures Named(before, name) <==> name == before[0].0 || Named(before[1..], name) {
        if Named(before[1..], name) {
          var i :| 0 <= i < |before[1..]| && before[1..][i].0 == name;
          assert before[i + 1].0 == name;
        }
        if Named(before, name) && name != before[0].0 {
          var i :| 0 <= i < |before| && before[i].0 == name;
          assert before[1..][i - 1].0 == name;
        }
      }
    }
  }

  lemma {:induction false} ChangedSnoc(previous: map<string, string>, front: Variables, last: (string, string))
    ensures Changed(previous, front + [last]) ==
            Changed(previous, front) + (if Changes(previous, last) then [last] else [])
  {
    if front == [] {
      assert (front + [last])[0] == last && (front + [last])[1..] == [];
    } else {
      var whole := front + [last];
      assert whole[0] == front[0] && whole[1..] == front[1..] + [last];
      ChangedSnoc(previous, front[1..], last);
      Associate(if Changes(previous, front[0]) then [front[0]] else [], Changed(previous, front[1..]),
                if Changes(previous, last) then [last] else []);
    }
  }

  lemma Associate(a: Variables, b: Variables, c: Variables)
    ensures a + (b + c) == a + b + c
  {
  }

  /** No changed value is restored to its previous one by a later pair of the same list. */
  ghost predicate Settled(previous: map<string, string>, after: Variables) {
    forall i :: 0 <= i < |after| && Changes(previous, after[i]) ==>
      after[i].0 in AsMap(after) && Changes(previous, (after[i].0, AsMap(after)[after[i].0]))
  }

  /** The map of the changed pairs, one pair later. */
  lemma ChangedMapSnoc(previous: map<string, string>, after: Variables)
    requires after != []
    ensures var front, last := after[..|after| - 1], after[|after| - 1];
            AsMap(Changed(previous, after)) ==
            if Changes(previous, last) then AsMap(Changed(previous, front))[last.0 := last.1]
            else AsMap(Changed(previous, front))
  {
    var front, last := after[..|after| - 1], after[|after| - 1];
    assert after == front + [last];
    ChangedSnoc(previous, front, last);
    var shorter := Changed(previous, front);
    assert (shorter + [last])[..|shorter|] == shorter;
    assert shorter + [] == shorter;
  }

  predicate NamesChange(previous: map<string, string>, after: Variables, name: string) {
    exists i :: 0 <= i < |after| && after[i].0 == name && Changes(previous, after[i])
  }

  lemma NamesChangeSnoc(previous: map<string, string>, after: Variables, name: string)
    requires after != []
    ensures var front, last := after[..|after| - 1], after[|after| - 1];
            NamesChange(previous, after, name) <==>
            NamesChange(previous, front, name) || (last.0 == name && Changes(previous, last))
  {
    var front := after[..|after| - 1];
    if i :| 0 <= i < |front| && front[i].0 == name && Changes(previous, front[i]) {
      assert after[i] == front[i];
    }
    if i :| 0 <= i < |after| && after[i].0 == name && Changes(previous, after[i]) {
      assert i < |front| ==> front[i] == after[i];
    }
  }

  /** The map of the changed pairs holds exactly the names of changed pairs. */
  lemma {:induction false} ChangedMapNames(previous: map<string, string>, after: Variables, name: string)
    ensures name in AsMap(Changed(previous, after)) <==> NamesChange(previous, after, name)
  {
    if after != [] {
      ChangedMapNames(previous, after[..|after| - 1], name);
      ChangedMapSnoc(previous, after);
      NamesChangeSnoc(previous, after, name);
    }
  }

  /** It holds changed values only, and the last value of a name if that is a changed one. */
  lemma {:induction false} ChangedMapValues(previous: map<string, string>, after: Variables, name: string)
    ensures var changed := AsMap(Changed(previous, after));
            (name in changed ==> Changes(previous, (name, changed[name]))) &&
            (name in AsMap(after) && Changes(previous, (name, AsMap(after)[name])) ==>
               name in changed && changed[name] == AsMap(after)[name])
  {
    if after != [] {
      ChangedMapValues(previous, after[..|after| - 1], name);
      ChangedMapSnoc(previous, after);
    }
  }

  /** The map of the changed pairs: a name keeps its last changed value. */
  lemma ChangedMap(previous: map<string, string>, after: Variables)
    ensures forall name :: name in AsMap(Changed(previous, after)) <==> NamesChange(previous, after, name)
    ensures forall name :: name in AsMap(Changed(previous, after)) ==>
              Changes(previous, (name, AsMap(Changed(previous, after))[name]))
    ensures forall name :: name in AsMap(after) && Changes(previous, (name, AsMap(after)[name])) ==>
              name in AsMap(Changed(previous, after)) && AsMap(Changed(previous, after))[name] == AsMap(after)[name]
  {
    forall name
      ensures name in AsMap(Changed(previous, after)) <==> NamesChange(previous, after, name)
      ensures name in AsMap(Changed(previous, after)) ==>
                Changes(previous, (name, AsMap(Changed(previous, after))[name]))
      ensures name in AsMap(after) && Changes(previous, (name, AsMap(after)[name])) ==>
                name in AsMap(Changed(previous, after)) && AsMap(Changed(previous, after))[name] == AsMap(after)[name]
    {
      ChangedMapNames(previous, after, name);
      ChangedMapValues(previous, after, name);
    }
  }

  /** The environment a patch leads to, with its removals first or last. */
  lemma PatchResult(before: Variables, after: Variables)
    ensures var p, start := DiffEnvironment(before, after), AsMap(before);
            ApplySet(ApplyRemove(start, p.remove), p.changes) == Kept(start, AsMap(after)) + AsMap(p.changes) &&
            ApplyRemove(ApplySet(start, p.changes), p.remove) == Kept(start, AsMap(after)) + AsMap(p.changes)
  {
    var p, start, target := DiffEnvironment(before, after), AsMap(before), AsMap(after);
    var gone := set n | n in p.remove;
    RemoveDrops(start, p.remove);
    SetOverlays(start - gone, p.changes);
    SetOverlays(start, p.changes);
    RemoveDrops(start + AsMap(p.changes), p.remove);
    DroppedNames(before, target);
    MapNames(before);
    SetNamesWanted(before, after);
    assert gone == start.Keys - target.Keys;
    RemovalsCommute(start, target, AsMap(p.changes));
  }

  lemma RemovalsCommute(start: map<string, string>, target: map<string, string>, changes: map<string, string>)
    requires changes.Keys <= target.Keys
    ensures start - (start.Keys - target.Keys) == Kept(start, target)
    ensures (start + changes) - (start.Keys - target.Keys) == Kept(start, target) + changes
  {
  }

  function Kept(start: map<string, string>, target: map<string, string>): map<string, string> {
    map name | name in start && name in target :: start[name]
  }

  lemma SettledReachesTarget(start: map<string, string>, after: Variables)
    requires Settled(start, after)
    ensures Kept(start, AsMap(after)) + AsMap(Changed(start, after)) == AsMap(after)
  {
    var target, changed := AsMap(after), AsMap(Changed(start, after));
    var result := Kept(start, target) + changed;
    ChangedMap(start, after);
    MapNames(after);
    forall name | name in result ensures name in target && target[name] == result[name] {
      if name in changed {
        var i :| 0 <= i < |after| && after[i].0 == name && Changes(start, after[i]);
      }
    }
    assert result == target;
  }

  lemma OverlayReachesTarget(start: map<string, string>, after: Variables)
    ensures Kept(start, AsMap(after)) + AsMap(Changed(start, after)) == AsMap(after) <==> Settled(start, after)
  {
    var target, changed := AsMap(after), AsMap(Changed(start, after));
    if Settled(start, after) {
      SettledReachesTarget(start, after);
    } else if Kept(start, target) + changed == target {
      ChangedMap(start, after);
      forall i | 0 <= i < |after| && Changes(start, after[i])
        ensures after[i].0 in target && Changes(start, (after[i].0, target[after[i].0]))
      {
        assert after[i].0 in changed;
      }
      assert false;
    }
  }

  /** Applying the patch, in either order of its two lists, gives the wanted environment exactly
      when no changed value is shadowed by a later restoring one. */
  lemma PatchReachesTarget(before: Variables, after: Variables)
    ensures var p, start := DiffEnvironment(before, after), AsMap(before);
            ApplySet(ApplyRemove(start, p.remove), p.changes) == ApplyRemove(ApplySet(start, p.changes), p.remove)
    ensures var p, start := DiffEnvironment(before, after), AsMap(before);
            ApplySet(ApplyRemove(start, p.remove), p.changes) == AsMap(after) <==> Settled(start, after)
  {
    PatchResult(before, after);
    OverlayReachesTarget(AsMap(before), after);
  }

  lemma SetNamesWanted(before: Variables, after: Variables)
    ensures forall name :: name in AsMap(DiffEnvironment(before, after).changes) ==>
              name in AsMap(after) && name !in DiffEnvironment(before, after).remove
  {
    ChangedMap(AsMap(before), after);
    MapNames(after);
    DroppedNames(before, AsMap(after));
  }

  lemma UniqueIsSettled(previous: map<string, string>, after: Variables)
    requires UniqueNames(after)
    ensures Settled(previous, after)
  {
    forall i | 0 <= i < |after| && Changes(previous, after[i])
      ensures after[i].0 in AsMap(after) && Changes(previous, (after[i].0, AsMap(after)[after[i].0]))
    {
      UniqueLookup(after, i);
    }
  }

  /** A list with a repeated name for which the patch goes wrong; `validate` refuses it. */
  lemma ShadowedChangeIsLost()
    ensures var before, after := [("A", "2")], [("A", "1"), ("A", "2")];
            var p := DiffEnvironment(before, after);
            ApplySet(ApplyRemove(AsMap(before), p.remove), p.changes) != AsMap(after)
  {
    var before, after := [("A", "2")], [("A", "1"), ("A", "2")];
    assert before[..0] == [] && AsMap(before) == map["A" := "2"];
    assert after[..1] == [("A", "1")] && after[..1][..0] == [];
    assert AsMap(after)["A"] == "2";
    assert !Settled(AsMap(before), after) by {
      assert Changes(AsMap(before), after[0]);
    }
    PatchReachesTarget(before, after);
  }

  /** Every entry of the patch really changes the previous map, and the lists name disjoint names. */
  lemma PatchIsMinimal(before: Variables, after: Variables)
    ensures var p := DiffEnvironment(before, after);
            (forall i :: 0 <= i < |p.changes| ==> Changes(AsMap(before), p.changes[i]) && p.changes[i] in after) &&
            (forall name :: name in p.remove ==> name in AsMap(before)) &&
            (forall i :: 0 <= i < |p.changes| ==> p.changes[i].0 !in p.remove)
  {
    ChangedEntries(AsMap(before), after);
    DroppedNames(before, AsMap(after));
    MapNames(before);
    MapNames(after);
    var p := DiffEnvironment(before, after);
    forall i | 0 <= i < |p.changes| ensures p.changes[i].0 !in p.remove {
      var k :| 0 <= k < |after| && after[k] == p.changes[i];
      assert Named(after, after[k].0);
    }
  }

  lemma {:induction false} ChangedEntries(previous: map<string, string>, after: Variables)
    ensures forall i :: 0 <= i < |Changed(previous, after)| ==>
              Changes(previous, Changed(previous, after)[i]) && Changed(previous, after)[i] in after
  {
    if after != [] {
      ChangedEntries(previous, after[1..]);
    }
  }

  lemma {:induction false} NoChange(previous: map<string, string>, after: Variables)
    ensures Changed(previous, after) == [] <==> forall i :: 0 <= i < |after| ==> !Changes(previous, after[i])
  {
    if after != [] {
      NoChange(previous, after[1..]);
      assert forall i :: 1 <= i < |after| ==> after[i] == after[1..][i - 1];
    }
  }

  lemma EmptyList(names: seq<string>)
    ensures names == [] <==> forall name :: name !in names
  {
    if names != [] {
      assert names[0] in names;
    }
  }

  /** The patch is empty exactly when nothing has to change. */
  lemma EmptyPatchIffEqual(before: Variables, after: Variables)
    requires UniqueNames(after)
    ensures DiffEnvironment(before, after) == Patch([], []) <==> AsMap(before) == AsMap(after)
  {
    var p, start := DiffEnvironment(before, after), AsMap(before);
    UniqueIsSettled(start, after);
    PatchReachesTarget(before, after);
    NoChange(start, after);
    DroppedNames(before, AsMap(after));
    MapNames(before);
    if start == AsMap(after) {
      forall i | 0 <= i < |after| ensures !Changes(start, after[i]) {
        UniqueLookup(after, i);
      }
      EmptyList(p.remove);
    }
  }

  // ------------------------------------------------------------------- save

  datatype Saved = Saved(host: map<string, string>, patched: bool) | Refused

  /** What a save that meets no host error does to the host's environment: the settings update
      leaves it alone, and the patch call is made only when there is something to patch. */
  method Save(host: map<string, string>, observed: Variables, candidate: Variables) returns (r: Saved)
    requires host == AsMap(observed)
    ensures r.Saved? <==> ValidNames(candidate) && UniqueNames(candidate)
    ensures r.Saved? ==> r.host == AsMap(candidate) && (r.patched <==> AsMap(candidate) != host)
  {
    var verdict := Validate(candidate);
    if verdict != Accepted {
      return Refused;
    }
    var patch := DiffEnvironment(observed, candidate);
    UniqueIsSettled(host, candidate);
    PatchReachesTarget(observed, candidate);
    EmptyPatchIffEqual(observed, candidate);
    if |patch.changes| > 0 || |patch.remove| > 0 {
      return Saved(ApplySet(ApplyRemove(host, patch.remove), patch.changes), true);
    }
    return Saved(host, false);
  }
}
