/** What extraction promises: no element is lost or doubled, and nothing comes from nowhere. */
module ExtractionTheorems {
  import opened Texts
  import opened Json
  import opened Pointers
  import opened Redact
  import opened Walks
  import opened Extraction

  // ---- which place a path leads to ----

  predicate GoodGroup(group: Value) {
    group.Obj? && !BadMatcher(group) && Below(group, HOOKS).Some?
  }

  /** The place one step further, if extraction goes there. */
  function NextPlace(place: Place, v: Value, s: Step, setup: Setup): Option<Place> {
    if Below(v, s).None? then None
    else if IsContainer(place) && Fits(place, v) then Some(ChildPlace(place, s))
    else if place.MatcherGroup? && GoodGroup(v) && s == HOOKS then Some(HookList(place.event, MatcherOf(v, setup)))
    else None
  }

  /** The steps that extraction takes from a place. */
  function NextSteps(place: Place, v: Value): (steps: seq<Step>)
    ensures forall s | s in steps :: Below(v, s).Some?
    ensures forall i, j | 0 <= i < j < |steps| :: steps[i] != steps[j]
    ensures forall s, setup :: s in steps <==> NextPlace(place, v, s, setup).Some?
  {
    if IsContainer(place) && Fits(place, v) then StepsOf(v)
    else if place.MatcherGroup? && GoodGroup(v) then [HOOKS]
    else []
  }

  function PlaceAt(place: Place, v: Value, path: Path, setup: Setup): Option<Place>
    decreases |path|
  {
    if path == [] then Some(place)
    else
      match NextPlace(place, v, path[0], setup)
      case None => None
      case Some(next) => PlaceAt(next, Below(v, path[0]).value, path[1..], setup)
  }

  /** What a place yields itself, rather than the places below it. */
  function OwnItems(place: Place, raw: Value, path: Path, key: Option<Text>, setup: Setup): seq<Item> {
    if IsContainer(place) then if Fits(place, raw) then [] else [Noted(path, Fail)]
    else if place.MatcherGroup? then if GoodGroup(raw) then [] else VisitGroup(place.event, raw, path, setup)
    else LeafItems(place, raw, path, key, setup)
  }

  /** What the places below a place yield, step by step. */
  function NextParts(place: Place, raw: Value, path: Path, key: Option<Text>, setup: Setup): (parts: seq<seq<Item>>)
    ensures var steps := NextSteps(place, raw);
            && |parts| == |steps|
            && forall i | 0 <= i < |parts| ::
                 parts[i] == Visit(NextPlace(place, raw, steps[i], setup).value, Below(raw, steps[i]).value,
                                   path + [steps[i]], KeyBelow(steps[i], key), setup)
  {
    var steps := NextSteps(place, raw);
    seq(|steps|, i requires 0 <= i < |steps| =>
          Visit(NextPlace(place, raw, steps[i], setup).value, Below(raw, steps[i]).value,
                path + [steps[i]], KeyBelow(steps[i], key), setup))
  }

  /** A visit is what the place yields itself and what the places below it yield. */
  lemma VisitUnfolds(place: Place, raw: Value, path: Path, key: Option<Text>, setup: Setup)
    ensures Visit(place, raw, path, key, setup)
         == OwnItems(place, raw, path, key, setup) + Flatten(NextParts(place, raw, path, key, setup))
  {
    hide LeafItems, StepsOf;
    var parts := NextParts(place, raw, path, key, setup);
    if IsContainer(place) && Fits(place, raw) {
      assert parts == Parts(place, raw, path, key, setup);
    } else if place.MatcherGroup? && GoodGroup(raw) {
      assert parts[1..] == [] && parts[0] + Flatten(parts[1..]) == parts[0];
    }
  }

  // ---- where items stand ----

  lemma {:induction false} NonStringsStand(items: seq<Value>, path: Path)
    ensures forall x | x in NonStrings(items, path) ::
              x.what == Fail && exists i :: 0 <= i < |items| && !items[i].Str? && x.path == path + [Index(i)]
  {
    if items != [] {
      NonStringsStand(items[..|items| - 1], path);
      forall x | x in NonStrings(items[..|items| - 1], path)
        ensures exists i :: 0 <= i < |items| && !items[i].Str? && x.path == path + [Index(i)]
      {
        var i :| 0 <= i < |items| - 1 && !items[..|items| - 1][i].Str? && x.path == path + [Index(i)];
        assert !items[i].Str?;
      }
    }
  }

  lemma {:induction false} MapFailuresStand(members: map<Text, Value>, names: seq<Text>, path: Path)
    requires forall name | name in names :: name in members
    ensures forall x | x in MapFailures(members, names, path) ::
              x.what == Fail && exists name :: name in names && !members[name].Str? && x.path == path + [Key(name)]
  {
    if names != [] {
      var init := names[..|names| - 1];
      MapFailuresStand(members, init, path);
      assert forall name :: name in names <==> name in init || name == names[|names| - 1];
    }
  }

  lemma ServerFailuresUnder(shown: Value, raw: Value, path: Path)
    ensures Under(ServerFailures(shown, raw, path), path)
    ensures forall x | x in ServerFailures(shown, raw, path) :: x.what == Fail && |x.path| > |path|
  {
    hide MapFailures, SortedKeys;
    var env, headers := Key(Ascii("env")), Key(Ascii("headers"));
    DigestFailuresUnder(Below(raw, env), path + [env]);
    DigestFailuresUnder(Below(raw, headers), path + [headers]);
    forall x | x in ServerFailures(shown, raw, path) ensures path <= x.path && x.what == Fail && |x.path| > |path| {
      if path + [env] <= x.path { StepOnPath(path, env, x.path); }
      if path + [headers] <= x.path { StepOnPath(path, headers, x.path); }
    }
  }

  lemma DigestFailuresUnder(raw: Option<Value>, path: Path)
    ensures Under(DigestFailures(raw, path), path) && forall x | x in DigestFailures(raw, path) :: x.what == Fail
  {
    hide MapFailures, SortedKeys;
    if raw.Some? && raw.value.Obj? {
      MapFailuresStand(raw.value.members, SortedKeys(raw.value.members), path);
    }
  }

  lemma OwnUnder(place: Place, raw: Value, path: Path, key: Option<Text>, setup: Setup)
    ensures Under(OwnItems(place, raw, path, key, setup), path)
  {
    hide LeafItems, VisitGroup, Fits, GoodGroup;
    if place.MatcherGroup? {
      GroupUnder(place.event, raw, path, setup);
    } else if !IsContainer(place) {
      LeafUnder(place, raw, path, key, setup);
    }
  }

  lemma GroupUnder(event: Text, raw: Value, path: Path, setup: Setup)
    ensures !GoodGroup(raw) ==> Under(VisitGroup(event, raw, path, setup), path)
  {
    hide Visit, Ascii;
  }

  lemma LeafUnder(place: Place, raw: Value, path: Path, key: Option<Text>, setup: Setup)
    ensures Under(LeafItems(place, raw, path, key, setup), path)
  {
    hide RuleItem, DirectoryItem, ModeItem, HookItem, EnvItem, HelperItem, FlagItems, ServerItems, RedactTree, Ascii,
         PointerTo;
    var shown := RedactTree(raw, key, setup.detector);
    if place.FlagKey? { FlagUnder(place.name, shown, path); }
    if place.Server? { ServerUnder(place.name, shown, raw, path, setup); }
  }

  lemma FlagUnder(name: Text, shown: Value, path: Path)
    ensures Under(FlagItems(name, shown, path), path)
  {
    hide NonStrings, Ascii, SortedNames;
    if shown.Arr? { NonStringsStand(shown.items, path); }
  }

  lemma ServerUnder(name: Text, shown: Value, raw: Value, path: Path, setup: Setup)
    ensures Under(ServerItems(name, shown, raw, path, setup), path)
  {
    hide ServerFailures, McpFieldsOf, McpValue, Ascii;
    ServerFailuresUnder(shown, raw, path);
  }

  lemma {:induction false} VisitUnder(place: Place, raw: Value, path: Path, key: Option<Text>, setup: Setup)
    ensures Under(Visit(place, raw, path, key, setup), path)
    decreases raw
  {
    hide Visit, OwnItems, NextSteps, NextPlace;
    NextBranches(place, raw, path, key, setup);
    BranchesUnder(NextParts(place, raw, path, key, setup), path, NextSteps(place, raw));
    OwnUnder(place, raw, path, key, setup);
    VisitUnfolds(place, raw, path, key, setup);
  }

  lemma {:induction false} NextBranches(place: Place, raw: Value, path: Path, key: Option<Text>, setup: Setup)
    ensures Branches(NextParts(place, raw, path, key, setup), path, NextSteps(place, raw))
    decreases raw, 0
  {
    hide Visit, NextSteps, NextPlace;
    var steps, parts := NextSteps(place, raw), NextParts(place, raw, path, key, setup);
    forall j | 0 <= j < |parts| ensures Under(parts[j], path + [steps[j]]) {
      assert steps[j] in steps;
      ChildIsSmaller(raw, steps[j]);
      VisitUnder(NextPlace(place, raw, steps[j], setup).value, Below(raw, steps[j]).value, path + [steps[j]],
                 KeyBelow(steps[j], key), setup);
    }
  }

  lemma ChildIsSmaller(v: Value, s: Step)
    requires Below(v, s).Some?
    ensures Below(v, s).value < v
  {
  }

  // ---- every item comes from a place, and every place's items are there ----

  lemma {:induction false} PlaceIsNode(place: Place, v: Value, path: Path, setup: Setup)
    requires PlaceAt(place, v, path, setup).Some?
    ensures NodeAt(v, path).Some?
    decreases |path|
  {
    hide NextSteps;
    if path != [] {
      PlaceIsNode(NextPlace(place, v, path[0], setup).value, Below(v, path[0]).value, path[1..], setup);
    }
  }

  /** What the place at a path yields itself. */
  ghost predicate Yields(place: Place, raw: Value, base: Path, key: Option<Text>, setup: Setup, path: Path, x: Item) {
    && PlaceAt(place, raw, path, setup).Some? && NodeAt(raw, path).Some?
    && x in OwnItems(PlaceAt(place, raw, path, setup).value, NodeAt(raw, path).value, base + path, KeyAt(path, key),
      setup)
  }

  lemma YieldsBelow(
    place: Place, raw: Value, base: Path, key: Option<Text>, setup: Setup, s: Step, next: Place, path: Path, x: Item)
    requires Below(raw, s).Some? && NextPlace(place, raw, s, setup) == Some(next)
    ensures Yields(place, raw, base, key, setup, [s] + path, x)
       <==> Yields(next, Below(raw, s).value, base + [s], KeyBelow(s, key), setup, path, x)
  {
    hide OwnItems, NextPlace, Below;
    assert ([s] + path)[1..] == path;
    assert base + ([s] + path) == (base + [s]) + path;
  }

  /** Extraction yields precisely what the places that it reaches yield themselves. */
  lemma {:induction false} ItemsComeFromPlaces(
    place: Place, raw: Value, base: Path, key: Option<Text>, setup: Setup, x: Item)
    ensures x in Visit(place, raw, base, key, setup)
       <==> exists path :: Yields(place, raw, base, key, setup, path, x)
    decreases raw
  {
    hide Visit, OwnItems, NextPlace, NextSteps, Yields, Below;
    var steps, parts := NextSteps(place, raw), NextParts(place, raw, base, key, setup);
    VisitUnfolds(place, raw, base, key, setup);
    FlattenMembers(parts, x);
    forall i | 0 <= i < |steps|
      ensures x in parts[i]
         <==> exists path :: Yields(NextPlace(place, raw, steps[i], setup).value, Below(raw, steps[i]).value,
                                    base + [steps[i]], KeyBelow(steps[i], key), setup, path, x)
    {
      assert steps[i] in steps;
      ChildIsSmaller(raw, steps[i]);
      ItemsComeFromPlaces(NextPlace(place, raw, steps[i], setup).value, Below(raw, steps[i]).value,
                          base + [steps[i]], KeyBelow(steps[i], key), setup, x);
    }
    if x in Visit(place, raw, base, key, setup) {
      ItemHasPlace(place, raw, base, key, setup, x);
    }
    if path :| Yields(place, raw, base, key, setup, path, x) {
      PlaceHasItem(place, raw, base, key, setup, path, x);
    }
  }

  lemma OwnYields(place: Place, raw: Value, base: Path, key: Option<Text>, setup: Setup, x: Item)
    ensures Yields(place, raw, base, key, setup, [], x) <==> x in OwnItems(place, raw, base, key, setup)
  {
    hide OwnItems;
    assert base + [] == base;
  }

  lemma ItemHasPlace(place: Place, raw: Value, base: Path, key: Option<Text>, setup: Setup, x: Item)
    requires
      || x in OwnItems(place, raw, base, key, setup)
      || exists i, path :: 0 <= i < |NextSteps(place, raw)| &&
           var s := NextSteps(place, raw)[i];
           Yields(NextPlace(place, raw, s, setup).value, Below(raw, s).value, base + [s], KeyBelow(s, key), setup,
             path, x)
    ensures exists path :: Yields(place, raw, base, key, setup, path, x)
  {
    hide OwnItems, NextPlace, NextSteps, Yields, Below;
    OwnYields(place, raw, base, key, setup, x);
    if x !in OwnItems(place, raw, base, key, setup) {
      var steps := NextSteps(place, raw);
      var i, path :| 0 <= i < |steps| &&
        Yields(NextPlace(place, raw, steps[i], setup).value, Below(raw, steps[i]).value,
               base + [steps[i]], KeyBelow(steps[i], key), setup, path, x);
      assert steps[i] in steps;
      YieldsBelow(place, raw, base, key, setup, steps[i], NextPlace(place, raw, steps[i], setup).value, path, x);
    }
  }

  lemma PlaceHasItem(place: Place, raw: Value, base: Path, key: Option<Text>, setup: Setup, path: Path, x: Item)
    requires Yields(place, raw, base, key, setup, path, x)
    ensures
      || x in OwnItems(place, raw, base, key, setup)
      || exists i, rest :: 0 <= i < |NextSteps(place, raw)| &&
           var s := NextSteps(place, raw)[i];
           Yields(NextPlace(place, raw, s, setup).value, Below(raw, s).value, base + [s], KeyBelow(s, key), setup,
             rest, x)
  {
    hide OwnItems, NextPlace, NextSteps, Below;
    OwnYields(place, raw, base, key, setup, x);
    if path != [] {
      var steps := NextSteps(place, raw);
      assert path[0] in steps;
      var i :| 0 <= i < |steps| && steps[i] == path[0];
      assert path == [path[0]] + path[1..];
      YieldsBelow(place, raw, base, key, setup, steps[i], NextPlace(place, raw, steps[i], setup).value, path[1..], x);
    }
  }

  // ---- exactly once ----

  /** Places that yield one item each, at their own path. */
  predicate IsElement(place: Place) {
    !IsContainer(place) && !place.MatcherGroup? && !place.FlagKey? && !place.Server?
  }

  /** Below a place that yields nothing itself, only the part of the step taken counts. */
  lemma CountStep(place: Place, raw: Value, base: Path, key: Option<Text>, setup: Setup, s: Step, q: Path)
    requires NextPlace(place, raw, s, setup).Some? && base + [s] <= q
    ensures Count(Visit(place, raw, base, key, setup), q)
         == Count(Visit(NextPlace(place, raw, s, setup).value, Below(raw, s).value, base + [s], KeyBelow(s, key),
           setup), q)
  {
    hide Visit, LeafItems, StepsOf, Below;
    var steps, parts := NextSteps(place, raw), NextParts(place, raw, base, key, setup);
    VisitUnfolds(place, raw, base, key, setup);
    NextBranches(place, raw, base, key, setup);
    assert s in steps;
    var i :| 0 <= i < |steps| && steps[i] == s;
    CountBranch(parts, base, steps, i, q);
    assert OwnItems(place, raw, base, key, setup) == [];
    assert [] + Flatten(parts) == Flatten(parts);
  }

  /** Below the path of a reached place, only the items of that place count. */
  lemma {:induction false} CountReached(
    place: Place, raw: Value, base: Path, key: Option<Text>, setup: Setup, path: Path, q: Path)
    requires PlaceAt(place, raw, path, setup).Some? && NodeAt(raw, path).Some? && base + path <= q
    ensures Count(Visit(place, raw, base, key, setup), q)
         == Count(Visit(PlaceAt(place, raw, path, setup).value, NodeAt(raw, path).value, base + path,
                        KeyAt(path, key), setup), q)
    decreases |path|
  {
    hide Visit, NextPlace, NextSteps, Below;
    if path == [] {
      assert base + [] == base;
    } else {
      var s := path[0];
      AppendPath(base, path);
      StepOnPath(base, s, q);
      assert q[|base|] == (base + path)[|base|];
      CountStep(place, raw, base, key, setup, s, q);
      CountReached(NextPlace(place, raw, s, setup).value, Below(raw, s).value, base + [s], KeyBelow(s, key), setup,
        path[1..], q);
    }
  }

  /** Each reached element yields exactly one item at its own path, an entry or a failure. */
  lemma ElementsAreConserved(role: Role, raw: Value, setup: Setup, path: Path)
    requires PlaceAt(RootPlace(role), raw, path, setup).Some?
      && IsElement(PlaceAt(RootPlace(role), raw, path, setup).value)
    ensures NodeAt(raw, path).Some?
    ensures var place := PlaceAt(RootPlace(role), raw, path, setup).value;
            var items := Visit(RootPlace(role), raw, [], None, setup);
            var own := LeafItems(place, NodeAt(raw, path).value, path, KeyAt(path, None), setup);
            |own| == 1 && own[0].path == path && own[0] in items && Count(items, path) == 1
  {
    hide Visit, NextPlace, NextSteps, Below, RuleItem, DirectoryItem, ModeItem, HookItem, EnvItem, HelperItem,
         FlagItems, ServerItems, RedactTree, Ascii, PointerTo, PlaceAt;
    PlaceIsNode(RootPlace(role), raw, path, setup);
    var place := PlaceAt(RootPlace(role), raw, path, setup).value;
    var v, key := NodeAt(raw, path).value, KeyAt(path, None);
    assert [] + path == path;
    CountReached(RootPlace(role), raw, [], None, setup, path, path);
    ElementVisit(place, v, path, key, setup);
    ItemsComeFromPlaces(RootPlace(role), raw, [], None, setup, LeafItems(place, v, path, key, setup)[0]);
    assert Yields(RootPlace(role), raw, [], None, setup, path, LeafItems(place, v, path, key, setup)[0]);
  }

  lemma ElementVisit(place: Place, v: Value, path: Path, key: Option<Text>, setup: Setup)
    requires IsElement(place)
    ensures var own := LeafItems(place, v, path, key, setup);
            && Visit(place, v, path, key, setup) == own == OwnItems(place, v, path, key, setup)
            && |own| == 1 && own[0].path == path && Count(own, path) == 1
  {
    hide RuleItem, DirectoryItem, ModeItem, HookItem, EnvItem, HelperItem, FlagItems, ServerItems, RedactTree, Ascii,
         PointerTo;
  }

  // ---- which paths are elements ----

  lemma {:induction false} PlaceSnoc(place: Place, v: Value, path: Path, s: Step, setup: Setup)
    requires PlaceAt(place, v, path, setup).Some? && NodeAt(v, path).Some?
    ensures PlaceAt(place, v, path + [s], setup) == NextPlace(PlaceAt(place, v, path, setup).value,
      NodeAt(v, path).value, s, setup)
    decreases |path|
  {
    hide NextPlace, Below;
    if path == [] {
      assert [] + [s] == [s] && [s][0] == s && [s][1..] == [];
    } else {
      assert (path + [s])[1..] == path[1..] + [s] && (path + [s])[0] == path[0];
      PlaceSnoc(NextPlace(place, v, path[0], setup).value, Below(v, path[0]).value, path[1..], s, setup);
    }
  }

  /** One more step of a path of places. */
  lemma Reach(raw: Value, path: Path, place: Place, s: Step, setup: Setup)
    requires PlaceAt(SettingsRoot, raw, path, setup) == Some(place)
    requires NodeAt(raw, path + [s]).Some?
    ensures NodeAt(raw, path).Some? && NodeAt(raw, path + [s]) == Below(NodeAt(raw, path).value, s)
    ensures PlaceAt(SettingsRoot, raw, path + [s], setup) == NextPlace(place, NodeAt(raw, path).value, s, setup)
  {
    hide NextPlace, Below;
    PlaceIsNode(SettingsRoot, raw, path, setup);
    NodeSnoc(raw, path, s);
    PlaceSnoc(SettingsRoot, raw, path, s, setup);
  }

  /** A node's parents are nodes. */
  lemma {:induction false} ParentNode(v: Value, path: Path, s: Step)
    requires NodeAt(v, path + [s]).Some?
    ensures NodeAt(v, path).Some?
    decreases |path|
  {
    hide Below;
    if path != [] {
      assert (path + [s])[1..] == path[1..] + [s] && (path + [s])[0] == path[0];
      ParentNode(Below(v, path[0]).value, path[1..], s);
    }
  }

  const PERMISSIONS: Step := Key(Ascii("permissions"))
  const ENV: Step := Key(Ascii("env"))

  lemma SettingsNames()
    ensures SettingsPlace(Ascii("permissions")) == Permissions && SettingsPlace(Ascii("hooks")) == Hooks
    ensures SettingsPlace(Ascii("env")) == Env
    ensures PermissionsPlace(Ascii("additionalDirectories")) == Directories
  {
    assert |Ascii("permissions")| == 11 && |Ascii("hooks")| == 5 && |Ascii("env")| == 3;
    assert |Ascii("additionalDirectories")| == 21 && |Ascii("allow")| == 5 && |Ascii("ask")| == 3 && |Ascii("deny")|
      == 4;
  }

  lemma SectionIsReached(raw: Value, s: Step, setup: Setup)
    requires NodeAt(raw, [s]).Some? && s.Key?
    ensures PlaceAt(SettingsRoot, raw, [s], setup) == Some(SettingsPlace(s.name))
    ensures NodeAt(raw, [s]) == Below(raw, s)
  {
    assert [] + [s] == [s];
    Reach(raw, [], SettingsRoot, s, setup);
  }

  /** A child of a container that is reached is reached. */
  lemma ChildIsReached(raw: Value, path: Path, place: Place, s: Step, setup: Setup)
    requires PlaceAt(SettingsRoot, raw, path, setup) == Some(place) && NodeAt(raw, path + [s]).Some?
    requires if OverObject(place) then s.Key? else OverArray(place) && s.Index?
    ensures PlaceAt(SettingsRoot, raw, path + [s], setup) == Some(ChildPlace(place, s))
  {
    hide NodeAt, PlaceAt;
    Reach(raw, path, place, s, setup);
  }

  /** Every element of an allow, ask or deny array is reached as a rule. */
  lemma RulesAreReached(raw: Value, list: Text, i: nat, setup: Setup)
    requires IsPermissionList(list) && NodeAt(raw, [PERMISSIONS, Key(list), Index(i)]).Some?
    ensures PlaceAt(SettingsRoot, raw, [PERMISSIONS, Key(list), Index(i)], setup) == Some(Rule(list))
  {
    hide NodeAt, PlaceAt, SettingsPlace;
    SettingsNames();
    ListIsReached(raw, list, Index(i), setup);
  }

  /** Every element of additionalDirectories is reached as a directory. */
  lemma DirectoriesAreReached(raw: Value, i: nat, setup: Setup)
    requires NodeAt(raw, [PERMISSIONS, Key(Ascii("additionalDirectories")), Index(i)]).Some?
    ensures PlaceAt(SettingsRoot, raw, [PERMISSIONS, Key(Ascii("additionalDirectories")), Index(i)], setup)
      == Some(Directory)
  {
    hide NodeAt, PlaceAt, SettingsPlace;
    SettingsNames();
    ListIsReached(raw, Ascii("additionalDirectories"), Index(i), setup);
  }

  lemma ListIsReached(raw: Value, list: Text, s: Step, setup: Setup)
    requires NodeAt(raw, [PERMISSIONS, Key(list), s]).Some? && s.Index? && OverArray(PermissionsPlace(list))
    ensures PlaceAt(SettingsRoot, raw, [PERMISSIONS, Key(list), s], setup)
      == Some(ChildPlace(PermissionsPlace(list), s))
  {
    hide NodeAt, PlaceAt, SettingsPlace, PermissionsPlace;
    SettingsNames();
    assert [PERMISSIONS] + [Key(list)] == [PERMISSIONS, Key(list)];
    assert [PERMISSIONS, Key(list)] + [s] == [PERMISSIONS, Key(list), s];
    ParentNode(raw, [PERMISSIONS, Key(list)], s);
    ParentNode(raw, [PERMISSIONS], Key(list));
    SectionIsReached(raw, PERMISSIONS, setup);
    ChildIsReached(raw, [PERMISSIONS], Permissions, Key(list), setup);
    ChildIsReached(raw, [PERMISSIONS, Key(list)], PermissionsPlace(list), s, setup);
  }

  /** Every name of an env object is reached. */
  lemma EnvNamesAreReached(raw: Value, name: Text, setup: Setup)
    requires NodeAt(raw, [ENV, Key(name)]).Some?
    ensures PlaceAt(SettingsRoot, raw, [ENV, Key(name)], setup) == Some(EnvName(name))
  {
    hide NodeAt, PlaceAt, SettingsPlace;
    SettingsNames();
    assert [ENV] + [Key(name)] == [ENV, Key(name)];
    ParentNode(raw, [ENV], Key(name));
    SectionIsReached(raw, ENV, setup);
    ChildIsReached(raw, [ENV], Env, Key(name), setup);
  }

  /** Every group of a hook event is reached. */
  lemma GroupsAreReached(raw: Value, event: Text, g: nat, setup: Setup)
    requires NodeAt(raw, [HOOKS, Key(event), Index(g)]).Some?
    ensures PlaceAt(SettingsRoot, raw, [HOOKS, Key(event), Index(g)], setup) == Some(MatcherGroup(event))
  {
    hide NodeAt, PlaceAt, SettingsPlace;
    SettingsNames();
    var a := [HOOKS, Key(event)];
    assert [HOOKS] + [Key(event)] == a && a + [Index(g)] == [HOOKS, Key(event), Index(g)];
    ParentNode(raw, a, Index(g));
    ParentNode(raw, [HOOKS], Key(event));
    SectionIsReached(raw, HOOKS, setup);
    ChildIsReached(raw, [HOOKS], Hooks, Key(event), setup);
    ChildIsReached(raw, a, HookEvent(event), Index(g), setup);
  }

  /** The paths from a group to its list and to a definition in it. */
  lemma GroupPaths(raw: Value, event: Text, g: nat, i: nat)
    requires NodeAt(raw, [HOOKS, Key(event), Index(g), HOOKS, Index(i)]).Some?
    ensures var b, c := [HOOKS, Key(event), Index(g)], [HOOKS, Key(event), Index(g), HOOKS];
            && b + [HOOKS] == c && c + [Index(i)] == [HOOKS, Key(event), Index(g), HOOKS, Index(i)]
            && NodeAt(raw, b).Some? && NodeAt(raw, c).Some?
  {
    hide NodeAt;
    var b, c := [HOOKS, Key(event), Index(g)], [HOOKS, Key(event), Index(g), HOOKS];
    assert b + [HOOKS] == c && c + [Index(i)] == [HOOKS, Key(event), Index(g), HOOKS, Index(i)];
    ParentNode(raw, c, Index(i));
    ParentNode(raw, b, HOOKS);
  }

  /** Every definition of a hook array is reached, when the group around it has a usable matcher. */
  lemma HookDefinitionsAreReached(raw: Value, event: Text, g: nat, i: nat, setup: Setup)
    requires NodeAt(raw, [HOOKS, Key(event), Index(g), HOOKS, Index(i)]).Some?
    requires var group := NodeAt(raw, [HOOKS, Key(event), Index(g)]); group.Some? && !BadMatcher(group.value)
    ensures PlaceAt(SettingsRoot, raw, [HOOKS, Key(event), Index(g), HOOKS, Index(i)], setup)
         == Some(HookDefinition(event, MatcherOf(NodeAt(raw, [HOOKS, Key(event), Index(g)]).value, setup)))
  {
    hide NodeAt, PlaceAt, BadMatcher, MatcherOf;
    var b, c := [HOOKS, Key(event), Index(g)], [HOOKS, Key(event), Index(g), HOOKS];
    GroupPaths(raw, event, g, i);
    GroupsAreReached(raw, event, g, setup);
    Reach(raw, b, MatcherGroup(event), HOOKS, setup);
    ChildIsReached(raw, c, HookList(event, MatcherOf(NodeAt(raw, b).value, setup)), Index(i), setup);
  }

  /** In a group whose matcher is no string, nothing is recorded but one failure at the matcher. */
  lemma BadGroupsFailOnce(raw: Value, event: Text, g: nat, setup: Setup, q: Path)
    requires var group := NodeAt(raw, [HOOKS, Key(event), Index(g)]); group.Some? && BadMatcher(group.value)
    requires [HOOKS, Key(event), Index(g)] <= q
    ensures Count(Visit(SettingsRoot, raw, [], None, setup), q)
         == if q == [HOOKS, Key(event), Index(g), MATCHER] then 1 else 0
  {
    hide NodeAt, PlaceAt, MatcherOf, Visit, Ascii;
    var b := [HOOKS, Key(event), Index(g)];
    assert [] + b == b && b + [MATCHER] == [HOOKS, Key(event), Index(g), MATCHER];
    GroupsAreReached(raw, event, g, setup);
    CountReached(SettingsRoot, raw, [], None, setup, b, q);
    BadGroupVisit(event, NodeAt(raw, b).value, b, KeyAt(b, None), setup);
    assert [Noted(b + [MATCHER], Fail)][1..] == [];
  }

  lemma BadGroupVisit(event: Text, group: Value, path: Path, key: Option<Text>, setup: Setup)
    requires BadMatcher(group)
    ensures Visit(MatcherGroup(event), group, path, key, setup) == [Noted(path + [MATCHER], Fail)]
  {
    hide Ascii;
  }

  /**
   * A definition in a hook array yields exactly one entry or failure at its own path if the matcher of its
   * group is absent or a string, and none otherwise.
   */
  lemma HookDefinitionsAreConserved(raw: Value, event: Text, g: nat, i: nat, setup: Setup)
    requires NodeAt(raw, [HOOKS, Key(event), Index(g), HOOKS, Index(i)]).Some?
    ensures NodeAt(raw, [HOOKS, Key(event), Index(g)]).Some?
    ensures Count(Visit(SettingsRoot, raw, [], None, setup), [HOOKS, Key(event), Index(g), HOOKS, Index(i)])
         == if BadMatcher(NodeAt(raw, [HOOKS, Key(event), Index(g)]).value) then 0 else 1
  {
    hide NodeAt, PlaceAt, BadMatcher, MatcherOf, Visit;
    var b, path := [HOOKS, Key(event), Index(g)], [HOOKS, Key(event), Index(g), HOOKS, Index(i)];
    GroupPaths(raw, event, g, i);
    if BadMatcher(NodeAt(raw, b).value) {
      assert b + [HOOKS, Index(i)] == path && |path| == 5;
      BadGroupsFailOnce(raw, event, g, setup, path);
    } else {
      HookDefinitionsAreReached(raw, event, g, i, setup);
      ElementsAreConserved(SettingsFile, raw, setup, path);
    }
  }

  /** A document whose one hook runs a command and of which extraction says only that a matcher is no string. */
  lemma UnusableMatcherHidesHooks(setup: Setup)
    ensures var hook := Obj(map[Ascii("command") := Str(Ascii("x"))]);
            var group := Obj(map[Ascii("matcher") := Num(Ascii("5")), Ascii("hooks") := Arr([hook])]);
            var raw := Obj(map[Ascii("hooks") := Obj(map[Ascii("E") := Arr([group])])]);
            var path := [HOOKS, Key(Ascii("E")), Index(0), HOOKS, Index(0)];
            NodeAt(raw, path) == Some(hook) && Count(Visit(SettingsRoot, raw, [], None, setup), path) == 0
  {
    hide Visit, Ascii;
    var hook := Obj(map[Ascii("command") := Str(Ascii("x"))]);
    var group := Obj(map[Ascii("matcher") := Num(Ascii("5")), Ascii("hooks") := Arr([hook])]);
    var event := Arr([group]);
    var raw := Obj(map[Ascii("hooks") := Obj(map[Ascii("E") := event])]);
    var b := [HOOKS, Key(Ascii("E")), Index(0)];
    assert |Ascii("matcher")| == 7 && |Ascii("hooks")| == 5 by { AsciiLengths(); }
    assert NodeAt(raw, b) == Some(group) by {
      assert b[1..] == [Key(Ascii("E")), Index(0)] && [Key(Ascii("E")), Index(0)][1..] == [Index(0)];
      OneStep(event, Index(0));
      assert NodeAt(Obj(map[Ascii("E") := event]), [Key(Ascii("E")), Index(0)]) == NodeAt(event, [Index(0)]);
    }
    var rest := [HOOKS, Index(0)];
    assert NodeAt(group, rest) == Some(hook) by {
      assert rest[1..] == [Index(0)];
      OneStep(Arr([hook]), Index(0));
    }
    assert b + rest == [HOOKS, Key(Ascii("E")), Index(0), HOOKS, Index(0)];
    NodeJoin(raw, b, rest);
    HookDefinitionsAreConserved(raw, Ascii("E"), 0, 0, setup);
  }

  lemma AsciiLengths()
    ensures |Ascii("matcher")| == 7 && |Ascii("hooks")| == 5
  {
  }
}
