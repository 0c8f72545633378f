/** What each place of a settings document adds: the kind, the key and the value of its entry, or a failure. */
module LeafValues {
  import opened Texts
  import opened Json
  import opened Pointers
  import Sorting
  import opened Canonical
  import opened Entries
  import opened Redact
  import opened Normalize
  import opened Walks
  import opened Extraction
  import opened ExtractionTheorems
  import opened ItemPointers

  /** The node at a path of the redacted copy of a document. */
  function ShownAt(raw: Value, setup: Setup, path: Path): Value
    requires NodeAt(raw, path).Some?
  {
    RedactedNodes(raw, None, setup.detector, path);
    NodeAt(RedactTree(raw, None, setup.detector), path).value
  }

  /** The document adds an entry at a path. */
  ghost predicate Adds(raw: Value, setup: Setup, path: Path, kind: Kind, key: Text, value: Value) {
    Noted(path, Add(kind, key, value)) in DocumentItems(SettingsFile, raw, setup)
  }

  /** The document has a failure at a path. */
  ghost predicate Fails(raw: Value, setup: Setup, path: Path) {
    Noted(path, Fail) in DocumentItems(SettingsFile, raw, setup)
  }

  lemma LeafIsYielded(raw: Value, path: Path, place: Place, setup: Setup, x: Item)
    requires PlaceAt(SettingsRoot, raw, path, setup) == Some(place) && NodeAt(raw, path).Some?
    requires !IsContainer(place) && !place.MatcherGroup?
    requires x in LeafItems(place, NodeAt(raw, path).value, path, KeyAt(path, None), setup)
    ensures x in DocumentItems(SettingsFile, raw, setup)
  {
    hide PlaceAt, NodeAt, LeafItems, Visit, FindingsOf;
    assert [] + path == path;
    ItemsComeFromPlaces(SettingsRoot, raw, [], None, setup, x);
    assert Yields(SettingsRoot, raw, [], None, setup, path, x);
  }

  lemma ShownIs(raw: Value, setup: Setup, path: Path)
    requires NodeAt(raw, path).Some?
    ensures ShownAt(raw, setup, path) == RedactTree(NodeAt(raw, path).value, KeyAt(path, None), setup.detector)
  {
    RedactedNodes(raw, None, setup.detector, path);
  }

  // ---- permissions ----

  lemma WildcardsAreNamed()
    ensures WildcardName(None) == Null && WildcardName(Some(Whole)) == Str(Ascii("whole"))
    ensures WildcardName(Some(Trailing)) == Str(Ascii("trailing")) && WildcardName(Some(Exact)) == Str(Ascii("none"))
  {
    hide Ascii;
  }

  lemma RuleIsAdded(raw: Value, list: Text, i: nat, setup: Setup)
    requires list in {Ascii("allow"), Ascii("ask"), Ascii("deny")}
    requires NodeAt(raw, [PERMISSIONS, Key(list), Index(i)]).Some?
    ensures var path := [PERMISSIONS, Key(list), Index(i)];
            var shown := ShownAt(raw, setup, path);
            var p := NormalizeRule(if shown.Str? then shown.s else []);
            if !shown.Str? || p.tool == [] then Fails(raw, setup, path)
            else
              Adds(raw, setup, path, Perm, Ascii("perm:") + list + Ascii(":") + p.rule,
                   Obj(map[Ascii("raw") := shown, Ascii("rule") := Str(p.rule), Ascii("tool") := Str(p.tool),
                           Ascii("spec") := if p.spec.Some? then Str(p.spec.value) else Null,
                           Ascii("wildcard") := WildcardName(p.wildcard)]))
  {
    hide PlaceAt, NodeAt, Ascii, NormalizeRule, DocumentItems, ShownAt, RedactTree;
    var path := [PERMISSIONS, Key(list), Index(i)];
    assert IsPermissionList(list);
    RulesAreReached(raw, list, i, setup);
    ShownIs(raw, setup, path);
    var shown := ShownAt(raw, setup, path);
    if shown.Str? { RuleItemIs(list, shown.s); }
    LeafIsYielded(raw, path, Place.Rule(list), setup, Noted(path, RuleItem(list, shown)));
  }

  lemma RuleItemIs(list: Text, s: Text)
    ensures var p := NormalizeRule(s);
            RuleItem(list, Str(s))
              == if p.tool == [] then Fail
                 else
                   Add(Perm, Ascii("perm:") + list + Ascii(":") + p.rule,
                       Obj(map[Ascii("raw") := Str(s), Ascii("rule") := Str(p.rule), Ascii("tool") := Str(p.tool),
                               Ascii("spec") := if p.spec.Some? then Str(p.spec.value) else Null,
                               Ascii("wildcard") := WildcardName(p.wildcard)]))
  {
    hide Ascii, WildcardName, Trim, NormalizeSpec;
  }

  lemma DirectoryIsAdded(raw: Value, i: nat, setup: Setup)
    requires NodeAt(raw, [PERMISSIONS, Key(Ascii("additionalDirectories")), Index(i)]).Some?
    ensures var path := [PERMISSIONS, Key(Ascii("additionalDirectories")), Index(i)];
            var shown := ShownAt(raw, setup, path);
            if !shown.Str? || Trim(shown.s) == [] then Fails(raw, setup, path)
            else
              Adds(raw, setup, path, Dir, Ascii("dir:") + Trim(shown.s),
                   Obj(map[Ascii("raw") := shown, Ascii("path") := Str(Trim(shown.s))]))
  {
    hide PlaceAt, NodeAt, Ascii, Trim, DocumentItems, ShownAt, RedactTree;
    var path := [PERMISSIONS, Key(Ascii("additionalDirectories")), Index(i)];
    DirectoriesAreReached(raw, i, setup);
    ShownIs(raw, setup, path);
    LeafIsYielded(raw, path, Directory, setup, Noted(path, DirectoryItem(ShownAt(raw, setup, path))));
  }

  /** A member of the permissions object is reached. */
  lemma PermissionIsReached(raw: Value, name: Text, setup: Setup)
    requires NodeAt(raw, [PERMISSIONS, Key(name)]).Some?
    ensures PlaceAt(SettingsRoot, raw, [PERMISSIONS, Key(name)], setup) == Some(PermissionsPlace(name))
  {
    hide NodeAt, PlaceAt, SettingsPlace, PermissionsPlace;
    SettingsNames();
    assert [PERMISSIONS] + [Key(name)] == [PERMISSIONS, Key(name)];
    ParentNode(raw, [PERMISSIONS], Key(name));
    SectionIsReached(raw, PERMISSIONS, setup);
    ChildIsReached(raw, [PERMISSIONS], Permissions, Key(name), setup);
  }

  lemma ModeNames(name: Text)
    requires name in {Ascii("defaultMode"), Ascii("disableBypassPermissionsMode")}
    ensures PermissionsPlace(name) == ModeKey(name)
  {
    assert |Ascii("defaultMode")| == 11 && |Ascii("disableBypassPermissionsMode")| == 28;
    assert |Ascii("additionalDirectories")| == 21 && |Ascii("allow")| == 5 && |Ascii("ask")| == 3 && |Ascii("deny")| == 4;
  }

  lemma ModeIsAdded(raw: Value, name: Text, setup: Setup)
    requires name in {Ascii("defaultMode"), Ascii("disableBypassPermissionsMode")}
    requires NodeAt(raw, [PERMISSIONS, Key(name)]).Some?
    ensures var path := [PERMISSIONS, Key(name)];
            var shown := ShownAt(raw, setup, path);
            if !shown.Str? then Fails(raw, setup, path)
            else Adds(raw, setup, path, Mode, Ascii("mode:") + name, Obj(map[Ascii("raw") := shown, Ascii("mode") := shown]))
    ensures name == Ascii("defaultMode") ==> Ascii("mode:") + name == Ascii("mode:defaultMode")
  {
    hide PlaceAt, NodeAt, Ascii, DocumentItems, ShownAt, RedactTree;
    var path := [PERMISSIONS, Key(name)];
    PermissionIsReached(raw, name, setup);
    ModeNames(name);
    ShownIs(raw, setup, path);
    LeafIsYielded(raw, path, ModeKey(name), setup, Noted(path, ModeItem(name, ShownAt(raw, setup, path))));
    DefaultModeKey();
  }

  lemma DefaultModeKey()
    ensures Ascii("mode:") + Ascii("defaultMode") == Ascii("mode:defaultMode")
  {
    AsciiJoin("mode:", "defaultMode");
    assert "mode:" + "defaultMode" == "mode:defaultMode";
  }

  lemma AsciiJoin(s: string, t: string)
    ensures Ascii(s) + Ascii(t) == Ascii(s + t)
  {
  }

  // ---- environment and sandbox ----

  lemma EnvIsAdded(raw: Value, name: Text, setup: Setup)
    requires NodeAt(raw, [ENV, Key(name)]).Some?
    ensures var v := NodeAt(raw, [ENV, Key(name)]).value;
            if !v.Str? then Fails(raw, setup, [ENV, Key(name)])
            else
              Adds(raw, setup, [ENV, Key(name)], EnvKey, Ascii("env_key:") + name,
                   Obj(map[Ascii("redacted") := Bool(true), Ascii("length") := Num(Decimal(|v.s|)),
                           Ascii("sha256") := Str(setup.sha(v.s))]))
  {
    hide PlaceAt, NodeAt, Ascii, DocumentItems, RedactTree;
    var path := [ENV, Key(name)];
    EnvNamesAreReached(raw, name, setup);
    LeafIsYielded(raw, path, EnvName(name), setup, Noted(path, EnvItem(name, NodeAt(raw, path).value, setup)));
  }

  const SANDBOX: Step := Key(Ascii("sandbox"))

  lemma SandboxIsAdded(raw: Value, name: Text, setup: Setup)
    requires NodeAt(raw, [SANDBOX, Key(name)]).Some?
    ensures var path := [SANDBOX, Key(name)];
            Adds(raw, setup, path, Sandbox, Ascii("sandbox:") + name, ShownAt(raw, setup, path))
  {
    hide PlaceAt, NodeAt, Ascii, DocumentItems, ShownAt, RedactTree, SettingsPlace;
    var path := [SANDBOX, Key(name)];
    assert [SANDBOX] + [Key(name)] == path;
    SandboxName();
    ParentNode(raw, [SANDBOX], Key(name));
    SectionIsReached(raw, SANDBOX, setup);
    ChildIsReached(raw, [SANDBOX], SandboxRoot, Key(name), setup);
    ShownIs(raw, setup, path);
    LeafIsYielded(raw, path, SandboxKey(name), setup,
                  Noted(path, Add(Sandbox, Ascii("sandbox:") + name, ShownAt(raw, setup, path))));
  }

  lemma SandboxName()
    ensures SettingsPlace(Ascii("sandbox")) == SandboxRoot
  {
    assert |Ascii("permissions")| == 11 && |Ascii("hooks")| == 5 && |Ascii("env")| == 3 && |Ascii("sandbox")| == 7;
  }

  // ---- helpers and flags ----

  const HELPERS: set<Text> :=
    {Ascii("apiKeyHelper"), Ascii("awsAuthRefresh"), Ascii("awsCredentialExport"), Ascii("otelHeadersHelper")}
  const NAME_LISTS: set<Text> := {Ascii("enabledMcpjsonServers"), Ascii("disabledMcpjsonServers")}
  const FLAGS: set<Text> := {Ascii("enabledPlugins"), Ascii("enableAllProjectMcpServers"), Ascii("disableAllHooks")}

  lemma TopNames(name: Text)
    ensures name in HELPERS ==> SettingsPlace(name) == HelperKey(name)
    ensures name in NAME_LISTS + FLAGS ==> SettingsPlace(name) == FlagKey(name)
    ensures name in NAME_LISTS ==> name !in FLAGS
  {
    assert |Ascii("permissions")| == 11 && |Ascii("hooks")| == 5 && |Ascii("env")| == 3 && |Ascii("sandbox")| == 7;
    assert |Ascii("apiKeyHelper")| == 12 && |Ascii("awsAuthRefresh")| == 14 && |Ascii("awsCredentialExport")| == 19;
    assert |Ascii("otelHeadersHelper")| == 17 && |Ascii("enabledPlugins")| == 14 && |Ascii("disableAllHooks")| == 15;
    assert |Ascii("enabledMcpjsonServers")| == 21 && |Ascii("disabledMcpjsonServers")| == 22;
    assert |Ascii("enableAllProjectMcpServers")| == 26;
    assert Ascii("awsAuthRefresh")[0] != Ascii("enabledPlugins")[0];
  }

  lemma TopIsReached(raw: Value, name: Text, setup: Setup)
    requires NodeAt(raw, [Key(name)]).Some?
    ensures PlaceAt(SettingsRoot, raw, [Key(name)], setup) == Some(SettingsPlace(name))
    ensures KeyAt([Key(name)], None) == Some(name)
  {
    hide SettingsPlace;
    SectionIsReached(raw, Key(name), setup);
    assert [Key(name)][1..] == [];
  }

  /** A helper carries its command as shown, and the hash of the raw command if redaction changed it. */
  lemma HelperIsAdded(raw: Value, name: Text, setup: Setup)
    requires name in HELPERS && NodeAt(raw, [Key(name)]).Some?
    ensures var path := [Key(name)];
            var v, shown := NodeAt(raw, path).value, ShownAt(raw, setup, path);
            if !v.Str? then Fails(raw, setup, path)
            else
              Adds(raw, setup, path, Helper, Ascii("helper:") + name,
                   if shown == v then Obj(map[Ascii("command") := shown])
                   else Obj(map[Ascii("command") := shown, Ascii("command_sha256") := Str(setup.sha(v.s))]))
  {
    hide PlaceAt, NodeAt, Ascii, DocumentItems, ShownAt, SettingsPlace, RedactTree, HelperItem;
    var path := [Key(name)];
    TopNames(name);
    TopIsReached(raw, name, setup);
    ShownIs(raw, setup, path);
    var v := NodeAt(raw, path).value;
    ShownKeepsStrings(v, KeyAt(path, None), setup);
    HelperItemIs(name, ShownAt(raw, setup, path), v, setup);
    LeafIsYielded(raw, path, HelperKey(name), setup, Noted(path, HelperItem(name, ShownAt(raw, setup, path), v, setup)));
  }

  lemma ShownKeepsStrings(v: Value, key: Option<Text>, setup: Setup)
    ensures RedactTree(v, key, setup.detector).Str? <==> v.Str?
  {
  }

  lemma HelperItemIs(name: Text, shown: Value, raw: Value, setup: Setup)
    requires shown.Str? <==> raw.Str?
    ensures HelperItem(name, shown, raw, setup)
         == if !raw.Str? then Fail
            else
              Add(Helper, Ascii("helper:") + name,
                  if shown == raw then Obj(map[Ascii("command") := shown])
                  else Obj(map[Ascii("command") := shown, Ascii("command_sha256") := Str(setup.sha(raw.s))]))
  {
    hide Ascii;
    AsciiJoin("command", "_sha256");
    assert "command" + "_sha256" == "command_sha256";
    if raw.Str? {
      var base, sha := map[Ascii("command") := shown], Str(setup.sha(raw.s));
      assert base + map[] == base;
      assert base + map[Ascii("command_sha256") := sha] == map[Ascii("command") := shown, Ascii("command_sha256") := sha];
    }
  }

  /** A flag that is no list of names carries its value as shown. */
  lemma FlagIsAdded(raw: Value, name: Text, setup: Setup)
    requires name in FLAGS && NodeAt(raw, [Key(name)]).Some?
    ensures Adds(raw, setup, [Key(name)], PluginFlag, Ascii("plugin_flag:") + name, ShownAt(raw, setup, [Key(name)]))
  {
    hide PlaceAt, NodeAt, Ascii, DocumentItems, ShownAt, SettingsPlace, RedactTree;
    var path := [Key(name)];
    TopNames(name);
    TopIsReached(raw, name, setup);
    ShownIs(raw, setup, path);
    var x := Noted(path, Add(PluginFlag, Ascii("plugin_flag:") + name, ShownAt(raw, setup, path)));
    LeafIsYielded(raw, path, FlagKey(name), setup, x);
  }

  /** The names, each once and in order. */
  ghost predicate Lists(names: seq<Text>, items: seq<Value>) {
    Sorting.Increasing(names, Less) && forall s :: s in names <==> Str(s) in items
  }

  /** A list of names carries them sorted, or fails at each element that is none. */
  lemma NamesAreAdded(raw: Value, name: Text, setup: Setup) returns (names: seq<Text>)
    requires name in NAME_LISTS && NodeAt(raw, [Key(name)]).Some?
    ensures var path := [Key(name)];
            var shown := ShownAt(raw, setup, path);
            if !shown.Arr? then Fails(raw, setup, path)
            else if AllStrings(shown) then
              && Lists(names, shown.items)
              && Adds(raw, setup, path, PluginFlag, Ascii("plugin_flag:") + name,
                   Obj(map[Ascii("raw") := shown, Ascii("names") := TextList(names)]))
            else forall i | 0 <= i < |shown.items| && !shown.items[i].Str? :: Fails(raw, setup, path + [Index(i)])
  {
    hide PlaceAt, NodeAt, Ascii, DocumentItems, ShownAt, SettingsPlace, RedactTree, LeafItems, TextList;
    var path := [Key(name)];
    TopNames(name);
    TopIsReached(raw, name, setup);
    ShownIs(raw, setup, path);
    var shown := ShownAt(raw, setup, path);
    FlagLeaf(name, NodeAt(raw, path).value, path, setup);
    names := [];
    if !shown.Arr? {
      LeafIsYielded(raw, path, FlagKey(name), setup, Noted(path, Fail));
    } else if i :| 0 <= i < |shown.items| && !shown.items[i].Str? {
      forall i | 0 <= i < |shown.items| && !shown.items[i].Str? ensures Fails(raw, setup, path + [Index(i)]) {
        NonStringIsListed(shown.items, path, i);
        LeafIsYielded(raw, path, FlagKey(name), setup, Noted(path + [Index(i)], Fail));
      }
    } else {
      names := NamesOfItems(shown.items);
      AllNamesAreStrings(shown.items, path);
      var x := Noted(path, Add(PluginFlag, Ascii("plugin_flag:") + name,
                               Obj(map[Ascii("raw") := shown, Ascii("names") := TextList(names)])));
      LeafIsYielded(raw, path, FlagKey(name), setup, x);
    }
  }

  lemma FlagLeaf(name: Text, v: Value, path: Path, setup: Setup)
    requires name in NAME_LISTS && KeyAt(path, None) == Some(name)
    ensures IsNameList(name)
    ensures LeafItems(FlagKey(name), v, path, KeyAt(path, None), setup)
         == FlagItems(name, RedactTree(v, KeyAt(path, None), setup.detector), path)
  {
    hide Ascii, FlagItems, RedactTree;
  }

  lemma NamesOfItems(items: seq<Value>) returns (names: seq<Text>)
    ensures (forall i | 0 <= i < |items| :: items[i].Str?) ==> Lists(names, items)
    ensures SortedNames(items) == TextList(names)
  {
    hide Less, TextList;
    Sorting.LessIsStrictTotal();
    names := Sorting.SortSet(set v | v in items && v.Str? :: v.s, Less);
    forall s ensures s in names <==> Str(s) in items {
      if Str(s) in items { assert Str(s).s == s; }
    }
  }

  lemma {:induction false} NonStringIsListed(items: seq<Value>, path: Path, i: nat)
    requires i < |items| && !items[i].Str?
    ensures Noted(path + [Index(i)], Fail) in NonStrings(items, path)
  {
    var n := |items| - 1;
    if i < n { NonStringIsListed(items[..n], path, i); }
  }

  lemma {:induction false} AllNamesAreStrings(items: seq<Value>, path: Path)
    requires forall i | 0 <= i < |items| :: items[i].Str?
    ensures NonStrings(items, path) == []
  {
    if items != [] { AllNamesAreStrings(items[..|items| - 1], path); }
  }

  /** A top-level name of none of these kinds is carried as unknown, under its pointer. */
  lemma UnknownIsAdded(raw: Value, name: Text, setup: Setup)
    requires NodeAt(raw, [Key(name)]).Some?
    requires name !in HELPERS + NAME_LISTS + FLAGS + {Ascii("permissions"), Ascii("hooks"), Ascii("env"), Ascii("sandbox")}
    ensures Adds(raw, setup, [Key(name)], Unknown, Ascii("unknown:") + PointerTo([Key(name)]),
              ShownAt(raw, setup, [Key(name)]))
  {
    hide PlaceAt, NodeAt, Ascii, DocumentItems, ShownAt, RedactTree, PointerTo;
    var path := [Key(name)];
    TopIsReached(raw, name, setup);
    ShownIs(raw, setup, path);
    var x := Noted(path, Add(Unknown, Ascii("unknown:") + PointerTo(path), ShownAt(raw, setup, path)));
    LeafIsYielded(raw, path, Unmodeled, setup, x);
  }

  /** So is any other name among the permissions. */
  lemma UnknownPermissionIsAdded(raw: Value, name: Text, setup: Setup)
    requires NodeAt(raw, [PERMISSIONS, Key(name)]).Some?
    requires name !in {Ascii("allow"), Ascii("ask"), Ascii("deny"), Ascii("additionalDirectories"), Ascii("defaultMode"),
                       Ascii("disableBypassPermissionsMode")}
    ensures var path := [PERMISSIONS, Key(name)];
            Adds(raw, setup, path, Unknown, Ascii("unknown:") + PointerTo(path), ShownAt(raw, setup, path))
  {
    hide PlaceAt, NodeAt, Ascii, DocumentItems, ShownAt, RedactTree, PointerTo;
    var path := [PERMISSIONS, Key(name)];
    PermissionIsReached(raw, name, setup);
    ShownIs(raw, setup, path);
    var x := Noted(path, Add(Unknown, Ascii("unknown:") + PointerTo(path), ShownAt(raw, setup, path)));
    LeafIsYielded(raw, path, Unmodeled, setup, x);
  }

  // ---- sections and lists of a wrong type ----

  lemma UnfitFails(raw: Value, path: Path, place: Place, setup: Setup)
    requires PlaceAt(SettingsRoot, raw, path, setup) == Some(place) && NodeAt(raw, path).Some?
    requires IsContainer(place) && !Fits(place, NodeAt(raw, path).value)
    ensures Fails(raw, setup, path)
  {
    hide PlaceAt, NodeAt, Visit, FindingsOf, LeafItems, Fits;
    assert [] + path == path;
    ItemsComeFromPlaces(SettingsRoot, raw, [], None, setup, Noted(path, Fail));
    assert Yields(SettingsRoot, raw, [], None, setup, path, Noted(path, Fail));
  }

  /** A section that is no object is a failure. */
  lemma SectionsFail(raw: Value, section: Step, setup: Setup)
    requires section in {PERMISSIONS, HOOKS, ENV, SANDBOX} && NodeAt(raw, [section]).Some?
    requires !NodeAt(raw, [section]).value.Obj?
    ensures Fails(raw, setup, [section])
  {
    hide PlaceAt, NodeAt, Ascii, DocumentItems, SettingsPlace;
    SettingsNames();
    SandboxName();
    SectionIsReached(raw, section, setup);
    UnfitFails(raw, [section], SettingsPlace(section.name), setup);
  }

  /** A list of permissions, and the groups of a hook event, that are no arrays are failures. */
  lemma ListsFail(raw: Value, name: Text, setup: Setup)
    ensures name in {Ascii("allow"), Ascii("ask"), Ascii("deny"), Ascii("additionalDirectories")}
            && NodeAt(raw, [PERMISSIONS, Key(name)]).Some? && !NodeAt(raw, [PERMISSIONS, Key(name)]).value.Arr? ==>
              Fails(raw, setup, [PERMISSIONS, Key(name)])
    ensures NodeAt(raw, [HOOKS, Key(name)]).Some? && !NodeAt(raw, [HOOKS, Key(name)]).value.Arr? ==>
              Fails(raw, setup, [HOOKS, Key(name)])
  {
    hide PlaceAt, NodeAt, Ascii, Fails, SettingsPlace;
    SettingsNames();
    if NodeAt(raw, [PERMISSIONS, Key(name)]).Some? && !NodeAt(raw, [PERMISSIONS, Key(name)]).value.Arr? {
      PermissionIsReached(raw, name, setup);
      if name in {Ascii("allow"), Ascii("ask"), Ascii("deny"), Ascii("additionalDirectories")} {
        UnfitFails(raw, [PERMISSIONS, Key(name)], PermissionsPlace(name), setup);
      }
    }
    if NodeAt(raw, [HOOKS, Key(name)]).Some? && !NodeAt(raw, [HOOKS, Key(name)]).value.Arr? {
      assert [HOOKS] + [Key(name)] == [HOOKS, Key(name)];
      ParentNode(raw, [HOOKS], Key(name));
      SectionIsReached(raw, HOOKS, setup);
      ChildIsReached(raw, [HOOKS], Hooks, Key(name), setup);
      UnfitFails(raw, [HOOKS, Key(name)], HookEvent(name), setup);
    }
  }

  // ---- hooks ----

  /** The matcher of a group as shown: None if there is none. */
  ghost predicate MatcherIs(raw: Value, setup: Setup, group: Path, matcher: Option<Text>) {
    if NodeAt(raw, group + [MATCHER]).None? then matcher == None
    else matcher.Some? && ShownAt(raw, setup, group + [MATCHER]) == Str(matcher.value)
  }

  lemma MatcherIsShown(raw: Value, setup: Setup, group: Path, matcher: Option<Text>)
    requires NodeAt(raw, group).Some? && !BadMatcher(NodeAt(raw, group).value) && MatcherIs(raw, setup, group, matcher)
    ensures MatcherOf(NodeAt(raw, group).value, setup) == matcher
  {
    hide NodeAt, Redaction;
    NodeSnoc(raw, group, MATCHER);
    if NodeAt(raw, group + [MATCHER]).Some? {
      ShownIs(raw, setup, group + [MATCHER]);
      KeyAtLast(group, MATCHER);
    }
  }

  lemma {:induction false} KeyAtLast(path: Path, s: Step)
    requires s.Key?
    ensures forall key :: KeyAt(path + [s], key) == Some(s.name)
  {
    if path == [] {
      assert [] + [s] == [s] && [s][1..] == [];
    } else {
      assert (path + [s])[0] == path[0] && (path + [s])[1..] == path[1..] + [s];
      KeyAtLast(path[1..], s);
    }
  }

  /** The hook's entry, keyed by its event, its matcher and the hash of a text. */
  ghost predicate AddsHook(raw: Value, setup: Setup, path: Path, event: Text, matcher: Option<Text>, text: Text)
    requires NodeAt(raw, path).Some?
  {
    Adds(raw, setup, path, Hook,
         Ascii("hook:") + event + Ascii(":") + (if matcher.Some? then matcher.value else []) + Ascii(":") + setup.sha(text),
         HookValue(event, matcher, ShownAt(raw, setup, path), NodeAt(raw, path).value, setup))
  }

  /** A hook definition is keyed by its raw command, or without one by its raw prompt, and fails without either. */
  lemma HookIsAdded(raw: Value, event: Text, g: nat, i: nat, matcher: Option<Text>, setup: Setup)
    requires NodeAt(raw, [HOOKS, Key(event), Index(g), HOOKS, Index(i)]).Some?
    requires NodeAt(raw, [HOOKS, Key(event), Index(g)]).Some? && !BadMatcher(NodeAt(raw, [HOOKS, Key(event), Index(g)]).value)
    requires MatcherIs(raw, setup, [HOOKS, Key(event), Index(g)], matcher)
    ensures var path := [HOOKS, Key(event), Index(g), HOOKS, Index(i)];
            var hook := NodeAt(raw, path).value;
            var command, prompt := Below(hook, Key(Ascii("command"))), Below(hook, Key(Ascii("prompt")));
            if command.Some? && command.value.Str? then AddsHook(raw, setup, path, event, matcher, command.value.s)
            else if prompt.Some? && prompt.value.Str? then AddsHook(raw, setup, path, event, matcher, prompt.value.s)
            else Fails(raw, setup, path)
  {
    hide PlaceAt, NodeAt, Ascii, DocumentItems, ShownAt, RedactTree, BadMatcher, MatcherIs, MatcherOf,
         HookValue, HookText, Below;
    var path, group := [HOOKS, Key(event), Index(g), HOOKS, Index(i)], [HOOKS, Key(event), Index(g)];
    HookDefinitionsAreReached(raw, event, g, i, setup);
    MatcherIsShown(raw, setup, group, matcher);
    ShownIs(raw, setup, path);
    var hook, shown := NodeAt(raw, path).value, ShownAt(raw, setup, path);
    HookTextIs(hook, KeyAt(path, None), setup);
    var x := Noted(path, HookItem(event, matcher, shown, hook, setup));
    LeafIsYielded(raw, path, HookDefinition(event, matcher), setup, x);
  }

  lemma HookTextIs(hook: Value, key: Option<Text>, setup: Setup)
    ensures var command, prompt := Below(hook, Key(Ascii("command"))), Below(hook, Key(Ascii("prompt")));
            HookText(hook)
              == if command.Some? && command.value.Str? then Some(command.value.s)
                 else if prompt.Some? && prompt.value.Str? then Some(prompt.value.s)
                 else None
    ensures HookText(hook).Some? ==> RedactTree(hook, key, setup.detector).Obj?
  {
    hide Ascii;
  }

  // ---- credentials ----

  /** Where redacting finds something, a credential entry has the patterns and the hash of the raw text, not the text. */
  lemma CredentialIsAdded(raw: Value, path: Path, setup: Setup)
    requires FoundAt(raw, None, setup.detector, path) != []
    ensures NodeAt(raw, path).Some? && NodeAt(raw, path).value.Str?
    ensures Adds(raw, setup, path, Credential, Ascii("credential:") + PointerTo(path),
              Obj(map[Ascii("note") := Str(Ascii("credential-like value present")),
                      Ascii("patterns") := TextList(FoundAt(raw, None, setup.detector, path)),
                      Ascii("sha256") := Str(setup.sha(NodeAt(raw, path).value.s))]))
  {
    hide Ascii, Visit, FindingsOf, PointerTo, TextList, Redaction;
    var found := FindingsOf(raw, [], None, setup.detector);
    assert [] + path == path;
    FindingsAreExact(raw, [], None, setup.detector, path);
    var f := Noted(path, FoundAt(raw, None, setup.detector, path));
    assert f in found;
    var i :| 0 <= i < |found| && found[i] == f;
    assert CredentialItems(found, raw, setup)[i] == CredentialItem(f, raw, setup);
  }
}
