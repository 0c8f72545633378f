/** The pointers of items: entries stand at nodes, and no two places of a document share a pointer text. */
module ItemPointers {
  import opened Texts
  import opened Json
  import opened Pointers
  import opened Redact
  import opened Walks
  import opened Extraction
  import opened ExtractionTheorems

  /** A path to a node, or to a member that an object might have had. */
  ghost predicate Fitting(v: Value, path: Path) {
    || NodeAt(v, path).Some?
    || (path != [] && NodeAt(v, path[..|path| - 1]).Some? && NodeAt(v, path[..|path| - 1]).value.Obj?
      && path[|path| - 1].Key?)
  }

  /** Where a place at a path may put an item: there, at a member, or at a child of a child. */
  ghost predicate Near(v: Value, path: Path, q: Path) {
    || q == path
    || (exists s :: q == path + [s] && (Below(v, s).Some? || (v.Obj? && s.Key?)))
    || (exists s, t :: q == path + [s] + [t] && Below(v, s).Some? && Below(Below(v, s).value, t).Some?)
  }

  /** Entries at the place itself; failures near it. */
  ghost predicate Stands(v: Value, path: Path, x: Item) {
    Near(v, path, x.path) && (x.what.Add? ==> x.path == path)
  }

  lemma RedactedHas(raw: Value, key: Option<Text>, setup: Setup, s: Step)
    ensures Below(RedactTree(raw, key, setup.detector), s).Some? <==> Below(raw, s).Some?
    ensures RedactTree(raw, key, setup.detector).Obj? <==> raw.Obj?
    ensures RedactTree(raw, key, setup.detector).Arr? <==> raw.Arr?
    ensures raw.Arr? ==> |RedactTree(raw, key, setup.detector).items| == |raw.items|
  {
    RedactedBelow(raw, key, setup.detector, s);
  }

  lemma FlagStands(name: Text, raw: Value, path: Path, key: Option<Text>, setup: Setup, x: Item)
    requires x in FlagItems(name, RedactTree(raw, key, setup.detector), path)
    ensures Stands(raw, path, x)
  {
    hide RedactTree, NonStrings, SortedNames, Ascii;
    var shown := RedactTree(raw, key, setup.detector);
    if shown.Arr? && x in NonStrings(shown.items, path) {
      NonStringsStand(shown.items, path);
      var i :| 0 <= i < |shown.items| && x.path == path + [Index(i)];
      RedactedHas(raw, key, setup, Index(i));
    }
  }

  lemma DigestStands(raw: Value, s: Step, path: Path, x: Item)
    requires x in DigestFailures(Below(raw, s), path + [s])
    ensures Stands(raw, path, x)
  {
    hide MapFailures, SortedKeys;
    var members := Below(raw, s).value.members;
    MapFailuresStand(members, SortedKeys(members), path + [s]);
    var name :| name in SortedKeys(members) && x.path == path + [s] + [Key(name)];
    assert Below(Below(raw, s).value, Key(name)).Some?;
  }

  lemma ServerStands(name: Text, raw: Value, path: Path, key: Option<Text>, setup: Setup, x: Item)
    requires x in ServerItems(name, RedactTree(raw, key, setup.detector), raw, path, setup)
    ensures Stands(raw, path, x)
  {
    hide RedactTree, DigestFailures, McpFieldsOf, McpValue, Ascii, Below;
    var shown := RedactTree(raw, key, setup.detector);
    var args, env, headers := Key(Ascii("args")), Key(Ascii("env")), Key(Ascii("headers"));
    RedactedHas(raw, key, setup, args);
    RedactedHas(raw, key, setup, env);
    RedactedHas(raw, key, setup, headers);
    if x in DigestFailures(Below(raw, env), path + [env]) {
      DigestStands(raw, env, path, x);
    } else if x in DigestFailures(Below(raw, headers), path + [headers]) {
      DigestStands(raw, headers, path, x);
    }
  }

  lemma OwnStands(place: Place, raw: Value, path: Path, key: Option<Text>, setup: Setup, x: Item)
    requires x in OwnItems(place, raw, path, key, setup)
    ensures Stands(raw, path, x)
  {
    hide RuleItem, DirectoryItem, ModeItem, HookItem, EnvItem, HelperItem, FlagItems, ServerItems, RedactTree, Ascii,
         PointerTo, StepsOf;
    if place.FlagKey? {
      FlagStands(place.name, raw, path, key, setup, x);
    } else if place.Server? {
      ServerStands(place.name, raw, path, key, setup, x);
    }
  }

  lemma NearFits(root: Value, path: Path, q: Path)
    requires NodeAt(root, path).Some? && Near(NodeAt(root, path).value, path, q)
    ensures Fitting(root, q)
  {
    hide Below;
    var v := NodeAt(root, path).value;
    if q != path {
      if s :| q == path + [s] && (Below(v, s).Some? || (v.Obj? && s.Key?)) {
        NodeJoin(root, path, [s]);
        OneStep(v, s);
        assert q[..|q| - 1] == path;
      } else {
        var s, t :| q == path + [s] + [t] && Below(v, s).Some? && Below(Below(v, s).value, t).Some?;
        NodeJoin(root, path, [s]);
        OneStep(v, s);
        NodeJoin(root, path + [s], [t]);
        OneStep(Below(v, s).value, t);
      }
    }
  }

  /** Entries stand at nodes of the document, failures at nodes or at missing members of objects. */
  lemma ItemsFit(place: Place, raw: Value, setup: Setup, x: Item)
    requires x in Visit(place, raw, [], None, setup)
    ensures Fitting(raw, x.path) && (x.what.Add? ==> NodeAt(raw, x.path).Some?)
  {
    hide Visit, OwnItems, PlaceAt, Near, Fitting;
    ItemsComeFromPlaces(place, raw, [], None, setup, x);
    var path :| Yields(place, raw, [], None, setup, path, x);
    assert [] + path == path;
    OwnStands(PlaceAt(place, raw, path, setup).value, NodeAt(raw, path).value, path, KeyAt(path, None), setup, x);
    NearFits(raw, path, x.path);
  }

  lemma {:induction false} TokensParts(path: Path)
    ensures |TokensOf(path)| == |path|
    ensures path != [] ==>
      var n := |path| - 1;
      TokensOf(path) == TokensOf(path[..n]) + [Token(path[n])]
    decreases |path|
  {
    hide Token;
    if |path| > 1 {
      TokensParts(path[1..]);
      var n := |path| - 1;
      assert path[1..][..n - 1] == path[..n][1..] && path[..n] != [];
      assert TokensOf(path[..n]) == [Token(path[0])] + TokensOf(path[..n][1..]);
    }
  }

  /** Paths with one pointer text have the same tokens, so as many steps. */
  lemma SamePointerSameTokens(p: Path, q: Path)
    requires PointerTo(p) == PointerTo(q)
    ensures TokensOf(p) == TokensOf(q) && |p| == |q|
  {
    hide Split, PointerTo;
    SplitPointer(p);
    SplitPointer(q);
    assert Split(PointerTo(p))[1..] == TokensOf(p) && Split(PointerTo(q))[1..] == TokensOf(q);
    TokensParts(p);
    TokensParts(q);
  }

  /** A member that is missing has the pointer text of no node. */
  lemma MissingIsDistinct(v: Value, init: Path, s: Step, q: Path)
    requires NodeAt(v, init).Some? && NodeAt(v, init).value.Obj? && s.Key?
    requires NodeAt(v, q).Some? && TokensOf(init + [s]) == TokensOf(q)
    ensures init + [s] == q
  {
    hide Token, NodeAt;
    TokensParts(init + [s]);
    TokensParts(q);
    var n := |init|;
    assert (init + [s])[..n] == init && q[..n] + [q[n]] == q;
    assert TokensOf(init) == TokensOf(q)[..n] && TokensOf(q)[..n] == TokensOf(q[..n]);
    ParentNode(v, q[..n], q[n]);
    TokensAreDistinct(v, init, q[..n]);
    NodeSnoc(v, init, q[n]);
    assert Token(s) == TokensOf(q)[n] == Token(q[n]);
    SameKeyToken(s, q[n]);
  }

  /** A fitting path with the pointer text of a node is the path of that node. */
  lemma FittingIsDistinct(v: Value, p: Path, q: Path)
    requires Fitting(v, p) && NodeAt(v, q).Some? && PointerTo(p) == PointerTo(q)
    ensures p == q
  {
    hide PointerTo, NodeAt, TokensOf;
    if NodeAt(v, p).Some? {
      PointersAreDistinct(v, p, q);
    } else {
      SamePointerSameTokens(p, q);
      var n := |p| - 1;
      assert p[..n] + [p[n]] == p;
      MissingIsDistinct(v, p[..n], p[n], q);
    }
  }

  lemma SameKeyToken(s: Step, t: Step)
    requires s.Key? && t.Key? && Token(s) == Token(t)
    ensures s == t
  {
    UnescapeEscape(s.name);
    UnescapeEscape(t.name);
  }

  /** How many items have a pointer text. */
  function CountPointer(items: seq<Item>, pointer: Text): nat {
    if items == [] then 0
    else (if PointerTo(items[0].path) == pointer then 1 else 0) + CountPointer(items[1..], pointer)
  }

  lemma {:induction false} CountByPath(v: Value, items: seq<Item>, path: Path)
    requires NodeAt(v, path).Some? && forall x | x in items :: Fitting(v, x.path)
    ensures CountPointer(items, PointerTo(path)) == Count(items, path)
  {
    hide Fitting, PointerTo;
    if items != [] {
      assert items[0] in items;
      if PointerTo(items[0].path) == PointerTo(path) { FittingIsDistinct(v, items[0].path, path); }
      CountByPath(v, items[1..], path);
    }
  }

  /** No other entry or failure has the pointer of a reached element: it is recorded exactly once. */
  lemma ElementsAreRecordedOnce(role: Role, raw: Value, setup: Setup, path: Path)
    requires PlaceAt(RootPlace(role), raw, path, setup).Some?
      && IsElement(PlaceAt(RootPlace(role), raw, path, setup).value)
    ensures NodeAt(raw, path).Some?
    ensures CountPointer(Visit(RootPlace(role), raw, [], None, setup), PointerTo(path)) == 1
  {
    hide Visit, PlaceAt, LeafItems, Fitting;
    ElementsAreConserved(role, raw, setup, path);
    var items := Visit(RootPlace(role), raw, [], None, setup);
    forall x | x in items ensures Fitting(raw, x.path) { ItemsFit(RootPlace(role), raw, setup, x); }
    CountByPath(raw, items, path);
  }

  // ---- a whole document ----

  lemma {:induction false} CredentialsKeepPaths(found: seq<Noted<seq<Text>>>, raw: Value, setup: Setup, path: Path)
    ensures Count(CredentialItems(found, raw, setup), path) == Count(found, path)
  {
    hide CredentialItem;
    if found != [] {
      CredentialsKeepPaths(found[1..], raw, setup, path);
      assert CredentialItems(found, raw, setup)[1..] == CredentialItems(found[1..], raw, setup);
      assert CredentialItem(found[0], raw, setup).path == found[0].path by { CredentialPath(found[0], raw, setup); }
    }
  }

  lemma CredentialPath(found: Noted<seq<Text>>, raw: Value, setup: Setup)
    ensures CredentialItem(found, raw, setup).path == found.path && CredentialItem(found, raw, setup).what.Add?
  {
  }

  /** At a path a document yields what its places yield there, and a credential entry if redacting finds something. */
  lemma DocumentCount(role: Role, raw: Value, setup: Setup, path: Path)
    ensures Count(DocumentItems(role, raw, setup), path)
         == Count(Visit(RootPlace(role), raw, [], None, setup), path)
            + (if FoundAt(raw, None, setup.detector, path) == [] then 0 else 1)
  {
    hide Visit, FoundAt, FindingsOf, CredentialItems;
    var found := FindingsOf(raw, [], None, setup.detector);
    CountConcat(Visit(RootPlace(role), raw, [], None, setup), CredentialItems(found, raw, setup), path);
    CredentialsKeepPaths(found, raw, setup, path);
    FindingsAreExact(raw, [], None, setup.detector, path);
    assert [] + path == path;
  }

  /** Every entry of a document stands at a node, every failure at a node or at a missing member of an object. */
  lemma DocumentItemsFit(role: Role, raw: Value, setup: Setup, x: Item)
    requires x in DocumentItems(role, raw, setup)
    ensures Fitting(raw, x.path) && (x.what.Add? ==> NodeAt(raw, x.path).Some?)
  {
    hide Visit, FindingsOf, NodeAt, Fitting;
    if x in Visit(RootPlace(role), raw, [], None, setup) {
      ItemsFit(RootPlace(role), raw, setup, x);
    } else {
      var found := FindingsOf(raw, [], None, setup.detector);
      var i :| 0 <= i < |found| && x == CredentialItem(found[i], raw, setup);
      FoundWhereFound(raw, setup.detector, found[i]);
      NodesFit(raw, x.path);
    }
  }

  lemma NodesFit(v: Value, path: Path)
    requires NodeAt(v, path).Some?
    ensures Fitting(v, path)
  {
  }

  /** At a node's pointer a document has the items of that node's path, and no others. */
  lemma DocumentPointerCount(role: Role, raw: Value, setup: Setup, path: Path)
    requires NodeAt(raw, path).Some?
    ensures CountPointer(DocumentItems(role, raw, setup), PointerTo(path))
         == Count(DocumentItems(role, raw, setup), path)
  {
    hide DocumentItems, Fitting, PointerTo, NodeAt;
    var items := DocumentItems(role, raw, setup);
    forall x | x in items ensures Fitting(raw, x.path) { DocumentItemsFit(role, raw, setup, x); }
    CountByPath(raw, items, path);
  }

  /**
   * Over all that a document yields, a reached element's pointer has exactly one entry or failure, and one
   * credential entry more if the element is a string in which redacting finds a pattern.
   */
  lemma ElementsInDocument(role: Role, raw: Value, setup: Setup, path: Path)
    requires PlaceAt(RootPlace(role), raw, path, setup).Some?
      && IsElement(PlaceAt(RootPlace(role), raw, path, setup).value)
    ensures CountPointer(DocumentItems(role, raw, setup), PointerTo(path))
         == 1 + (if FoundAt(raw, None, setup.detector, path) == [] then 0 else 1)
  {
    hide Visit, PlaceAt, LeafItems, NodeAt, FoundAt, DocumentItems, PointerTo;
    ElementsAreConserved(role, raw, setup, path);
    DocumentCount(role, raw, setup, path);
    DocumentPointerCount(role, raw, setup, path);
  }

  /**
   * Over all that a settings document yields, a hook definition has one entry or failure if its group's matcher is
   * absent or a string, and else none.
   */
  lemma HookDefinitionsInDocument(raw: Value, event: Text, g: nat, i: nat, setup: Setup)
    requires NodeAt(raw, [HOOKS, Key(event), Index(g), HOOKS, Index(i)]).Some?
    ensures NodeAt(raw, [HOOKS, Key(event), Index(g)]).Some?
    ensures var path := [HOOKS, Key(event), Index(g), HOOKS, Index(i)];
            CountPointer(DocumentItems(SettingsFile, raw, setup), PointerTo(path))
              == (if BadMatcher(NodeAt(raw, [HOOKS, Key(event), Index(g)]).value) then 0 else 1)
                 + (if FoundAt(raw, None, setup.detector, path) == [] then 0 else 1)
  {
    hide Visit, NodeAt, DocumentItems, PointerTo, FoundAt, BadMatcher;
    var path := [HOOKS, Key(event), Index(g), HOOKS, Index(i)];
    HookDefinitionsAreConserved(raw, event, g, i, setup);
    DocumentCount(SettingsFile, raw, setup, path);
    DocumentPointerCount(SettingsFile, raw, setup, path);
  }
}
