/** Comparing two extracted snapshots the other way round: which deltas come back reversed, and where they point. */
module Reversal {
  import opened Texts
  import opened Json
  import opened Pointers
  import opened Canonical
  import opened RoundTrip
  import opened Entries
  import opened Signatures
  import opened Diff
  import opened DiffTheorems
  import opened Redact
  import opened Normalize
  import opened Walks
  import opened Extraction
  import opened ExtractionTheorems
  import opened Extractor
  import opened SnapshotTheorems
  import opened RuleTheorems
  import opened Direction
  import opened DirectionTheorems

  // ---- a key names its kind ----

  /** Keys begin with the name of their kind and a colon. */
  function KindPrefix(kind: Kind): Text { KindName(kind) + COLON_TEXT }

  lemma AsciiConcat(s: string, t: string)
    ensures Ascii(s) + Ascii(t) == Ascii(s + t)
  {
  }

  lemma KindPrefixesAre()
    ensures KindPrefix(Perm) == Ascii("perm:") && KindPrefix(Mode) == Ascii("mode:")
    ensures KindPrefix(Hook) == Ascii("hook:") && KindPrefix(Mcp) == Ascii("mcp:")
    ensures KindPrefix(Dir) == Ascii("dir:") && KindPrefix(Sandbox) == Ascii("sandbox:")
    ensures KindPrefix(EnvKey) == Ascii("env_key:") && KindPrefix(Helper) == Ascii("helper:")
    ensures KindPrefix(PluginFlag) == Ascii("plugin_flag:") && KindPrefix(Unknown) == Ascii("unknown:")
    ensures KindPrefix(Credential) == Ascii("credential:")
  {
    AsciiConcat("perm", ":");
    AsciiConcat("mode", ":");
    AsciiConcat("hook", ":");
    AsciiConcat("mcp", ":");
    AsciiConcat("dir", ":");
    AsciiConcat("sandbox", ":");
    AsciiConcat("env_key", ":");
    AsciiConcat("helper", ":");
    AsciiConcat("plugin_flag", ":");
    AsciiConcat("unknown", ":");
    AsciiConcat("credential", ":");
  }

  /** No key has the prefixes of two kinds. */
  lemma KeyNamesKind(a: Kind, b: Kind, key: Text)
    requires KindPrefix(a) <= key && KindPrefix(b) <= key
    ensures a == b
  {
    KindStart(a, key);
    KindStart(b, key);
    var s, t := KindName(a), KindName(b);
    assert s[0] == t[0] && s[1] == t[1] && s[2] == t[2];
  }

  lemma KindStart(kind: Kind, key: Text)
    requires KindPrefix(kind) <= key
    ensures var s := KindName(kind); |s| > 2 && |key| > 2 && s[0] == key[0] && s[1] == key[1] && s[2] == key[2]
  {
    var s := KindName(kind);
    assert |s| > 2;
    assert forall i | 0 <= i < |s| :: KindPrefix(kind)[i] == s[i];
  }

  /** Every entry's key begins with the name of its kind. */
  ghost predicate KeyedByKind(es: seq<Entry>) {
    forall e | e in es :: KindPrefix(e.kind) <= e.key
  }

  lemma LeafKeys(place: Place, raw: Value, path: Path, key: Option<Text>, setup: Setup, x: Item)
    requires x in LeafItems(place, raw, path, key, setup) && x.what.Add?
    ensures KindPrefix(x.what.kind) <= x.what.key
  {
    hide Ascii, RedactTree, NormalizeRule, RuleValue, Trim, DigestOf, HookValue, HookText, McpValue, HookKey,
         McpFieldsOf, PointerTo, ServerFailures, NonStrings, TextList, IsPermissionList, KindName, KindPrefix,
         IsNameList;
    KindPrefixesAre();
    var shown := RedactTree(raw, key, setup.detector);
    match place
    case Rule(list) => if shown.Str? { RuleKeyShape(list, NormalizeRule(shown.s).rule); }
    case HookDefinition(event, matcher) =>
      if HookText(raw).Some? { HookKeyShape(event, matcher, HookText(raw).value, setup); }
    case FlagKey(name) => if shown.Arr? { NonStringsStand(shown.items, path); }
    case Server(name) => if shown.Obj? { ServerFailuresUnder(shown, raw, path); }
    case _ =>
  }

  lemma RuleKeyShape(list: Text, rule: Text)
    ensures Ascii("perm:") <= RuleKeyOf(list, rule)
  {
    hide Ascii;
    assert RuleKeyOf(list, rule) == Ascii("perm:") + (list + COLON_TEXT + rule);
  }

  lemma CredentialKey(found: Noted<seq<Text>>, raw: Value, setup: Setup)
    ensures var x := CredentialItem(found, raw, setup); x.what.Add? && KindPrefix(x.what.kind) <= x.what.key
  {
    hide Ascii, PointerTo, TextList, NodeAt, KindName, KindPrefix;
    KindPrefixesAre();
  }

  lemma DocumentKeys(role: Role, raw: Value, setup: Setup, x: Item)
    requires x in DocumentItems(role, raw, setup) && x.what.Add?
    ensures KindPrefix(x.what.kind) <= x.what.key
  {
    hide Visit, VisitGroup, FindingsOf, NodeAt, PlaceAt, LeafItems, GoodGroup, Ascii, PointerTo, KindName, KindPrefix;
    if x in Visit(RootPlace(role), raw, [], None, setup) {
      ItemsComeFromPlaces(RootPlace(role), raw, [], None, setup, x);
      var path :| Yields(RootPlace(role), raw, [], None, setup, path, x);
      var place := PlaceAt(RootPlace(role), raw, path, setup).value;
      assert [] + path == path;
      AddsAreLeaves(place, NodeAt(raw, path).value, path, KeyAt(path, None), setup, x);
      LeafKeys(place, NodeAt(raw, path).value, path, KeyAt(path, None), setup, x);
    } else {
      var found := FindingsOf(raw, [], None, setup.detector);
      var i :| 0 <= i < |found| && x == CredentialItem(found[i], raw, setup);
      CredentialKey(found[i], raw, setup);
    }
  }

  /** Extraction makes such entries. */
  lemma ExtractedKeys(docs: seq<SourceDocument>, setup: Setup)
    ensures KeyedByKind(SortEntries(AllEntries(docs, setup)))
  {
    hide DocumentItems, AllEntries, KindPrefix;
    SortedEntriesAre(AllEntries(docs, setup));
    forall e | e in AllEntries(docs, setup) ensures KindPrefix(e.kind) <= e.key {
      EntriesHaveSources(docs, setup, e);
      var doc, x :| ComesFrom(e, docs, setup, doc, x);
      DocumentKeys(doc.role, doc.value.value, setup, x);
    }
  }

  /** So a delta's key has entries of the delta's kind only, on both sides. */
  lemma DeltasHaveOneKind(base: seq<Entry>, head: seq<Entry>, d: RawDelta)
    requires KeyedByKind(base) && KeyedByKind(head) && d in KeyedDeltas(base, head)
    ensures OneKind(base, d.key, d.kind) && OneKind(head, d.key, d.kind)
  {
    hide KeyedDeltas, KindPrefix, Group, Signature, ValueSignature;
    KeyedDeltasFacts(base, head);
    GroupFacts(base, d.key);
    GroupFacts(head, d.key);
    var b, h := Group(base, d.key), Group(head, d.key);
    var e := if h == [] then b[0] else h[0];
    assert e.kind == d.kind && e.key == d.key && (e in b || e in h);
    forall f | f in base + head && f.key == d.key ensures f.kind == d.kind { KeyNamesKind(f.kind, e.kind, d.key); }
  }

  // ---- every delta has its sides ----

  /** Whatever two snapshots are compared, each resulting delta has the entries that its change calls for. */
  lemma ResultsAreSided(base: seq<Entry>, head: seq<Entry>, d: RawDelta)
    requires d in PairHooks(KeyedDeltas(base, head))
    ensures WellSided(d)
  {
    hide KeyedDeltas, KeyDelta, PairId, Sharing, PairedId, Merge, TheRemoved, TheAdded, Group, KeySet;
    var ds := KeyedDeltas(base, head);
    KeyedDeltasFacts(base, head);
    UnpairedMembers(ds, ds, d);
    MergedMembers(Ids(ds), ds, d);
    if d in Unpaired(ds, ds) {
      KeyedSides(base, head, d);
    } else {
      var id :| id in Ids(ds) && PairedId(ds, id) && Merge(ds, id) == d;
      MergeSources(ds, id);
    }
  }

  lemma KeyedSides(base: seq<Entry>, head: seq<Entry>, d: RawDelta)
    requires KeyDelta(d.key, Group(base, d.key), Group(head, d.key)) == Some(d)
    ensures WellSided(d)
  {
    hide Group, Signature, ValueSignature;
    GroupFacts(base, d.key);
    GroupFacts(head, d.key);
  }

  // ---- the main result ----

  /** Both sides have one entry under the key. */
  predicate OncePerSide(base: seq<Entry>, head: seq<Entry>, key: Text) {
    |Group(base, key)| == 1 == |Group(head, key)|
  }

  /**
   * Two extracted snapshots compared the other way round: each delta of a permission, a directory, a mode or a flag
   * comes back reversed, and what widened narrows. The one exception is a changed boolean flag that several files set:
   * the first entries of the two sides may then hold the same boolean.
   */
  lemma ReversedComparison(
    base: seq<SourceDocument>, head: seq<SourceDocument>, setup: Setup, d: RawDelta, sensitive: Sensitive)
    requires forall doc | (doc in base || doc in head) && doc.value.Some? :: Printable(doc.value.value)
    requires var b, h := SortEntries(AllEntries(base, setup)), SortEntries(AllEntries(head, setup));
             d in PairHooks(KeyedDeltas(b, h)) && Reversible(d)
    ensures var b, h := SortEntries(AllEntries(base, setup)), SortEntries(AllEntries(head, setup));
            && Reverse(d) in PairHooks(KeyedDeltas(h, b))
            && (WayOf(Classify(Reverse(d), sensitive)) == Flip(WayOf(Classify(d, sensitive)))
                <==> !(IsBooleanFlag(d) && d.change == Changed && SameFlag(d)))
            && (IsBooleanFlag(d) && d.change == Changed && SameFlag(d) ==> !OncePerSide(b, h, d.key))
  {
    hide AllEntries, KeyDelta, Group, KeyedDeltas, PairHooks, Classify, SortEntries, Printable, IsBooleanFlag, SameFlag,
         KindPrefix;
    var b, h := SortEntries(AllEntries(base, setup)), SortEntries(AllEntries(head, setup));
    EntriesArePrintable(base, setup);
    EntriesArePrintable(head, setup);
    SortedEntriesAre(AllEntries(base, setup));
    SortedEntriesAre(AllEntries(head, setup));
    ExtractedKeys(base, setup);
    ExtractedKeys(head, setup);
    HooklessUnpaired(KeyedDeltas(b, h), d);
    DeltasHaveOneKind(b, h, d);
    DeltasReverse(b, h, d);
    ResultsAreSided(b, h, d);
    ReversalFlips(d, sensitive);
    KeyedDeltasFacts(b, h);
    if d.kind == PluginFlag && d.change == Changed && OncePerSide(b, h, d.key) { ChangedFlagsDiffer(d.key, b, h); }
    FlagsAreFlags(d);
  }

  lemma FlagsAreFlags(d: RawDelta)
    ensures IsBooleanFlag(d) ==> d.kind == PluginFlag
  {
    hide Ascii;
  }
}
