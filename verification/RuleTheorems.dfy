/** Permission entries: the key determines the value, so a permission key changes only by multiplicity. */
module RuleTheorems {
  import opened Texts
  import opened Json
  import opened Pointers
  import opened Canonical
  import opened RoundTrip
  import opened Entries
  import opened Signatures
  import opened Diff
  import opened DiffTheorems
  import opened Redact
  import opened Normalize
  import opened Walks
  import opened Extraction
  import opened ExtractionTheorems
  import opened Extractor
  import opened SnapshotTheorems

  const PERM_PREFIX: Text := Ascii("perm:")

  /** An entry that extraction makes of a permission rule. */
  ghost predicate IsRuleEntry(e: Entry, list: Text, raw: Text) {
    && IsPermissionList(list) && e.kind == Perm
    && e.key == RuleKeyOf(list, NormalizeRule(raw).rule) && e.value == RuleValue(NormalizeRule(raw))
  }

  /** Every entry under a permission key is a rule's. */
  ghost predicate RuleEntries(es: seq<Entry>) {
    forall e | e in es && PERM_PREFIX <= e.key :: exists list, raw :: IsRuleEntry(e, list, raw)
  }

  // ---- keys ----

  lemma ListsDiffer(a: Text, b: Text, x: Text, y: Text)
    requires IsPermissionList(a) && IsPermissionList(b) && a + COLON_TEXT + x == b + COLON_TEXT + y
    ensures a == b && x == y
  {
    var s, t := a + COLON_TEXT + x, b + COLON_TEXT + y;
    assert |Ascii("allow")| == 5 && |Ascii("ask")| == 3 && |Ascii("deny")| == 4 && |COLON_TEXT| == 1;
    assert s[0] == a[0] && s[1] == a[1] && t[0] == b[0] && t[1] == b[1];
    assert Ascii("allow")[1] == 0x6c && Ascii("ask")[1] == 0x73 && Ascii("deny")[0] == 0x64;
    assert Ascii("allow")[0] == 0x61 && Ascii("ask")[0] == 0x61;
    assert a == b;
    assert s[|a| + 1..] == x && t[|b| + 1..] == y;
  }

  /** A permission key determines its list and its canonical rule. */
  lemma RuleKeysDiffer(a: Text, b: Text, x: Text, y: Text)
    requires IsPermissionList(a) && IsPermissionList(b) && RuleKeyOf(a, x) == RuleKeyOf(b, y)
    ensures a == b && x == y
  {
    hide Ascii;
    var p := Ascii("perm:");
    var s, t := RuleKeyOf(a, x), RuleKeyOf(b, y);
    assert s[|p|..] == a + COLON_TEXT + x && t[|p|..] == b + COLON_TEXT + y;
    ListsDiffer(a, b, x, y);
  }

  /** What a comparison sees of a rule's value does not depend on how the rule was written. */
  lemma RuleValueFromRule(a: Text, b: Text)
    requires NormalizeRule(a).rule == NormalizeRule(b).rule
    ensures WithoutRaw(RuleValue(NormalizeRule(a))) == WithoutRaw(RuleValue(NormalizeRule(b)))
  {
    hide Ascii, NormalizeRule, WildcardName;
    RuleDeterminesParts(a, b);
    var p, q := NormalizeRule(a), NormalizeRule(b);
    assert p.(raw := []).tool == q.tool && p.(raw := []).spec == q.spec && p.(raw := []).wildcard == q.wildcard;
    SameButRaw(p, q);
  }

  lemma SameButRaw(p: ParsedRule, q: ParsedRule)
    requires p.(raw := []) == q.(raw := [])
    ensures WithoutRaw(RuleValue(p)) == WithoutRaw(RuleValue(q))
  {
    hide Ascii, WildcardName;
    assert p.rule == p.(raw := []).rule && q.rule == q.(raw := []).rule;
    assert p.tool == p.(raw := []).tool && q.tool == q.(raw := []).tool;
    assert p.spec == p.(raw := []).spec && q.spec == q.(raw := []).spec;
    assert p.wildcard == p.(raw := []).wildcard && q.wildcard == q.(raw := []).wildcard;
    assert RuleValue(p).members - {RAW} == RuleValue(q).members - {RAW};
  }

  /** Two entries under one permission key look the same, but for their files. */
  lemma SameKeySameLook(e: Entry, f: Entry)
    requires e.key == f.key && PERM_PREFIX <= e.key && RuleEntries([e]) && RuleEntries([f])
    ensures Unplaced(Visible(e)) == Unplaced(Visible(f))
  {
    hide DropProto, RuleValue, NormalizeRule, RuleKeyOf, WithoutRaw, IsPermissionList;
    assert e in [e] && f in [f];
    var a, x :| IsRuleEntry(e, a, x);
    var b, y :| IsRuleEntry(f, b, y);
    RuleKeysDiffer(a, b, NormalizeRule(x).rule, NormalizeRule(y).rule);
    RuleValueFromRule(x, y);
  }

  // ---- multiplicity ----

  lemma {:induction false} AllEqual<T>(s: seq<T>, x: T)
    requires forall i | 0 <= i < |s| :: s[i] == x
    ensures multiset(s) == multiset{}[x := |s|]
  {
    if s != [] {
      AllEqual(s[1..], x);
      assert s == [s[0]] + s[1..];
    }
  }

  lemma GroupLooks(es: seq<Entry>, key: Text, f: Entry)
    requires RuleEntries(es) && PERM_PREFIX <= key && f.key == key && RuleEntries([f])
    ensures var values := VisibleValues(Group(es, key));
            |values| == |Group(es, key)| && forall i | 0 <= i < |values| :: values[i] == Unplaced(Visible(f))
  {
    hide Visible, Unplaced, Group;
    GroupFacts(es, key);
    var g := Group(es, key);
    forall i | 0 <= i < |g| ensures Unplaced(Visible(g[i])) == Unplaced(Visible(f)) {
      assert g[i] in g;
      assert forall e | e in [g[i]] :: e in es;
      SameKeySameLook(g[i], f);
    }
  }

  /** A permission key on both sides is reported as changed exactly when it occurs a different number of times. */
  lemma RuleKeysChangeByMultiplicity(base: seq<Entry>, head: seq<Entry>, key: Text)
    requires PrintableEntries(base) && PrintableEntries(head) && RuleEntries(base) && RuleEntries(head)
    requires PERM_PREFIX <= key && Group(base, key) != [] && Group(head, key) != []
    ensures var b, h := Group(base, key), Group(head, key);
            var d := KeyDelta(key, b, h);
            d.Some? && d.value.change == Changed <==> |b| != |h|
  {
    hide Group, KeyDelta, VisibleAll, VisibleValues, Visible, Unplaced, RuleEntries;
    var b, h := Group(base, key), Group(head, key);
    GroupFacts(base, key);
    GroupFacts(head, key);
    KeyDeltaIff(key, base, head);
    assert b[0] in b && h[0] in h;
    OneRuleEntry(base, b[0]);
    GroupLooks(base, key, b[0]);
    GroupLooks(head, key, b[0]);
    var v := Unplaced(Visible(b[0]));
    AllEqual(VisibleValues(b), v);
    AllEqual(VisibleValues(h), v);
    assert multiset(VisibleValues(b)) == multiset(VisibleValues(h)) <==> |b| == |h| by {
      assert multiset(VisibleValues(b))[v] == |b| && multiset(VisibleValues(h))[v] == |h|;
    }
    ValuesFollowLooks(b, h);
  }

  lemma OneRuleEntry(es: seq<Entry>, e: Entry)
    requires RuleEntries(es) && e in es
    ensures RuleEntries([e])
  {
  }

  lemma ValuesFollowLooks(a: seq<Entry>, b: seq<Entry>)
    ensures VisibleAll(a) == VisibleAll(b) ==> VisibleValues(a) == VisibleValues(b)
  {
    hide Visible;
    if VisibleAll(a) == VisibleAll(b) {
      assert |VisibleAll(a)| == |a| && |VisibleAll(b)| == |b|;
      forall i | 0 <= i < |a| ensures Visible(a[i]) == Visible(b[i]) { assert VisibleAll(a)[i] == VisibleAll(b)[i]; }
    }
  }

  // ---- extraction makes such entries ----

  predicate RulePlace(place: Place) { (place.RuleList? || place.Rule?) ==> IsPermissionList(place.list) }

  lemma {:induction false} RulePlacesReached(place: Place, v: Value, path: Path, setup: Setup)
    requires RulePlace(place) && PlaceAt(place, v, path, setup).Some?
    ensures RulePlace(PlaceAt(place, v, path, setup).value)
    decreases |path|
  {
    hide IsPermissionList, MatcherOf, GoodGroup, IsHelperKey, IsFlagKey, IsModeKey, Ascii;
    if path != [] {
      RulePlacesReached(NextPlace(place, v, path[0], setup).value, Below(v, path[0]).value, path[1..], setup);
    }
  }

  lemma KindPrefixes()
    ensures |PERM_PREFIX| == 5
    ensures forall other, rest | other in {Ascii("dir:"), Ascii("mode:"), Ascii("hook:"), Ascii("env_key:"),
      Ascii("sandbox:"),
              Ascii("helper:"), Ascii("plugin_flag:"), Ascii("mcp:"), Ascii("unknown:"), Ascii("credential:")} ::
              !(PERM_PREFIX <= other + rest)
  {
    forall other, rest | other in {Ascii("dir:"), Ascii("mode:"), Ascii("hook:"), Ascii("env_key:"), Ascii("sandbox:"),
              Ascii("helper:"), Ascii("plugin_flag:"), Ascii("mcp:"), Ascii("unknown:"), Ascii("credential:")}
      ensures !(PERM_PREFIX <= other + rest)
    {
      assert |other| >= 4 && (other + rest)[0] == other[0] && (other + rest)[1] == other[1];
      assert PERM_PREFIX[0] == 0x70 && PERM_PREFIX[1] == 0x65;
      assert Ascii("plugin_flag:")[1] == 0x6c;
    }
  }

  lemma LeafRules(place: Place, raw: Value, path: Path, key: Option<Text>, setup: Setup, x: Item)
    requires RulePlace(place) && x in LeafItems(place, raw, path, key, setup) && x.what.Add?
      && PERM_PREFIX <= x.what.key
    ensures exists list, s :: IsPermissionList(list)
              && x.what == Add(Perm, RuleKeyOf(list, NormalizeRule(s).rule), RuleValue(NormalizeRule(s)))
  {
    hide Ascii, RedactTree, NormalizeRule, RuleValue, RuleKeyOf, Trim, DigestOf, HookValue, HookText, McpValue,
         McpFieldsOf, PointerTo, ServerFailures, NonStrings, TextList, IsPermissionList;
    KindPrefixes();
    var shown := RedactTree(raw, key, setup.detector);
    match place
    case Rule(_) =>
    case HookDefinition(event, matcher) =>
      if HookText(raw).Some? { HookKeyShape(event, matcher, HookText(raw).value, setup); }
    case FlagKey(name) => if shown.Arr? { NonStringsStand(shown.items, path); }
    case Server(name) => if shown.Obj? { ServerFailuresUnder(shown, raw, path); }
    case _ =>
  }

  lemma HookKeyShape(event: Text, matcher: Option<Text>, text: Text, setup: Setup)
    ensures exists rest :: HookKey(event, matcher, text, setup) == Ascii("hook:") + rest
  {
    hide Ascii;
    var m := if matcher.Some? then matcher.value else [];
    assert HookKey(event, matcher, text, setup) == Ascii("hook:") + (event + COLON_TEXT + m + COLON_TEXT
      + setup.sha(text));
  }

  /** Every entry under a permission key that extraction returns is a rule's. */
  lemma ExtractedRuleEntries(docs: seq<SourceDocument>, setup: Setup)
    ensures RuleEntries(AllEntries(docs, setup))
  {
    hide DocumentItems, AllEntries, NormalizeRule, RuleValue, RuleKeyOf, IsPermissionList;
    forall e | e in AllEntries(docs, setup) && PERM_PREFIX <= e.key
      ensures exists list, raw :: IsRuleEntry(e, list, raw) {
      EntriesHaveSources(docs, setup, e);
      var doc, x :| ComesFrom(e, docs, setup, doc, x);
      DocumentRules(doc.role, doc.value.value, setup, x);
      var list, s :| IsPermissionList(list) && x.what == Add(Perm, RuleKeyOf(list, NormalizeRule(s).rule),
        RuleValue(NormalizeRule(s)));
      assert IsRuleEntry(e, list, s);
    }
  }

  lemma DocumentRules(role: Role, raw: Value, setup: Setup, x: Item)
    requires x in DocumentItems(role, raw, setup) && x.what.Add? && PERM_PREFIX <= x.what.key
    ensures exists list, s :: IsPermissionList(list)
              && x.what == Add(Perm, RuleKeyOf(list, NormalizeRule(s).rule), RuleValue(NormalizeRule(s)))
  {
    hide Visit, VisitGroup, FindingsOf, NodeAt, PlaceAt, LeafItems, GoodGroup, Ascii, NormalizeRule, RuleValue,
         RuleKeyOf, PointerTo, IsPermissionList;
    CredentialsAreNoRules(FindingsOf(raw, [], None, setup.detector), raw, setup);
    if x in Visit(RootPlace(role), raw, [], None, setup) {
      ItemsComeFromPlaces(RootPlace(role), raw, [], None, setup, x);
      var path :| Yields(RootPlace(role), raw, [], None, setup, path, x);
      var place := PlaceAt(RootPlace(role), raw, path, setup).value;
      assert [] + path == path;
      RulePlacesReached(RootPlace(role), raw, path, setup);
      AddsAreLeaves(place, NodeAt(raw, path).value, path, KeyAt(path, None), setup, x);
      LeafRules(place, NodeAt(raw, path).value, path, KeyAt(path, None), setup, x);
    }
  }

  lemma CredentialsAreNoRules(found: seq<Noted<seq<Text>>>, raw: Value, setup: Setup)
    ensures forall x | x in CredentialItems(found, raw, setup) :: x.what.Add? && !(PERM_PREFIX <= x.what.key)
  {
    hide Ascii, PointerTo, TextList, NodeAt;
    KindPrefixes();
    forall i | 0 <= i < |found| ensures !(PERM_PREFIX <= CredentialItem(found[i], raw, setup).what.key) {
      assert CredentialItem(found[i], raw, setup).what.key == Ascii("credential:") + PointerTo(found[i].path);
    }
  }

  lemma SortedEntriesAre(es: seq<Entry>)
    ensures forall e :: e in SortEntries(es) <==> e in es
  {
    SortSorts(es);
    assert forall e :: e in SortEntries(es) <==> e in multiset(SortEntries(es));
    assert forall e :: e in es <==> e in multiset(es);
  }

  /** From the documents on: a permission key of two extracted snapshots is changed exactly when its count differs. */
  lemma SnapshotRuleKeys(base: seq<SourceDocument>, head: seq<SourceDocument>, setup: Setup, key: Text)
    requires forall doc | (doc in base || doc in head) && doc.value.Some? :: Printable(doc.value.value)
    requires PERM_PREFIX <= key
    requires var b, h := SortEntries(AllEntries(base, setup)), SortEntries(AllEntries(head, setup));
             Group(b, key) != [] && Group(h, key) != []
    ensures var b, h := SortEntries(AllEntries(base, setup)), SortEntries(AllEntries(head, setup));
            var d := KeyDelta(key, Group(b, key), Group(h, key));
            d.Some? && d.value.change == Changed <==> |Group(b, key)| != |Group(h, key)|
  {
    hide AllEntries, KeyDelta, Group, Printable;
    var b, h := AllEntries(base, setup), AllEntries(head, setup);
    EntriesArePrintable(base, setup);
    EntriesArePrintable(head, setup);
    ExtractedRuleEntries(base, setup);
    ExtractedRuleEntries(head, setup);
    SortedEntriesAre(b);
    SortedEntriesAre(h);
    RuleKeysChangeByMultiplicity(SortEntries(b), SortEntries(h), key);
  }
}
