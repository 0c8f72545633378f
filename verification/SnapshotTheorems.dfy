/** What holds of every entry that extraction returns, and what follows for comparing two sides. */
module SnapshotTheorems {
  import opened Texts
  import opened Grammar
  import opened Json
  import opened Pointers
  import Sorting
  import opened Canonical
  import opened RoundTrip
  import opened Repeats
  import opened Jsonc
  import opened JsoncTheorems
  import opened Denotation
  import opened Places
  import opened Reader
  import opened Language
  import opened Entries
  import opened Signatures
  import opened Diff
  import opened DiffTheorems
  import opened Redact
  import opened Normalize
  import opened Walks
  import opened Extraction
  import opened ExtractionTheorems
  import opened ItemPointers
  import opened Extractor

  // ---- where entries come from ----

  lemma {:induction false} EntriesFromItems(items: seq<Item>, doc: SourceDocument, sha: Option<Text>, e: Entry)
    requires e in EntriesOf(items, doc, sha)
    ensures exists x :: x in items && x.what.Add? && e == EntryOf(x, doc, sha)
  {
    hide EntryOf;
    var n := |items| - 1;
    if e in EntriesOf(items[..n], doc, sha) {
      EntriesFromItems(items[..n], doc, sha, e);
      var x :| x in items[..n] && x.what.Add? && e == EntryOf(x, doc, sha);
      assert x in items;
    } else {
      assert items[n] in items;
    }
  }

  /** The entry e is that of item x of document doc. */
  ghost predicate ComesFrom(e: Entry, docs: seq<SourceDocument>, setup: Setup, doc: SourceDocument, x: Item) {
    && doc in docs && doc.value.Some? && x in DocumentItems(doc.role, doc.value.value, setup) && x.what.Add?
    && e == EntryOf(x, doc, doc.sha)
  }

  lemma {:induction false} EntriesHaveSources(docs: seq<SourceDocument>, setup: Setup, e: Entry)
    requires e in AllEntries(docs, setup)
    ensures exists doc, x :: ComesFrom(e, docs, setup, doc, x)
  {
    hide DocumentItems, EntriesOf, EntryOf;
    var n := |docs| - 1;
    if e in AllEntries(docs[..n], setup) {
      EntriesHaveSources(docs[..n], setup, e);
      var doc, x :| ComesFrom(e, docs[..n], setup, doc, x);
      assert ComesFrom(e, docs, setup, doc, x);
    } else {
      EntriesFromItems(ItemsOf(docs[n], setup), docs[n], docs[n].sha, e);
      var x :| x in ItemsOf(docs[n], setup) && x.what.Add? && e == EntryOf(x, docs[n], docs[n].sha);
      assert ComesFrom(e, docs, setup, docs[n], x);
    }
  }

  // ---- lines ----

  /** The pointers of a document cover its nodes, as they do after parsing. */
  ghost predicate Parsed(doc: SourceDocument) {
    doc.value.Some? ==> forall path | NodeAt(doc.value.value, path).Some? :: PointerTo(path) in doc.pointers
  }

  lemma ParsedDocuments(text: Text, maxBytes: nat, maxDepth: nat, doc: SourceDocument)
    requires var r := Parse(text, maxBytes, maxDepth); doc.value == r.value && doc.pointers == r.pointers
    ensures Parsed(doc)
    ensures doc.value.Some? ==> Printable(doc.value.value)
  {
    hide Parse, NodeAt, PointerTo, Utf8Length, YieldTree, ValidTree, TreeValue, Depth, NamesDistinct, Printable;
    if doc.value.Some? {
      ValueWithinBytes(text, maxBytes, maxDepth);
      ParserDecidesLanguage(text, maxBytes, maxDepth, doc.value.value);
      var d :| Spells(d, text, maxDepth) && NamesDistinct(d.root) && TreeValue(d.root) == doc.value.value;
      ParsedIsPrintable(d.root);
      forall path | NodeAt(doc.value.value, path).Some? ensures PointerTo(path) in doc.pointers {
        PointersAreExact(text, maxBytes, maxDepth, d, PointerTo(path));
      }
    }
  }

  lemma ValueWithinBytes(text: Text, maxBytes: nat, maxDepth: nat)
    ensures Parse(text, maxBytes, maxDepth).value.Some? ==> Utf8Length(text) <= maxBytes
  {
    hide ParseText, Utf8Length;
  }

  /** Every entry has a pointer to a node of its document, and the line of that node. */
  lemma EntriesHaveLines(docs: seq<SourceDocument>, setup: Setup, e: Entry)
    requires (forall doc | doc in docs :: Parsed(doc)) && e in AllEntries(docs, setup)
    ensures e.pointer.Some? && e.line.Some?
    ensures exists doc, path :: doc in docs && doc.value.Some? && NodeAt(doc.value.value, path).Some?
              && e.file == doc.path && e.pointer == Some(PointerTo(path)) && PointerTo(path) in doc.pointers
              && e.line == Some(doc.pointers[PointerTo(path)].line) && e.sourceSha == doc.sha
  {
    hide DocumentItems, AllEntries, NodeAt, PointerTo, Fitting;
    EntriesHaveSources(docs, setup, e);
    var doc, x :| ComesFrom(e, docs, setup, doc, x);
    DocumentItemsFit(doc.role, doc.value.value, setup, x);
  }

  lemma {:induction false} FailuresFromItems(items: seq<Item>, doc: SourceDocument, f: Incomplete)
    requires f in FailuresOf(items, doc)
    ensures exists x :: x in items && x.what.Fail? && f == IncompleteOf(x, doc)
  {
    hide IncompleteOf;
    var n := |items| - 1;
    if f in FailuresOf(items[..n], doc) {
      FailuresFromItems(items[..n], doc, f);
      var x :| x in items[..n] && x.what.Fail? && f == IncompleteOf(x, doc);
      assert x in items;
    } else {
      assert items[n] in items;
    }
  }

  /** The failure f is that of an item at a path of document doc. */
  ghost predicate FailsAt(f: Incomplete, docs: seq<SourceDocument>, setup: Setup, doc: SourceDocument, path: Path) {
    && doc in docs && doc.value.Some? && Noted(path, Fail) in DocumentItems(doc.role, doc.value.value, setup)
    && f.path == doc.path && f.pointer == PointerTo(path)
    && f.line == if PointerTo(path) in doc.pointers then Some(doc.pointers[PointerTo(path)].line) else None
  }

  lemma {:induction false} FailuresHaveSources(docs: seq<SourceDocument>, setup: Setup, f: Incomplete)
    requires f in AllFailures(docs, setup)
    ensures exists doc, path :: FailsAt(f, docs, setup, doc, path)
  {
    hide DocumentItems, FailuresOf, PointerTo;
    var n := |docs| - 1;
    if f in AllFailures(docs[..n], setup) {
      FailuresHaveSources(docs[..n], setup, f);
      var doc, path :| FailsAt(f, docs[..n], setup, doc, path);
      assert FailsAt(f, docs, setup, doc, path);
    } else {
      FailuresFromItems(ItemsOf(docs[n], setup), docs[n], f);
      var x :| x in ItemsOf(docs[n], setup) && x.what.Fail? && f == IncompleteOf(x, docs[n]);
      assert x == Noted(x.path, Fail);
      assert FailsAt(f, docs, setup, docs[n], x.path);
    }
  }

  /** Every failure is at a node and has its line, or at a missing member of an object. */
  lemma FailuresHaveLines(docs: seq<SourceDocument>, setup: Setup, f: Incomplete)
    requires (forall doc | doc in docs :: Parsed(doc)) && f in AllFailures(docs, setup)
    ensures exists doc, path :: FailsAt(f, docs, setup, doc, path) && Fitting(doc.value.value, path)
              && (NodeAt(doc.value.value, path).Some? ==>
                    PointerTo(path) in doc.pointers && f.line == Some(doc.pointers[PointerTo(path)].line))
  {
    hide DocumentItems, AllFailures, NodeAt, PointerTo, Fitting;
    FailuresHaveSources(docs, setup, f);
    var doc, path :| FailsAt(f, docs, setup, doc, path);
    DocumentItemsFit(doc.role, doc.value.value, setup, Noted(path, Fail));
  }

  /** The document is what parsing its text gave. */
  ghost predicate FromText(doc: SourceDocument, text: Text, maxBytes: nat, maxDepth: nat) {
    doc.value == Parse(text, maxBytes, maxDepth).value && doc.pointers == Parse(text, maxBytes, maxDepth).pointers
  }

  ghost predicate FromSomeText(doc: SourceDocument, maxBytes: nat, maxDepth: nat) {
    exists text :: FromText(doc, text, maxBytes, maxDepth)
  }

  /** The entry is at the document's node at path, and its line is that on which this node's own text begins. */
  ghost predicate StandsAt(e: Entry, doc: SourceDocument, text: Text, d: Document, path: Path, maxDepth: nat) {
    && Spells(d, text, maxDepth) && doc.value == Some(TreeValue(d.root)) && NodeAt(TreeValue(d.root), path).Some?
    && e.file == doc.path && e.pointer == Some(PointerTo(path)) && e.sourceSha == doc.sha
    && PointsAtNode(text, RootIndex(text, d), d.root, doc.pointers, path)
    && e.line == Some(LineAt(text, SiteOf(RootIndex(text, d), d.root, path).value.at))
  }

  /** Every entry's line is the line, in the text of its document, on which the node it is about begins. */
  lemma EntriesStandAtNodes(docs: seq<SourceDocument>, setup: Setup, e: Entry, maxBytes: nat, maxDepth: nat)
    requires (forall doc | doc in docs :: FromSomeText(doc, maxBytes, maxDepth)) && e in AllEntries(docs, setup)
    ensures exists doc, text, d, path ::
              doc in docs && FromText(doc, text, maxBytes, maxDepth) && StandsAt(e, doc, text, d, path, maxDepth)
  {
    hide DocumentItems, AllEntries, NodeAt, PointerTo, Parse, YieldTree, TreeValue, NamesDistinct, Depth, Occurs,
         SiteOf, YieldDocument, Utf8Length;
    forall doc | doc in docs ensures Parsed(doc) {
      var text :| FromText(doc, text, maxBytes, maxDepth);
      ParsedDocuments(text, maxBytes, maxDepth, doc);
    }
    EntriesHaveLines(docs, setup, e);
    var doc, path :| doc in docs && doc.value.Some? && NodeAt(doc.value.value, path).Some?
      && e.file == doc.path && e.pointer == Some(PointerTo(path)) && PointerTo(path) in doc.pointers
      && e.line == Some(doc.pointers[PointerTo(path)].line) && e.sourceSha == doc.sha;
    assert FromSomeText(doc, maxBytes, maxDepth);
    var text :| FromText(doc, text, maxBytes, maxDepth);
    ValueWithinBytes(text, maxBytes, maxDepth);
    ParserDecidesLanguage(text, maxBytes, maxDepth, doc.value.value);
    var d :| Spells(d, text, maxDepth) && NamesDistinct(d.root) && TreeValue(d.root) == doc.value.value;
    PointersAreExact(text, maxBytes, maxDepth, d, PointerTo(path));
    assert StandsAt(e, doc, text, d, path, maxDepth);
  }

  // ---- entries can be printed ----

  lemma {:induction false} DecimalDigits(n: nat)
    ensures AllDigits(Decimal(n)) && (n > 0 ==> Decimal(n)[0] != ZERO)
  {
    if n >= 10 { DecimalDigits(n / 10); }
  }

  lemma DecimalIsLexeme(n: nat)
    ensures IsLexeme(Decimal(n))
  {
    DecimalDigits(n);
    var number := Number(false, Decimal(n), [], Option.None);
    assert ValidNumber(number) && YieldNumber(number) == Decimal(n);
  }

  lemma {:induction false} RedactedIsPrintable(v: Value, key: Option<Text>, d: Detector)
    requires Printable(v)
    ensures Printable(RedactTree(v, key, d))
    decreases v
  {
    hide Redaction;
    match v
    case Arr(items) =>
      forall i | 0 <= i < |items|
        ensures Printable(RedactTree(items[i], key, d)) { RedactedIsPrintable(items[i], key, d); }
    case Obj(members) =>
      forall name | name in members ensures Printable(RedactTree(members[name], Some(name), d)) {
        RedactedIsPrintable(members[name], Some(name), d);
      }
    case _ =>
  }

  lemma {:induction false} NodeIsPrintable(v: Value, path: Path)
    requires Printable(v) && NodeAt(v, path).Some?
    ensures Printable(NodeAt(v, path).value)
    decreases |path|
  {
    if path != [] { NodeIsPrintable(Below(v, path[0]).value, path[1..]); }
  }

  lemma DigestIsPrintable(raw: Text, setup: Setup)
    ensures Printable(DigestOf(raw, setup))
  {
    hide Ascii, IsLexeme, Decimal;
    DecimalIsLexeme(|raw|);
    var m := DigestOf(raw, setup).members;
    assert Printable(Bool(true)) && Printable(Num(Decimal(|raw|))) && Printable(Str(setup.sha(raw)));
  }

  ghost predicate PrintableMap(m: map<Text, Value>) { forall k | k in m :: Printable(m[k]) }

  lemma FieldIsPrintable(v: Value, field: Text)
    requires Printable(v)
    ensures Printable(TextOrNull(FieldOf(v, field))) && Printable(NumberOrNull(FieldOf(v, field)))
      && Printable(ArgList(FieldOf(v, field)))
  {
  }

  lemma ShaIsPrintable(field: Text, digest: Option<Text>)
    ensures PrintableMap(ShaMember(field, digest))
  {
  }

  lemma HookIsPrintable(event: Text, matcher: Option<Text>, shown: Value, raw: Value, setup: Setup)
    requires Printable(shown)
    ensures Printable(HookValue(event, matcher, shown, raw, setup))
  {
    hide Ascii, Printable, FieldDigest, TextOrNull, NumberOrNull, FieldOf, ShaMember;
    TextIsPrintable(event);
    NullableIsPrintable(matcher);
    FieldIsPrintable(shown, Ascii("type"));
    FieldIsPrintable(shown, Ascii("command"));
    FieldIsPrintable(shown, Ascii("prompt"));
    FieldIsPrintable(shown, Ascii("timeout"));
    assert PrintableMap(HookBase(event, matcher, shown));
    var c, p := Ascii("command"), Ascii("prompt");
    ShaIsPrintable(c, FieldDigest(TextOrNull(FieldOf(shown, c)), FieldOf(raw, c), setup));
    ShaIsPrintable(p, FieldDigest(TextOrNull(FieldOf(shown, p)), FieldOf(raw, p), setup));
    ObjectIsPrintable(HookValue(event, matcher, shown, raw, setup).members);
  }

  lemma TextIsPrintable(s: Text)
    ensures Printable(Str(s)) && Printable(Value.Null)
  {
  }

  lemma NullableIsPrintable(t: Option<Text>)
    ensures Printable(Nullable(t))
  {
  }

  lemma ObjectIsPrintable(m: map<Text, Value>)
    requires PrintableMap(m)
    ensures Printable(Obj(m))
  {
  }

  lemma DigestMapIsPrintable(raw: Option<Value>, setup: Setup)
    ensures Printable(DigestMap(raw, setup))
  {
    hide Printable, DigestOf;
    TextIsPrintable([]);
    if DigestMap(raw, setup).Obj? {
      var m := DigestMap(raw, setup).members;
      forall k | k in m ensures Printable(m[k]) { DigestIsPrintable(raw.value.members[k].s, setup); }
      ObjectIsPrintable(m);
    }
  }

  lemma ExtraIsPrintable(members: map<Text, Value>)
    requires PrintableMap(members)
    ensures Printable(Extra(members))
  {
    hide Ascii;
  }

  lemma TransportIsPrintable(shown: Value)
    ensures Printable(Transport(shown))
  {
    hide Ascii;
  }

  lemma ServerIsPrintable(name: Text, shown: Value, raw: Value, setup: Setup)
    requires shown.Obj? && Printable(shown)
    ensures Printable(McpValue(McpFieldsOf(name, shown, raw, setup)))
  {
    hide Ascii, Printable, FieldDigest, TextOrNull, FieldOf, ShaMember, Transport, Extra, ArgList, DigestMap;
    TextIsPrintable(name);
    FieldIsPrintable(shown, Ascii("type"));
    FieldIsPrintable(shown, Ascii("command"));
    FieldIsPrintable(shown, Ascii("args"));
    FieldIsPrintable(shown, Ascii("url"));
    DigestMapIsPrintable(FieldOf(raw, Ascii("env")), setup);
    DigestMapIsPrintable(FieldOf(raw, Ascii("headers")), setup);
    TransportIsPrintable(shown);
    MembersArePrintable(shown);
    ExtraIsPrintable(shown.members);
    var f := McpFieldsOf(name, shown, raw, setup);
    assert PrintableMap(McpBase(f));
    ShaIsPrintable(Ascii("command"), f.commandSha);
    ShaIsPrintable(Ascii("args"), f.argsSha);
    ShaIsPrintable(Ascii("url"), f.urlSha);
    ObjectIsPrintable(McpValue(f).members);
  }

  lemma MembersArePrintable(v: Value)
    requires v.Obj? && Printable(v)
    ensures PrintableMap(v.members)
  {
  }

  lemma TextListIsPrintable(texts: seq<Text>)
    ensures Printable(TextList(texts))
  {
    assert forall i | 0 <= i < |texts| :: TextList(texts).items[i] == Str(texts[i]);
  }

  lemma RuleIsPrintable(p: ParsedRule)
    ensures Printable(RuleValue(p))
  {
    hide Ascii, NormalizeRule;
    TextIsPrintable([]);
    NullableIsPrintable(p.spec);
  }

  lemma LeafIsPrintable(place: Place, raw: Value, path: Path, key: Option<Text>, setup: Setup, x: Item)
    requires Printable(raw) && x in LeafItems(place, raw, path, key, setup) && x.what.Add?
    ensures Printable(x.what.value)
  {
    hide Ascii, RedactTree, NormalizeRule, RuleValue, RuleKeyOf, Trim, DigestOf, HookValue, HookText, HookKey,
         McpValue, McpFieldsOf, PointerTo, ServerFailures, FlagItems, HelperItem, TextList;
    var shown := RedactTree(raw, key, setup.detector);
    RedactedIsPrintable(raw, key, setup.detector);
    match place
    case Rule(_) => if shown.Str? { RuleIsPrintable(NormalizeRule(shown.s)); }
    case HookDefinition(event, matcher) => HookIsPrintable(event, matcher, shown, raw, setup);
    case EnvName(_) => if raw.Str? { DigestIsPrintable(raw.s, setup); }
    case HelperKey(name) => HelperIsPrintable(name, shown, raw, setup);
    case FlagKey(name) => FlagIsPrintable(name, shown, path, x);
    case Server(name) =>
      if shown.Obj? {
        ServerFailuresUnder(shown, raw, path);
        ServerIsPrintable(name, shown, raw, setup);
      }
    case _ =>
  }

  lemma HelperIsPrintable(name: Text, shown: Value, raw: Value, setup: Setup)
    ensures HelperItem(name, shown, raw, setup).Add? ==> Printable(HelperItem(name, shown, raw, setup).value)
  {
    hide Ascii;
  }

  lemma FlagIsPrintable(name: Text, shown: Value, path: Path, x: Item)
    requires Printable(shown) && x in FlagItems(name, shown, path) && x.what.Add?
    ensures Printable(x.what.value)
  {
    hide Ascii, NonStrings, TextList;
    if shown.Arr? {
      NonStringsStand(shown.items, path);
      Sorting.LessIsStrictTotal();
      TextListIsPrintable(Sorting.SortSet(set v | v in shown.items && v.Str? :: v.s, Less));
    }
  }

  lemma ItemsArePrintable(role: Role, raw: Value, setup: Setup, x: Item)
    requires Printable(raw) && x in DocumentItems(role, raw, setup) && x.what.Add?
    ensures Printable(x.what.value)
  {
    hide Visit, VisitGroup, FindingsOf, NodeAt, PlaceAt, LeafItems, Printable, GoodGroup, Ascii;
    if x in Visit(RootPlace(role), raw, [], None, setup) {
      ItemsComeFromPlaces(RootPlace(role), raw, [], None, setup, x);
      var path :| Yields(RootPlace(role), raw, [], None, setup, path, x);
      var place := PlaceAt(RootPlace(role), raw, path, setup).value;
      assert [] + path == path;
      NodeIsPrintable(raw, path);
      AddsAreLeaves(place, NodeAt(raw, path).value, path, KeyAt(path, None), setup, x);
      LeafIsPrintable(place, NodeAt(raw, path).value, path, KeyAt(path, None), setup, x);
    } else {
      var found := FindingsOf(raw, [], None, setup.detector);
      var i :| 0 <= i < |found| && x == CredentialItem(found[i], raw, setup);
      CredentialIsPrintable(found[i], raw, setup);
    }
  }

  /** Only places that are no containers and no groups yield entries. */
  lemma AddsAreLeaves(place: Place, raw: Value, path: Path, key: Option<Text>, setup: Setup, x: Item)
    requires x in OwnItems(place, raw, path, key, setup) && x.what.Add?
    ensures x in LeafItems(place, raw, path, key, setup) && !IsContainer(place) && !place.MatcherGroup?
  {
    hide LeafItems, Visit, Ascii;
  }

  lemma CredentialIsPrintable(found: Noted<seq<Text>>, raw: Value, setup: Setup)
    ensures Printable(CredentialItem(found, raw, setup).what.value)
  {
    hide Ascii, PointerTo, TextList, NodeAt;
    TextListIsPrintable(found.what);
    TextIsPrintable([]);
  }

  /** Entries of parsed documents can be printed, so that the diff's signatures decide equality. */
  lemma EntriesArePrintable(docs: seq<SourceDocument>, setup: Setup)
    requires forall doc | doc in docs && doc.value.Some? :: Printable(doc.value.value)
    ensures PrintableEntries(AllEntries(docs, setup))
  {
    hide DocumentItems, AllEntries, Printable;
    forall e | e in AllEntries(docs, setup) ensures Printable(e.value) {
      EntriesHaveSources(docs, setup, e);
      var doc, x :| ComesFrom(e, docs, setup, doc, x);
      ItemsArePrintable(doc.role, doc.value.value, setup, x);
    }
  }
}
