/** What each kind of entry says: its key, its value, and what two entries of one key must share to compare equal. */
module LeafTheorems {
  import opened Texts
  import opened Json
  import opened Pointers
  import Sorting
  import opened Canonical
  import opened RoundTrip
  import opened Entries
  import opened Signatures
  import opened Diff
  import opened DiffTheorems
  import opened Redact
  import opened Normalize
  import opened Walks
  import opened Extraction
  import opened ExtractionTheorems
  import opened McpTheorems
  import opened Extractor
  import opened SnapshotTheorems
  import opened RuleTheorems
  import opened DirectionTheorems
  import opened Reversal
  import opened LeafValues

  // ---- what a comparison sees of a value ----

  /** A value without its text as written and without __proto__ members. */
  function Seen(v: Value): Value { DropProto(WithoutRaw(v)) }

  predicate Scalar(v: Value) { !v.Arr? && !v.Obj? }

  /** An object of strings, numbers, booleans and nulls, under names that are not dropped. */
  ghost predicate Flat(v: Value) {
    v.Obj? && PROTO !in v.members && RAW !in v.members
    && forall name | name in v.members :: Scalar(v.members[name])
  }

  lemma FlatIsSeen(v: Value)
    requires Flat(v)
    ensures Seen(v) == v
  {
    assert forall name | name in v.members :: DropProto(v.members[name]) == v.members[name];
    assert DropProto(v).members == v.members;
  }

  /** What has neither a raw member nor any __proto__ member is seen as it is. */
  lemma ShownIsSeen(v: Value, w: Value)
    requires DropProto(v) == v && DropProto(w) == w
    requires !(v.Obj? && RAW in v.members) && !(w.Obj? && RAW in w.members)
    ensures Seen(v) == Seen(w) <==> v == w
  {
  }

  // ---- the comparison of one key ----

  lemma EntryOfItem(items: seq<Item>, doc: SourceDocument, sha: Option<Text>, x: Item)
    requires x in items && x.what.Add?
    ensures EntryOf(x, doc, sha) in EntriesOf(items, doc, sha)
  {
    hide EntryOf;
    var n := |items| - 1;
    if items[n] != x {
      assert items == items[..n] + [items[n]];
      EntryOfItem(items[..n], doc, sha, x);
    }
  }

  /** Each item of a document that adds something is an entry of the snapshot. */
  lemma {:induction false} ItemsAreEntries(docs: seq<SourceDocument>, setup: Setup, doc: SourceDocument, x: Item)
    requires doc in docs && x in ItemsOf(doc, setup) && x.what.Add?
    ensures EntryOf(x, doc, doc.sha) in AllEntries(docs, setup)
  {
    hide EntryOf, EntriesOf, DocumentItems;
    var n := |docs| - 1;
    if docs[n] == doc {
      EntryOfItem(ItemsOf(doc, setup), doc, doc.sha, x);
    } else {
      assert docs == docs[..n] + [docs[n]];
      ItemsAreEntries(docs[..n], setup, doc, x);
    }
  }

  /** Two groups of one entry each: what their delta is. */
  lemma SinglesCompared(base: seq<Entry>, head: seq<Entry>, key: Text, e: Entry, f: Entry)
    requires PrintableEntries(base) && PrintableEntries(head) && Group(base, key) == [e] && Group(head, key) == [f]
    ensures var d := KeyDelta(key, [e], [f]);
            && (d.Some? && d.value.change == Changed <==> (e.kind, Seen(e.value)) != (f.kind, Seen(f.value)))
            && (d.Some? && d.value.change == Moved <==> (e.kind, Seen(e.value)) == (f.kind, Seen(f.value)) && e.file != f.file)
            && (d.Some? ==> d.value.key == key && d.value.change in {Changed, Moved})
  {
    hide Group, Seen, DropProto, WithoutRaw;
    GroupFacts(base, key);
    GroupFacts(head, key);
    assert e in [e] && f in [f];
    KeyDeltaIff(key, base, head);
    assert VisibleAll([e]) == [Visible(e)] && VisibleAll([f]) == [Visible(f)];
    assert VisibleValues([e]) == [Unplaced(Visible(e))] && VisibleValues([f]) == [Unplaced(Visible(f))];
    assert Visible(e).value == Seen(e.value) && Visible(f).value == Seen(f.value) by { SeenIsVisible(e); SeenIsVisible(f); }
    SameSingle(Unplaced(Visible(e)), Unplaced(Visible(f)));
  }

  lemma SeenIsVisible(e: Entry)
    ensures Visible(e) == Semantic(e.kind, e.key, e.file, Seen(e.value))
  {
  }

  lemma SameSingle<T>(x: T, y: T)
    ensures multiset([x]) == multiset([y]) <==> x == y
  {
    assert x in multiset([x]) && (x in multiset([y]) <==> x == y);
  }

  /** The result of the comparison has a changed delta of the key. */
  ghost predicate ReportsChange(base: seq<Entry>, head: seq<Entry>, key: Text) {
    exists d :: d in PairHooks(KeyedDeltas(base, head)) && d.key == key && d.change == Changed
  }

  lemma BothSidesReported(base: seq<Entry>, head: seq<Entry>, key: Text)
    requires Group(base, key) != [] && Group(head, key) != []
    ensures var d := KeyDelta(key, Group(base, key), Group(head, key));
            ReportsChange(base, head, key) <==> d.Some? && d.value.change == Changed
  {
    hide KeyDelta, Group, KeySet, KeyedDeltas, PairHooks, PairId, Sharing, PairedId, Merge, TheRemoved, TheAdded;
    var ds := KeyedDeltas(base, head);
    KeyedDeltasFacts(base, head);
    GroupFacts(base, key);
    KeyDeltaWellKeyed(key, base, head);
    GroupFacts(head, key);
    var k := KeyDelta(key, Group(base, key), Group(head, key));
    if k.Some? && k.value.change == Changed {
      OwnerIsResult(ds, k.value);
      ChangesStay(ds, k.value);
    }
    if d :| d in PairHooks(ds) && d.key == key && d.change == Changed { KeyOfResult(base, head, d); }
  }

  lemma ChangesStay(ds: seq<RawDelta>, d: RawDelta)
    requires d.change == Changed
    ensures Owner(ds, d) == d
  {
    hide PairedId;
  }

  /** A result under a key that both sides have is the keyed delta of the key. */
  lemma KeyOfResult(base: seq<Entry>, head: seq<Entry>, d: RawDelta)
    requires d in PairHooks(KeyedDeltas(base, head)) && Group(base, d.key) != [] && Group(head, d.key) != []
    ensures KeyDelta(d.key, Group(base, d.key), Group(head, d.key)) == Some(d)
  {
    hide Group, KeySet, KeyedDeltas, PairId, Sharing, PairedId, Merge, TheRemoved, TheAdded, Signature, ValueSignature;
    var ds := KeyedDeltas(base, head);
    KeyedDeltasFacts(base, head);
    UnpairedMembers(ds, ds, d);
    MergedMembers(Ids(ds), ds, d);
    if id :| id in Ids(ds) && PairedId(ds, id) && Merge(ds, id) == d {
      MergeSources(ds, id);
    }
  }

  /**
   * One key, written once on either side: it is reported as changed exactly when the two documents' values for it do
   * not look the same.
   */
  lemma ValuesAreCompared(
    base: seq<SourceDocument>, head: seq<SourceDocument>, setup: Setup, doc: SourceDocument, other: SourceDocument,
    x: Item, y: Item)
    requires forall d | (d in base || d in head) && d.value.Some? :: Printable(d.value.value)
    requires doc in base && other in head && x in ItemsOf(doc, setup) && y in ItemsOf(other, setup)
    requires x.what.Add? && y.what.Add? && x.what.key == y.what.key
    requires OncePerSide(SortEntries(AllEntries(base, setup)), SortEntries(AllEntries(head, setup)), x.what.key)
    ensures ReportsChange(SortEntries(AllEntries(base, setup)), SortEntries(AllEntries(head, setup)), x.what.key)
       <==> Seen(x.what.value) != Seen(y.what.value)
  {
    hide AllEntries, ItemsOf, Group, KeyDelta, Printable, SortEntries, Seen, ReportsChange, KindPrefix;
    var b, h, key := SortEntries(AllEntries(base, setup)), SortEntries(AllEntries(head, setup)), x.what.key;
    var e, f := EntryOf(x, doc, doc.sha), EntryOf(y, other, other.sha);
    ItemsAreEntries(base, setup, doc, x);
    ItemsAreEntries(head, setup, other, y);
    EntriesArePrintable(base, setup);
    EntriesArePrintable(head, setup);
    SortedEntriesAre(AllEntries(base, setup));
    SortedEntriesAre(AllEntries(head, setup));
    OnlyInGroup(b, key, e);
    OnlyInGroup(h, key, f);
    SinglesCompared(b, h, key, e, f);
    BothSidesReported(b, h, key);
    ExtractedKeys(base, setup);
    ExtractedKeys(head, setup);
    KeyNamesKind(e.kind, f.kind, key);
  }

  lemma OnlyInGroup(es: seq<Entry>, key: Text, e: Entry)
    requires e in es && e.key == key && |Group(es, key)| == 1
    ensures Group(es, key) == [e]
  {
    hide GroupOf;
    InGroup(SortEntries(es), key, e);
    SortedEntriesAre(es);
    assert e in SortEntries(es);
  }

  lemma {:induction false} InGroup(es: seq<Entry>, key: Text, e: Entry)
    ensures e in es && e.key == key ==> e in GroupOf(es, key)
  {
    if es != [] { InGroup(es[1..], key, e); }
  }

  // ---- the values of each kind ----

  lemma ProtoAndRaw()
    ensures |PROTO| == 9 && |RAW| == 3 && RAW[0] == 0x72 && PROTO[0] == 0x5f
  {
  }

  /** Two environment values look the same exactly when the texts are the same. */
  lemma EnvDecides(s: Text, t: Text, setup: Setup)
    requires Injective(setup.sha)
    ensures Seen(DigestOf(s, setup)) == Seen(DigestOf(t, setup)) <==> s == t
  {
    DigestIsFlat(s, setup);
    DigestIsFlat(t, setup);
    FlatIsSeen(DigestOf(s, setup));
    FlatIsSeen(DigestOf(t, setup));
    if DigestOf(s, setup) == DigestOf(t, setup) { DigestInjective(s, t, setup); }
  }

  lemma DigestIsFlat(s: Text, setup: Setup)
    ensures Flat(DigestOf(s, setup))
  {
    ProtoAndRaw();
    assert |Ascii("redacted")| == 8 && |Ascii("length")| == 6 && |Ascii("sha256")| == 6;
  }

  /** Two modes look the same exactly when the shown texts are the same. */
  lemma ModeDecides(s: Text, t: Text)
    ensures Seen(Obj(map[Ascii("raw") := Str(s), Ascii("mode") := Str(s)]))
              == Seen(Obj(map[Ascii("raw") := Str(t), Ascii("mode") := Str(t)]))
       <==> s == t
  {
    assert |Ascii("mode")| == 4;
    OneTextIsSeen(Ascii("mode"), Str(s), Str(s));
    OneTextIsSeen(Ascii("mode"), Str(t), Str(t));
    assert map[Ascii("mode") := Str(s)][Ascii("mode")] == Str(s);
  }

  lemma OneTextIsSeen(name: Text, raw: Value, v: Value)
    requires |name| == 4 && DropProto(v) == v
    ensures Seen(Obj(map[Ascii("raw") := raw, name := v])) == Obj(map[name := v])
  {
    ProtoAndRaw();
    var m := map[Ascii("raw") := raw, name := v];
    assert WithoutRaw(Obj(m)).members == map[name := v];
    assert DropProto(Obj(map[name := v])).members == map[name := v];
  }

  /** Two directories look the same exactly when the trimmed paths are the same. */
  lemma DirectoryDecides(s: Text, t: Text)
    ensures Seen(Obj(map[Ascii("raw") := Str(s), Ascii("path") := Str(Trim(s))]))
              == Seen(Obj(map[Ascii("raw") := Str(t), Ascii("path") := Str(Trim(t))]))
       <==> Trim(s) == Trim(t)
  {
    hide Trim;
    assert |Ascii("path")| == 4;
    OneTextIsSeen(Ascii("path"), Str(s), Str(Trim(s)));
    OneTextIsSeen(Ascii("path"), Str(t), Str(Trim(t)));
    assert map[Ascii("path") := Str(Trim(s))][Ascii("path")] == Str(Trim(s));
  }

  /** A helper's value, its command as shown and the hash of the raw command if that is not what is shown. */
  function HelperValue(raw: Text, key: Option<Text>, setup: Setup): Value {
    var shown := RedactTree(Str(raw), key, setup.detector);
    if shown == Str(raw) then Obj(map[Ascii("command") := shown])
    else Obj(map[Ascii("command") := shown, Ascii("command_sha256") := Str(setup.sha(raw))])
  }

  /** Two helpers look the same exactly when the raw commands are the same. */
  lemma HelperDecides(s: Text, t: Text, key: Option<Text>, setup: Setup)
    requires Injective(setup.sha)
    ensures Seen(HelperValue(s, key, setup)) == Seen(HelperValue(t, key, setup)) <==> s == t
  {
    hide Redaction, Seen;
    HelperIsFlat(s, key, setup);
    HelperIsFlat(t, key, setup);
    FlatIsSeen(HelperValue(s, key, setup));
    FlatIsSeen(HelperValue(t, key, setup));
    var v, w := HelperValue(s, key, setup).members, HelperValue(t, key, setup).members;
    if HelperValue(s, key, setup) == HelperValue(t, key, setup) {
      HelperReads(s, key, setup);
      HelperReads(t, key, setup);
    }
  }

  lemma HelperReads(s: Text, key: Option<Text>, setup: Setup)
    ensures var m := HelperValue(s, key, setup).members; var shown := RedactTree(Str(s), key, setup.detector);
            && Ascii("command") in m && m[Ascii("command")] == shown
            && (Ascii("command_sha256") in m <==> shown != Str(s))
            && (shown != Str(s) ==> m[Ascii("command_sha256")] == Str(setup.sha(s)))
  {
    hide RedactTree;
    assert |Ascii("command")| == 7 && |Ascii("command_sha256")| == 14;
  }

  lemma HelperIsFlat(s: Text, key: Option<Text>, setup: Setup)
    ensures Flat(HelperValue(s, key, setup))
  {
    hide Redaction;
    ProtoAndRaw();
    assert |Ascii("command")| == 7 && |Ascii("command_sha256")| == 14;
  }

  // ---- hooks ----

  /** All that a hook's entry depends on: what is shown, but the raw command and prompt. */
  datatype HookFacts = HookFacts(
    event: Text, matcher: Option<Text>, kind: Value, command: Option<Text>, prompt: Option<Text>, timeout: Value)

  function FactsOf(event: Text, matcher: Option<Text>, hook: Value, key: Option<Text>, setup: Setup): HookFacts {
    HookFacts(event, matcher, TextOrNull(ShownField(FieldOf(hook, Ascii("type")), Ascii("type"), setup)),
              TextOf(FieldOf(hook, Ascii("command"))), TextOf(FieldOf(hook, Ascii("prompt"))),
              NumberOrNull(FieldOf(hook, Ascii("timeout"))))
  }

  /** Two hooks look the same exactly when event, matcher, type, raw command, raw prompt and timeout are the same. */
  lemma HookDecides(
    event: Text, matcher: Option<Text>, a: Value, otherEvent: Text, otherMatcher: Option<Text>, b: Value,
    key: Option<Text>, setup: Setup)
    requires Injective(setup.sha)
    ensures Seen(HookValue(event, matcher, RedactTree(a, key, setup.detector), a, setup))
              == Seen(HookValue(otherEvent, otherMatcher, RedactTree(b, key, setup.detector), b, setup))
       <==> FactsOf(event, matcher, a, key, setup) == FactsOf(otherEvent, otherMatcher, b, key, setup)
  {
    hide Ascii, RedactTree, HookValue, FieldOf, FieldDigest, TextOrNull, NumberOrNull, TextOf, ShownField, Seen, HookBase;
    var x, y := RedactTree(a, key, setup.detector), RedactTree(b, key, setup.detector);
    HookIsFlat(event, matcher, x, a, setup);
    HookIsFlat(otherEvent, otherMatcher, y, b, setup);
    FlatIsSeen(HookValue(event, matcher, x, a, setup));
    FlatIsSeen(HookValue(otherEvent, otherMatcher, y, b, setup));
    HookReads(event, matcher, x, a, setup);
    HookReads(otherEvent, otherMatcher, y, b, setup);
    HookBaseReads(event, matcher, x);
    HookBaseReads(otherEvent, otherMatcher, y);
    HookFieldsShown(a, key, setup);
    HookFieldsShown(b, key, setup);
    ShownDecides(FieldOf(a, Ascii("command")), FieldOf(b, Ascii("command")), Ascii("command"), setup);
    ShownDecides(FieldOf(a, Ascii("prompt")), FieldOf(b, Ascii("prompt")), Ascii("prompt"), setup);
    NullableInjective(matcher, otherMatcher);
    if FactsOf(event, matcher, a, key, setup) == FactsOf(otherEvent, otherMatcher, b, key, setup) {
      assert HookBase(event, matcher, x) == HookBase(event, matcher, y);
      SameHookValue(event, matcher, x, a, y, b, setup);
    }
  }

  lemma HookNames()
    ensures |Ascii("event")| == 5 && |Ascii("matcher")| == 7 && |Ascii("type")| == 4 && |Ascii("command")| == 7
    ensures |Ascii("prompt")| == 6 && |Ascii("timeout")| == 7
    ensures |ShaName(Ascii("command"))| == 14 && |ShaName(Ascii("prompt"))| == 13
    ensures Ascii("matcher") != Ascii("command") && Ascii("command") != Ascii("timeout")
    ensures Ascii("matcher") != Ascii("timeout")
  {
    assert Ascii("matcher")[0] == 0x6d && Ascii("command")[0] == 0x63 && Ascii("timeout")[0] == 0x74;
  }

  lemma HookBaseReads(event: Text, matcher: Option<Text>, shown: Value)
    ensures var m := HookBase(event, matcher, shown);
            && m.Keys == {Ascii("event"), Ascii("matcher"), Ascii("type"), Ascii("command"), Ascii("prompt"), Ascii("timeout")}
            && m[Ascii("event")] == Str(event) && m[Ascii("matcher")] == Nullable(matcher)
            && m[Ascii("type")] == TextOrNull(FieldOf(shown, Ascii("type")))
            && m[Ascii("command")] == TextOrNull(FieldOf(shown, Ascii("command")))
            && m[Ascii("prompt")] == TextOrNull(FieldOf(shown, Ascii("prompt")))
            && m[Ascii("timeout")] == NumberOrNull(FieldOf(shown, Ascii("timeout")))
  {
    hide Ascii, ShaName, FieldOf;
    HookNames();
  }

  /** The members of a hook's entry, and its two digests. */
  lemma HookReads(event: Text, matcher: Option<Text>, shown: Value, raw: Value, setup: Setup)
    ensures var v, base := HookValue(event, matcher, shown, raw, setup), HookBase(event, matcher, shown);
            && v.Obj? && (forall name | name in base :: name in v.members && v.members[name] == base[name])
            && (forall field | field in {Ascii("command"), Ascii("prompt")} ::
                  ShaOf(v.members, field) == FieldDigest(TextOrNull(FieldOf(shown, field)), FieldOf(raw, field), setup))
            && v.members.Keys <= base.Keys + {ShaName(Ascii("command")), ShaName(Ascii("prompt"))}
            && (forall name | name in v.members && name !in base :: v.members[name].Str?)
  {
    hide Ascii, ShaName, FieldOf, FieldDigest, HookBase, TextOrNull;
    HookNames();
    HookBaseReads(event, matcher, shown);
  }

  lemma HookIsFlat(event: Text, matcher: Option<Text>, shown: Value, raw: Value, setup: Setup)
    ensures Flat(HookValue(event, matcher, shown, raw, setup))
  {
    hide Ascii, ShaName, FieldDigest, HookBase, HookValue, FieldOf, TextOrNull, NumberOrNull, Nullable;
    HookNames();
    ProtoAndRaw();
    HookBaseReads(event, matcher, shown);
    HookReads(event, matcher, shown, raw, setup);
    RawAndHookNames();
    forall v ensures Scalar(TextOrNull(v)) && Scalar(NumberOrNull(v)) { FieldsAreScalar(v); }
    assert Scalar(Nullable(matcher)) by { MatchersAreScalar(matcher); }
  }

  lemma FieldsAreScalar(v: Option<Value>)
    ensures Scalar(TextOrNull(v)) && Scalar(NumberOrNull(v))
  {
  }

  lemma MatchersAreScalar(m: Option<Text>)
    ensures Scalar(Nullable(m))
  {
  }

  lemma RawAndHookNames()
    ensures RAW !in {Ascii("event"), Ascii("matcher"), Ascii("type"), Ascii("command"), Ascii("prompt"), Ascii("timeout")}
  {
    hide Ascii, ShaName;
    HookNames();
    ProtoAndRaw();
  }

  lemma NullableInjective(a: Option<Text>, b: Option<Text>)
    ensures Nullable(a) == Nullable(b) <==> a == b
  {
  }

  /** Every field of the copy is the copy of the field; a timeout is a number and stays. */
  lemma HookFieldsShown(hook: Value, key: Option<Text>, setup: Setup)
    ensures var shown := RedactTree(hook, key, setup.detector);
            && (forall field :: FieldOf(shown, field) == ShownField(FieldOf(hook, field), field, setup))
            && NumberOrNull(FieldOf(shown, Ascii("timeout"))) == NumberOrNull(FieldOf(hook, Ascii("timeout")))
  {
    hide Ascii, FieldOf, Redaction;
    forall field
      ensures FieldOf(RedactTree(hook, key, setup.detector), field) == ShownField(FieldOf(hook, field), field, setup)
    {
      ShownFieldOf(hook, key, field, setup);
    }
  }

  lemma SameHookValue(event: Text, matcher: Option<Text>, x: Value, a: Value, y: Value, b: Value, setup: Setup)
    requires HookBase(event, matcher, x) == HookBase(event, matcher, y)
    requires forall field | field in {Ascii("command"), Ascii("prompt")} ::
               FieldDigest(TextOrNull(FieldOf(x, field)), FieldOf(a, field), setup)
                 == FieldDigest(TextOrNull(FieldOf(y, field)), FieldOf(b, field), setup)
    ensures HookValue(event, matcher, x, a, setup) == HookValue(event, matcher, y, b, setup)
  {
    hide Ascii, HookBase, FieldDigest, TextOrNull, FieldOf, ShaMember;
  }

  // ---- flags ----

  /** Two lists of names look the same exactly when they have the same names. */
  lemma NamesDecide(a: seq<Value>, b: seq<Value>, names: seq<Text>, others: seq<Text>)
    requires Lists(names, a) && Lists(others, b)
    ensures Seen(Obj(map[Ascii("raw") := Arr(a), Ascii("names") := TextList(names)]))
              == Seen(Obj(map[Ascii("raw") := Arr(b), Ascii("names") := TextList(others)]))
       <==> forall s :: Str(s) in a <==> Str(s) in b
  {
    hide Ascii, Seen, TextList, Less;
    NamesAreSeen(Arr(a), names);
    NamesAreSeen(Arr(b), others);
    assert map[Ascii("names") := TextList(names)][Ascii("names")] == TextList(names);
    if TextList(names) == TextList(others) { TextListInjective(names, others); }
    if forall s :: Str(s) in a <==> Str(s) in b {
      forall s ensures s in names <==> s in others { assert Str(s) in a <==> Str(s) in b; }
      SortedListsEqual(names, others);
    }
  }

  lemma NamesAreSeen(raw: Value, names: seq<Text>)
    ensures Seen(Obj(map[Ascii("raw") := raw, Ascii("names") := TextList(names)]))
         == Obj(map[Ascii("names") := TextList(names)])
  {
    ProtoAndRaw();
    assert |Ascii("names")| == 5;
    var m := map[Ascii("raw") := raw, Ascii("names") := TextList(names)];
    assert WithoutRaw(Obj(m)).members == map[Ascii("names") := TextList(names)];
    TextListKept(names);
    assert DropProto(Obj(map[Ascii("names") := TextList(names)])).members == map[Ascii("names") := TextList(names)];
  }

  lemma TextListKept(texts: seq<Text>)
    ensures DropProto(TextList(texts)) == TextList(texts)
  {
    assert DropProto(TextList(texts)).items == TextList(texts).items;
  }

  lemma TextListInjective(a: seq<Text>, b: seq<Text>)
    requires TextList(a) == TextList(b)
    ensures a == b
  {
    assert |a| == |TextList(a).items| == |TextList(b).items| == |b|;
    forall i | 0 <= i < |a| ensures a[i] == b[i] { assert TextList(a).items[i] == TextList(b).items[i]; }
  }

  lemma {:induction false} SortedListsEqual(a: seq<Text>, b: seq<Text>)
    requires Sorting.Increasing(a, Less) && Sorting.Increasing(b, Less) && forall s :: s in a <==> s in b
    ensures a == b
  {
    hide Less;
    Sorting.LessIsStrictTotal();
    assert a != [] ==> a[0] in b;
    assert b != [] ==> b[0] in a;
    if a != [] && b != [] {
      assert a[0] == b[0];
      var x := a[0];
      assert forall s | s in a[1..] :: Less(x, s);
      assert forall s | s in b[1..] :: Less(x, s);
      forall s ensures s in a[1..] <==> s in b[1..] {
        assert s in a <==> s == x || s in a[1..];
        assert s in b <==> s == x || s in b[1..];
      }
      SortedListsEqual(a[1..], b[1..]);
      assert a == [a[0]] + a[1..] && b == [b[0]] + b[1..];
    }
  }

  // ---- credentials ----

  function CredentialValue(patterns: seq<Text>, sha: Text): Value {
    Obj(map[Ascii("note") := Str(Ascii("credential-like value present")), Ascii("patterns") := TextList(patterns),
            Ascii("sha256") := Str(sha)])
  }

  /** Two credentials look the same exactly when patterns and raw texts are the same. */
  lemma CredentialDecides(patterns: seq<Text>, s: Text, others: seq<Text>, t: Text, setup: Setup)
    requires Injective(setup.sha)
    ensures Seen(CredentialValue(patterns, setup.sha(s))) == Seen(CredentialValue(others, setup.sha(t)))
       <==> patterns == others && s == t
  {
    hide Ascii, Seen, TextList;
    CredentialIsSeen(patterns, setup.sha(s));
    CredentialIsSeen(others, setup.sha(t));
    CredentialNames();
    var m, n := CredentialValue(patterns, setup.sha(s)).members, CredentialValue(others, setup.sha(t)).members;
    assert m[Ascii("patterns")] == TextList(patterns) && n[Ascii("patterns")] == TextList(others);
    assert m[Ascii("sha256")] == Str(setup.sha(s)) && n[Ascii("sha256")] == Str(setup.sha(t));
    if m == n { TextListInjective(patterns, others); }
  }

  lemma CredentialNames()
    ensures |Ascii("note")| == 4 && |Ascii("patterns")| == 8 && |Ascii("sha256")| == 6
  {
  }

  lemma CredentialIsSeen(patterns: seq<Text>, sha: Text)
    ensures Seen(CredentialValue(patterns, sha)) == CredentialValue(patterns, sha)
  {
    hide Ascii, TextList;
    ProtoAndRaw();
    CredentialNames();
    TextListKept(patterns);
    var v := CredentialValue(patterns, sha);
    assert WithoutRaw(v) == v;
    assert DropProto(v).members == v.members;
  }

  // ---- between snapshots ----

  /** A settings document has a string at a path. */
  ghost predicate HasText(doc: SourceDocument, path: Path, s: Text) {
    doc.role == SettingsFile && doc.value.Some? && NodeAt(doc.value.value, path) == Some(Str(s))
  }

  /** A changed environment value is reported as a change of its key, and an unchanged one is not. */
  lemma EnvChangesAreReported(
    base: seq<SourceDocument>, head: seq<SourceDocument>, setup: Setup, doc: SourceDocument, other: SourceDocument,
    name: Text, s: Text, t: Text)
    requires forall d | (d in base || d in head) && d.value.Some? :: Printable(d.value.value)
    requires doc in base && HasText(doc, [ENV, Key(name)], s) && other in head && HasText(other, [ENV, Key(name)], t)
    requires Injective(setup.sha)
    requires var b, h := SortEntries(AllEntries(base, setup)), SortEntries(AllEntries(head, setup));
             OncePerSide(b, h, Ascii("env_key:") + name)
    ensures var b, h := SortEntries(AllEntries(base, setup)), SortEntries(AllEntries(head, setup));
            ReportsChange(b, h, Ascii("env_key:") + name) <==> s != t
  {
    hide AllEntries, DocumentItems, Group, Printable, SortEntries, Seen, ReportsChange, NodeAt, Ascii, DigestOf;
    EnvIsAdded(doc.value.value, name, setup);
    EnvIsAdded(other.value.value, name, setup);
    var x := Noted([ENV, Key(name)], Add(EnvKey, Ascii("env_key:") + name, DigestOf(s, setup)));
    var y := Noted([ENV, Key(name)], Add(EnvKey, Ascii("env_key:") + name, DigestOf(t, setup)));
    DigestIs(s, setup);
    DigestIs(t, setup);
    ValuesAreCompared(base, head, setup, doc, other, x, y);
    EnvDecides(s, t, setup);
  }

  lemma DigestIs(s: Text, setup: Setup)
    ensures DigestOf(s, setup)
         == Obj(map[Ascii("redacted") := Bool(true), Ascii("length") := Num(Decimal(|s|)),
                    Ascii("sha256") := Str(setup.sha(s))])
  {
    hide Ascii;
  }

  /** A changed helper command is reported as a change of its key, even if it is shown the same. */
  lemma HelperChangesAreReported(
    base: seq<SourceDocument>, head: seq<SourceDocument>, setup: Setup, doc: SourceDocument, other: SourceDocument,
    name: Text, s: Text, t: Text)
    requires forall d | (d in base || d in head) && d.value.Some? :: Printable(d.value.value)
    requires name in HELPERS && Injective(setup.sha)
    requires doc in base && HasText(doc, [Key(name)], s) && other in head && HasText(other, [Key(name)], t)
    requires var b, h := SortEntries(AllEntries(base, setup)), SortEntries(AllEntries(head, setup));
             OncePerSide(b, h, Ascii("helper:") + name)
    ensures var b, h := SortEntries(AllEntries(base, setup)), SortEntries(AllEntries(head, setup));
            ReportsChange(b, h, Ascii("helper:") + name) <==> s != t
  {
    hide AllEntries, DocumentItems, Group, Printable, SortEntries, Seen, ReportsChange, NodeAt, Ascii, ShownAt, RedactTree;
    HelperIsAdded(doc.value.value, name, setup);
    HelperIsAdded(other.value.value, name, setup);
    ShownIs(doc.value.value, setup, [Key(name)]);
    ShownIs(other.value.value, setup, [Key(name)]);
    var key := KeyAt([Key(name)], None);
    var x := Noted([Key(name)], Add(Helper, Ascii("helper:") + name, HelperValue(s, key, setup)));
    var y := Noted([Key(name)], Add(Helper, Ascii("helper:") + name, HelperValue(t, key, setup)));
    ValuesAreCompared(base, head, setup, doc, other, x, y);
    HelperDecides(s, t, key, setup);
  }

  /** A change of a member named raw alone is not seen: the two entries differ and give no delta. */
  lemma RawMemberIsMissed(key: Text, file: Text)
    ensures var v, w := Obj(map[RAW := Bool(true)]), Obj(map[RAW := Bool(false)]);
            var base := Entry(Sandbox, key, v, file, None, None, None);
            var head := base.(value := w);
            base.value != head.value && PairHooks(KeyedDeltas([base], [head])) == []
  {
    hide KeyedDeltas, PairHooks;
    var v, w := Obj(map[RAW := Bool(true)]), Obj(map[RAW := Bool(false)]);
    var base := Entry(Sandbox, key, v, file, None, None, None);
    var head := base.(value := w);
    assert v.members[RAW] != w.members[RAW];
    assert v.members - {RAW} == map[] == w.members - {RAW};
    assert WithoutRaw(v) == WithoutRaw(w);
    assert Look(base) == Look(head);
    assert Printable(Bool(true)) && Printable(Bool(false));
    assert Printable(v) && Printable(w);
    assert forall e | e in [base] :: e == base;
    assert forall e | e in [head] :: e == head;
    UnseenChangesGiveNoDeltas([base], [head]);
  }
}
