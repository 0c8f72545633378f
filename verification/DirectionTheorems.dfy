/** What reversing a comparison does to directions, and what a changed MCP server is classified as. */
module DirectionTheorems {
  import opened Texts
  import opened Json
  import opened Pointers
  import opened Canonical
  import opened RoundTrip
  import opened Stable
  import opened Entries
  import opened Signatures
  import opened Diff
  import opened DiffTheorems
  import opened Redact
  import opened Extraction
  import opened McpTheorems
  import opened Direction

  function FlipChange(c: Change): Change {
    match c
    case Added => Removed
    case Removed => Added
    case _ => c
  }

  function Flip(way: Way): Way {
    match way
    case Widens => Narrows
    case Narrows => Widens
    case _ => way
  }

  /** The same delta seen from the other side. */
  function Reverse(d: RawDelta): RawDelta {
    RawDelta(d.key, d.kind, FlipChange(d.change), d.head, d.base)
  }

  /** Entries under one key are of one kind, as extraction makes them. */
  ghost predicate OneKind(es: seq<Entry>, key: Text, kind: Kind) {
    forall e | e in es && e.key == key :: e.kind == kind
  }

  // ---- reversing the comparison ----

  /** The delta of a key, compared the other way round, is the reversed delta. */
  lemma KeyDeltaReverses(key: Text, kind: Kind, base: seq<Entry>, head: seq<Entry>)
    requires OneKind(base, key, kind) && OneKind(head, key, kind)
    ensures var d, r := KeyDelta(key, Group(base, key), Group(head, key)),
      KeyDelta(key, Group(head, key), Group(base, key));
            r == if d.None? then None else Some(Reverse(d.value))
  {
    hide Group, Signature, ValueSignature;
    GroupFacts(base, key);
    GroupFacts(head, key);
    var b, h := Group(base, key), Group(head, key);
    if b != [] { assert b[0] in b; }
    if h != [] { assert h[0] in h; }
  }

  lemma {:induction false} HooklessUnpaired(ds: seq<RawDelta>, d: RawDelta)
    requires d.kind != Hook
    ensures d in PairHooks(ds) <==> d in ds
  {
    hide PairId, Sharing, PairedId, Merge;
    UnpairedMembers(ds, ds, d);
    MergedMembers(Ids(ds), ds, d);
    forall id | id in Ids(ds) && PairedId(ds, id) ensures Merge(ds, id).kind == Hook { MergesAreHooks(ds, id); }
  }

  lemma MergesAreHooks(ds: seq<RawDelta>, id: Text)
    requires PairedId(ds, id)
    ensures Merge(ds, id).kind == Hook
  {
    hide TheRemoved, TheAdded, PairedId;
  }

  /** Apart from hooks, the deltas of the reversed comparison are the reversed deltas. */
  lemma DeltasReverse(base: seq<Entry>, head: seq<Entry>, d: RawDelta)
    requires d.kind != Hook && OneKind(base, d.key, d.kind) && OneKind(head, d.key, d.kind)
    ensures d in PairHooks(KeyedDeltas(base, head)) <==> Reverse(d) in PairHooks(KeyedDeltas(head, base))
  {
    hide KeyDelta, Group, KeySet, KeyedDeltas, PairHooks;
    HooklessUnpaired(KeyedDeltas(base, head), d);
    HooklessUnpaired(KeyedDeltas(head, base), Reverse(d));
    KeyedDeltasFacts(base, head);
    KeyedDeltasFacts(head, base);
    KeyDeltaReverses(d.key, d.kind, base, head);
    assert KeySet(base) + KeySet(head) == KeySet(head) + KeySet(base);
    ReverseTwice(d);
  }

  lemma ReverseTwice(d: RawDelta)
    ensures Reverse(Reverse(d)) == d
    ensures forall e: RawDelta :: Reverse(e) == Reverse(d) ==> e == d
  {
    forall e: RawDelta | Reverse(e) == Reverse(d) ensures e == d {
      assert e.key == Reverse(e).key && e.kind == Reverse(e).kind && e.base == Reverse(e).head && e.head
        == Reverse(e).base;
      assert e.change == FlipChange(Reverse(e).change);
    }
  }

  /** A delta has the entries that its change calls for, under its key unless it is a hook's. */
  predicate WellSided(d: RawDelta) {
    && (d.change == Added ==> d.base.None? && d.head.Some?)
    && (d.change == Removed ==> d.base.Some? && d.head.None?)
    && (d.change == Changed || d.change == Moved ==> d.base.Some? && d.head.Some?)
    && (d.kind != Hook ==>
          && (d.base.Some? ==> d.base.value.key == d.key) && (d.head.Some? ==> d.head.value.key == d.key))
  }

  /** Both sides have booleans, and the same one. */
  predicate SameFlag(d: RawDelta) {
    BoolOf(d.base).Some? && BoolOf(d.base) == BoolOf(d.head)
  }

  predicate IsBooleanFlag(d: RawDelta) {
    d.kind == PluginFlag
    && d.key in {Ascii("plugin_flag:enableAllProjectMcpServers"), Ascii("plugin_flag:disableAllHooks")}
  }

  predicate Reversible(d: RawDelta) {
    d.kind == Perm || d.kind == Dir || d.kind == Mode || d.kind == PluginFlag
  }

  /**
   * Reversing flips widens and narrows for permissions, directories, modes and flags; for a changed boolean flag this
   * holds exactly when the two booleans differ.
   */
  lemma ReversalFlips(d: RawDelta, sensitive: Sensitive)
    requires WellSided(d) && Reversible(d)
    ensures WayOf(Classify(Reverse(d), sensitive)) == Flip(WayOf(Classify(d, sensitive)))
       <==> !(IsBooleanFlag(d) && d.change == Changed && SameFlag(d))
  {
    hide ClassifyPerm, ClassifyMode, ClassifyPluginFlag, ClassifyMcp, ClassifyHook, ClassifyEnv, ListOf, BoolOf, Ascii;
    match d.kind
    case Perm =>
      PermFlips(d.change, if d.head.Some? then ListOf(d.head.value.key) else if d.base.Some? then ListOf(d.base.value.key) else None);
    case Dir =>
    case Mode => ModeFlips(d.change, d.base, d.head);
    case PluginFlag => if d.change != Moved { PluginFlagFlips(d); }
  }

  lemma PermFlips(change: Change, list: Option<Text>)
    ensures WayOf(ClassifyPerm(FlipChange(change), list)) == Flip(WayOf(ClassifyPerm(change, list)))
  {
    hide Ascii;
  }

  const ENABLE_ALL: Text := Ascii("plugin_flag:enableAllProjectMcpServers")
  const DISABLE_HOOKS: Text := Ascii("plugin_flag:disableAllHooks")

  lemma PluginFlagFlips(d: RawDelta)
    requires WellSided(d) && d.kind == PluginFlag && d.change != Moved
    ensures WayOf(ClassifyPluginFlag(FlipChange(d.change), d.key, d.head, d.base))
              == Flip(WayOf(ClassifyPluginFlag(d.change, d.key, d.base, d.head)))
       <==> !(IsBooleanFlag(d) && d.change == Changed && SameFlag(d))
  {
    hide ClassifyFlag, ClassifyPluginFlag, BoolOf, Ascii, WayOf;
    FlagNamesDiffer();
    FlagRules();
    ByFlag(d.change, d.key, d.base, d.head);
    ByFlag(FlipChange(d.change), d.key, d.head, d.base);
    if d.key == ENABLE_ALL {
      FlagFlips(d.change, d.base, d.head, EnableAllMcp, EnableAllMcpOff);
    } else if d.key == DISABLE_HOOKS {
      FlagFlips(d.change, d.base, d.head, HooksDisabled, HooksReenabled);
    }
  }

  lemma FlagRules()
    ensures WayOf(EnableAllMcp) == Widens && WayOf(EnableAllMcpOff) == Narrows
    ensures WayOf(HooksDisabled) == Narrows && WayOf(HooksReenabled) == Widens && WayOf(NoRule) == Undirected
  {
  }

  /** The rule of a flag delta, by its key. */
  lemma ByFlag(change: Change, key: Text, base: Option<Entry>, head: Option<Entry>)
    ensures ClassifyPluginFlag(change, key, base, head)
         == if key == ENABLE_ALL then ClassifyFlag(change, base, head, EnableAllMcp, EnableAllMcpOff)
            else if key == DISABLE_HOOKS then ClassifyFlag(change, base, head, HooksDisabled, HooksReenabled)
            else NoRule
  {
    hide Ascii, ClassifyFlag;
  }

  lemma FlagNamesDiffer()
    ensures Ascii("plugin_flag:enableAllProjectMcpServers") != Ascii("plugin_flag:disableAllHooks")
  {
    assert |Ascii("plugin_flag:enableAllProjectMcpServers")| == 38 && |Ascii("plugin_flag:disableAllHooks")| == 27;
  }

  lemma ModeFlips(change: Change, base: Option<Entry>, head: Option<Entry>)
    requires change == Added ==> base.None? && head.Some?
    requires change == Removed ==> base.Some? && head.None?
    ensures WayOf(ClassifyMode(FlipChange(change), head, base)) == Flip(WayOf(ClassifyMode(change, base, head)))
  {
    hide Ascii, RawOf;
  }

  lemma FlagFlips(change: Change, base: Option<Entry>, head: Option<Entry>, onTrue: Rule, offTrue: Rule)
    requires change == Added ==> base.None? && head.Some?
    requires change == Removed ==> base.Some? && head.None?
    requires change == Changed ==> base.Some? && head.Some?
    requires change != Moved
    requires WayOf(onTrue) in {Widens, Narrows} && WayOf(offTrue) == Flip(WayOf(onTrue))
    ensures WayOf(ClassifyFlag(FlipChange(change), head, base, onTrue, offTrue))
              == Flip(WayOf(ClassifyFlag(change, base, head, onTrue, offTrue)))
       <==> !(change == Changed && BoolOf(base).Some? && BoolOf(base) == BoolOf(head))
  {
  }

  /** A boolean flag that occurs once per side and changed has different booleans. */
  lemma ChangedFlagsDiffer(key: Text, base: seq<Entry>, head: seq<Entry>)
    requires PrintableEntries(base) && PrintableEntries(head)
    requires |Group(base, key)| == 1 && |Group(head, key)| == 1
    requires var d := KeyDelta(key, Group(base, key), Group(head, key)); d.Some? && d.value.change == Changed
    requires OneKind(base, key, PluginFlag) && OneKind(head, key, PluginFlag)
    ensures !SameFlag(KeyDelta(key, Group(base, key), Group(head, key)).value)
  {
    hide KeyDelta, Group, DropProto;
    var b, h := Group(base, key), Group(head, key);
    var d := KeyDelta(key, b, h).value;
    GroupFacts(base, key);
    GroupFacts(head, key);
    KeyDeltaIff(key, base, head);
    assert b[0] in b && h[0] in h;
    var x, y := b[0], h[0];
    assert VisibleValues(b) == [Unplaced(Visible(x))] && VisibleValues(h) == [Unplaced(Visible(y))];
    SameBooleansLookSame(x, y);
  }

  lemma SameBooleansLookSame(x: Entry, y: Entry)
    requires x.kind == y.kind && x.key == y.key
    ensures BoolOf(Some(x)).Some? && BoolOf(Some(x)) == BoolOf(Some(y)) ==> Unplaced(Visible(x)) == Unplaced(Visible(y))
  {
    assert BoolOf(Some(x)).Some? && BoolOf(Some(x)) == BoolOf(Some(y)) ==> x.value == y.value;
  }

  /** Flags that occur several times on a side can widen both ways: only the first entry of each side is classified. */
  lemma RepeatedFlagWidensBothWays(sensitive: Sensitive)
    ensures var key := Ascii("plugin_flag:enableAllProjectMcpServers");
            var on := Entry(PluginFlag, key, Bool(true), Ascii("a"), None, None, None);
            var off := Entry(PluginFlag, key, Bool(false), Ascii("b"), None, None, None);
            var there := KeyDelta(key, Group([on], key), Group([on, off], key));
            var back := KeyDelta(key, Group([on, off], key), Group([on], key));
            && there.Some? && back.Some?
            && WayOf(Classify(there.value, sensitive)) == Widens == WayOf(Classify(back.value, sensitive))
  {
    hide KeyDelta, Group, Classify, Visible, Ascii;
    var key := Ascii("plugin_flag:enableAllProjectMcpServers");
    var on := Entry(PluginFlag, key, Bool(true), Ascii("a"), None, None, None);
    var off := Entry(PluginFlag, key, Bool(false), Ascii("b"), None, None, None);
    assert Printable(Bool(true)) && Printable(Bool(false));
    assert forall e | e in [on] :: e == on;
    assert forall e | e in [on, off] :: e == on || e == off;
    RepeatedGroups(key, on, off);
    KeyDeltaIff(key, [on], [on, off]);
    KeyDeltaIff(key, [on, off], [on]);
    assert |VisibleAll([on])| != |VisibleAll([on, off])|;
    assert |VisibleValues([on])| == |multiset(VisibleValues([on]))| && |VisibleValues([on, off])|
      == |multiset(VisibleValues([on, off]))|;
    KeyDeltaKind(key, [on], [on, off]);
    KeyDeltaKind(key, [on, off], [on]);
    OnIsWidening(KeyDelta(key, [on], [on, off]).value, sensitive);
    OnIsWidening(KeyDelta(key, [on, off], [on]).value, sensitive);
  }

  lemma KeyDeltaKind(key: Text, base: seq<Entry>, head: seq<Entry>)
    requires head != []
    ensures var d := KeyDelta(key, base, head); d.Some? ==> d.value.kind == head[0].kind && d.value.key == key
  {
    hide Signature, ValueSignature;
  }

  lemma OnIsWidening(d: RawDelta, sensitive: Sensitive)
    requires d.kind == PluginFlag && d.key == Ascii("plugin_flag:enableAllProjectMcpServers") && d.change == Changed
    requires BoolOf(d.base).Some? && BoolOf(d.head) == Some(true)
    ensures WayOf(Classify(d, sensitive)) == Widens
  {
    hide Ascii;
  }

  lemma RepeatedGroups(key: Text, on: Entry, off: Entry)
    requires on.key == key == off.key && on.file == Ascii("a") && off.file == Ascii("b")
    ensures Group([on], key) == [on] && Group([on, off], key) == [on, off]
  {
    assert [on][..0] == [] && [on, off][..1] == [on];
    assert Ascii("a")[0] < Ascii("b")[0] && |Ascii("a")| == 1 == |Ascii("b")|;
    assert SortEntries([on]) == [on] by { assert SortEntries([]) == []; }
    assert !EntryBefore(off, on);
    assert Insert([on], off, EntryBefore) == [on] + Insert([], off, EntryBefore) by { assert [on][1..] == []; }
    assert SortEntries([on, off]) == [on, off];
    assert [on, off][1..] == [off] && [off][1..] == [] && [on][1..] == [];
    assert GroupOf([off], key) == [off] + GroupOf([], key);
    assert GroupOf([on], key) == [on] + GroupOf([], key);
  }

  // ---- MCP servers ----

  /** Values that an entry shows for a text or a list of texts. */
  predicate Simple(v: Value) { v.Null? || v.Str? || AllStrings(v) }

  lemma SimplePrintsDiffer(v: Value, w: Value)
    requires Simple(v) && Simple(w) && v != w
    ensures Print(v, None) != Print(w, None)
  {
    if Print(v, None) == Print(w, None) { StringifyInjective(v, w); }
  }

  lemma ShownIsSimple(raw: Option<Value>, field: Text, setup: Setup)
    ensures Simple(TextOrNull(ShownField(raw, field, setup))) && Simple(ArgList(ShownField(raw, field, setup)))
  {
    hide RedactTree;
  }

  /** A field or its digest that differs is a changed field. */
  lemma DifferenceShows(base: Entry, head: Entry, f: McpFields, g: McpFields, field: Text)
    requires base.value == McpValue(f) && head.value == McpValue(g) && field in McpBase(f) && field in McpBase(g)
    requires Simple(McpBase(f)[field]) && Simple(McpBase(g)[field]) && field in {Ascii("command"), Ascii("args"),
      Ascii("url")}
    requires McpBase(f)[field] != McpBase(g)[field]
          || ShaOf(base.value.members, field) != ShaOf(head.value.members, field)
    ensures field in ChangedFields(base, head) || ShaName(field) in ChangedFields(base, head)
  {
    hide Print, McpValue, McpBase, Ascii, Simple, ShaName;
    McpMembersRead(f);
    McpMembersRead(g);
    ShaNamesApart(f);
    ShaNamesApart(g);
    var m, n := base.value.members, head.value.members;
    if McpBase(f)[field] != McpBase(g)[field] {
      SimplePrintsDiffer(m[field], n[field]);
    } else {
      var sha := ShaName(field);
      ShaMemberIs(base, f, field);
      ShaMemberIs(head, g, field);
      SimplePrintsDiffer(MemberOf(base, sha), MemberOf(head, sha));
    }
  }

  lemma ShaMemberIs(e: Entry, f: McpFields, field: Text)
    requires e.value == McpValue(f) && field in {Ascii("command"), Ascii("args"), Ascii("url")}
    ensures MemberOf(e, ShaName(field)) == Nullable(ShaOf(e.value.members, field))
      && Simple(MemberOf(e, ShaName(field)))
    ensures ShaOf(e.value.members, field).Some? ==> ShaName(field) in NamesOf(e)
  {
    hide McpValue, McpBase, Ascii, ShaName;
    McpMembersRead(f);
    ShaNamesApart(f);
  }

  /** Any change of a well-typed server's raw command, args or url is classified as a proven widening. */
  lemma TransportChangesWiden(
    name: Text, a: Value, b: Value, key: Option<Text>, setup: Setup, d: RawDelta, sensitive: Sensitive)
    requires WellTyped(a) && WellTyped(b) && Injective(setup.sha)
    requires d.kind == Mcp && d.change == Changed && d.base.Some? && d.head.Some?
    requires d.base.value.value == ServerValue(name, a, key, setup) && d.head.value.value == ServerValue(name, b, key, setup)
    requires exists field :: field in {Ascii("command"), Ascii("args"), Ascii("url")} && FieldOf(a, field) != FieldOf(b, field)
    ensures Classify(d, sensitive) == McpChanged && WayOf(McpChanged) == Widens && TierOf(McpChanged) == Proven
  {
    hide McpValue, McpBase, RedactTree, Transport, Extra, ChangedFields, Ascii, ShaName, FieldOf, IsTextMap,
         DigestMap, FieldDigest, SensitiveValues, OtherValues, McpFieldsOf;
    var base, head := d.base.value, d.head.value;
    ShownObject(a, key, setup);
    ShownObject(b, key, setup);
    var field :| field in {Ascii("command"), Ascii("args"), Ascii("url")} && FieldOf(a, field) != FieldOf(b, field);
    RawDifferenceShows(name, a, b, key, setup, base, head, field);
    TransportField(base, head, field);
  }

  lemma TransportField(base: Entry, head: Entry, field: Text)
    requires field in {Ascii("command"), Ascii("args"), Ascii("url")}
    requires field in ChangedFields(base, head) || ShaName(field) in ChangedFields(base, head)
    ensures ChangedFields(base, head) * TRANSPORT_FIELDS != {}
  {
    hide ChangedFields, Ascii, ShaName;
    var x := if field in ChangedFields(base, head) then field else ShaName(field);
    assert x in ChangedFields(base, head) * TRANSPORT_FIELDS;
  }

  lemma RawDifferenceShows(
    name: Text, a: Value, b: Value, key: Option<Text>, setup: Setup, base: Entry, head: Entry, field: Text)
    requires WellTyped(a) && WellTyped(b) && Injective(setup.sha)
    requires base.value == ServerValue(name, a, key, setup) && head.value == ServerValue(name, b, key, setup)
    requires field in {Ascii("command"), Ascii("args"), Ascii("url")} && FieldOf(a, field) != FieldOf(b, field)
    ensures field in ChangedFields(base, head) || ShaName(field) in ChangedFields(base, head)
  {
    hide McpValue, RedactTree, Transport, Extra, ChangedFields, Ascii, ShaName, FieldOf, IsTextMap, DigestMap,
         FieldDigest, McpBase, AllStrings;
    ShownObject(a, key, setup);
    ShownObject(b, key, setup);
    var f := McpFieldsOf(name, RedactTree(a, key, setup.detector), a, setup);
    var g := McpFieldsOf(name, RedactTree(b, key, setup.detector), b, setup);
    ShownFieldOf(a, key, field, setup);
    ShownFieldOf(b, key, field, setup);
    McpBaseRead(f);
    McpBaseRead(g);
    McpMembersRead(f);
    McpMembersRead(g);
    ShownIsSimple(FieldOf(a, field), field, setup);
    ShownIsSimple(FieldOf(b, field), field, setup);
    if field == Ascii("args") {
      ArgsDecide(FieldOf(a, field), FieldOf(b, field), field, setup);
    } else {
      ShownDecides(FieldOf(a, field), FieldOf(b, field), field, setup);
    }
    DifferenceShows(base, head, f, g, field);
  }
}
