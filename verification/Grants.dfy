/** The direction table against a measure of what an entry grants: a delta widens exactly when the head grants more. */
module Grants {
  import opened Texts
  import opened Json
  import opened Pointers
  import opened Canonical
  import opened RoundTrip
  import opened Entries
  import opened Signatures
  import opened Diff
  import opened DiffTheorems
  import opened Walks
  import opened Extraction
  import opened Extractor
  import opened SnapshotTheorems
  import opened RuleTheorems
  import opened Direction
  import opened DirectionTheorems
  import opened Reversal

  /** One more, one less or nothing granted; None for what has no place in the table. */
  function Worth(e: Entry): Option<int> {
    match e.kind
    case Perm =>
      if Ascii("perm:allow:") <= e.key then Some(1)
      else if Ascii("perm:ask:") <= e.key then Some(0)
      else if Ascii("perm:deny:") <= e.key then Some(-1)
      else None
    case Hook => Some(1)
    case Mcp => Some(1)
    case Dir => Some(1)
    case Mode => if e.key == Ascii("mode:defaultMode") then ModeWorth(Below(e.value, Key(RAW))) else None
    case PluginFlag =>
      if !e.value.Bool? then None
      else if e.key == Ascii("plugin_flag:enableAllProjectMcpServers") then Some(if e.value.b then 1 else 0)
      else if e.key == Ascii("plugin_flag:disableAllHooks") then Some(if e.value.b then -1 else 0)
      else None
    case _ => None
  }

  function ModeWorth(mode: Option<Value>): Option<int> {
    match mode
    case Some(Str(s)) =>
      if s == Ascii("bypassPermissions") || s == Ascii("auto") || s == Ascii("dontAsk") then Some(1)
      else if s == Ascii("acceptEdits") || s == Ascii("plan") || s == Ascii("default") then Some(0)
      else None
    case _ => None
  }

  /** A missing entry grants nothing. */
  function WorthOf(side: Option<Entry>): Option<int> {
    if side.None? then Some(0) else Worth(side.value)
  }

  /** The way from one worth to another. */
  function WayTo(base: int, head: int): Way {
    if head > base then Widens else if head < base then Narrows else Neutral
  }

  /** The entries of a delta are of its kind. */
  predicate KindSided(d: RawDelta) {
    (d.base.Some? ==> d.base.value.kind == d.kind) && (d.head.Some? ==> d.head.value.kind == d.kind)
  }

  /** The deltas that the measure is about: what came or went, and changed modes and flags. */
  predicate Measurable(d: RawDelta) {
    d.kind in {Perm, Hook, Mcp, Dir, Mode, PluginFlag}
    && (d.change in {Added, Removed} || (d.change == Changed && d.kind in {Mode, PluginFlag}))
  }

  /** A flag that changed although the two entries at hand grant the same. */
  predicate EqualFlags(d: RawDelta) {
    d.kind == PluginFlag && d.change == Changed && WorthOf(d.base).Some? && WorthOf(d.base) == WorthOf(d.head)
  }

  /** The direction is that of the worth, and there is none where a worth is missing. */
  lemma WayFollowsWorth(d: RawDelta, sensitive: Sensitive)
    requires WellSided(d) && KindSided(d) && Measurable(d)
    ensures var way := WayOf(Classify(d, sensitive));
            if WorthOf(d.base).None? || WorthOf(d.head).None? then way == Undirected
            else if EqualFlags(d) then way in {Widens, Narrows}
            else way == WayTo(WorthOf(d.base).value, WorthOf(d.head).value)
  {
    hide Ascii, ClassifyPerm, ClassifyMode, ClassifyPluginFlag, ClassifyHook, ClassifyMcp, ClassifyEnv, WayOf, ListOf,
         ModeWorth;
    match d.kind
    case Perm => PermWay(d, sensitive);
    case Hook => SimpleWays();
    case Mcp => SimpleWays();
    case Dir => SimpleWays();
    case Mode => if d.key == Ascii("mode:defaultMode") { ModeWay(d); } else { SimpleWays(); }
    case PluginFlag => FlagWay(d);
  }

  lemma SimpleWays()
    ensures WayOf(HookAdded) == Widens == WayOf(McpAdded) == WayOf(DirAdded)
    ensures WayOf(HookRemoved) == Narrows == WayOf(McpRemoved) == WayOf(DirRemoved)
    ensures WayOf(NoRule) == Undirected && WayOf(MovedOnly) == Neutral
    ensures forall base, head ::
              ClassifyHook(Added, base, head) == HookAdded && ClassifyHook(Removed, base, head) == HookRemoved
    ensures forall base, head, sensitive ::
              && ClassifyMcp(Added, base, head, sensitive) == McpAdded
              && ClassifyMcp(Removed, base, head, sensitive) == McpRemoved
  {
  }

  lemma ListPrefixes()
    ensures |Ascii("perm:allow:")| == 11 && |Ascii("perm:ask:")| == 9 && |Ascii("perm:deny:")| == 10
    ensures |Ascii("allow")| == 5 && |Ascii("ask")| == 3 && |Ascii("deny")| == 4
  {
  }

  lemma PermWay(d: RawDelta, sensitive: Sensitive)
    requires WellSided(d) && KindSided(d) && d.kind == Perm && d.change in {Added, Removed}
    ensures var way := WayOf(Classify(d, sensitive));
            if WorthOf(d.base).None? || WorthOf(d.head).None? then way == Undirected
            else way == WayTo(WorthOf(d.base).value, WorthOf(d.head).value)
  {
    hide Ascii;
    ListPrefixes();
  }

  lemma ModeWay(d: RawDelta)
    requires WellSided(d) && KindSided(d) && d.kind == Mode && d.key == Ascii("mode:defaultMode") && d.change != Moved
    ensures var way := WayOf(ClassifyMode(d.change, d.base, d.head));
            if WorthOf(d.base).None? || WorthOf(d.head).None? then way == Undirected
            else way == WayTo(WorthOf(d.base).value, WorthOf(d.head).value)
  {
    hide Ascii;
    ModeClasses(d.base);
    ModeClasses(d.head);
    hide Worth, ClassOfMode;
  }

  lemma ModeClasses(side: Option<Entry>)
    requires side.Some? ==> side.value.kind == Mode && side.value.key == Ascii("mode:defaultMode")
    ensures WorthOf(side)
         == match ClassOfMode(side)
            case Absent => Some(0)
            case WideningMode => Some(1)
            case NonWideningMode => Some(0)
            case UnknownMode => None
  {
    hide Ascii;
  }

  lemma FlagWay(d: RawDelta)
    requires WellSided(d) && KindSided(d) && d.kind == PluginFlag && d.change != Moved
    ensures var way := WayOf(ClassifyPluginFlag(d.change, d.key, d.base, d.head));
            if WorthOf(d.base).None? || WorthOf(d.head).None? then way == Undirected
            else if EqualFlags(d) then way in {Widens, Narrows}
            else way == WayTo(WorthOf(d.base).value, WorthOf(d.head).value)
  {
    hide Ascii, ClassifyFlag, Worth, WayOf, ClassifyPluginFlag;
    FlagNamesDiffer();
    FlagRules();
    FlagWorths(d.key, d.base);
    FlagWorths(d.key, d.head);
    ByFlag(d.change, d.key, d.base, d.head);
    if d.key == ENABLE_ALL {
      OneFlagWay(d.change, d.base, d.head, EnableAllMcp, EnableAllMcpOff, 1);
    } else if d.key == DISABLE_HOOKS {
      OneFlagWay(d.change, d.base, d.head, HooksDisabled, HooksReenabled, -1);
    }
  }

  /** What a flag's truth grants; nothing for a missing flag, and no measure for one that is no boolean. */
  function FlagWorth(side: Option<Entry>, sign: int): Option<int> {
    if side.None? then Some(0)
    else if !side.value.value.Bool? then None
    else Some(if side.value.value.b then sign else 0)
  }

  lemma FlagWorths(key: Text, side: Option<Entry>)
    requires side.Some? ==> side.value.kind == PluginFlag && side.value.key == key
    ensures key == ENABLE_ALL ==> WorthOf(side) == FlagWorth(side, 1)
    ensures key == DISABLE_HOOKS ==> WorthOf(side) == FlagWorth(side, -1)
    ensures key != ENABLE_ALL && key != DISABLE_HOOKS && side.Some? ==> WorthOf(side).None?
  {
    hide Ascii;
    FlagNamesDiffer();
  }

  lemma OneFlagWay(
    change: Change, base: Option<Entry>, head: Option<Entry>,
    onTrue: Direction.Rule, offTrue: Direction.Rule, sign: int)
    requires change == Added ==> base.None? && head.Some?
    requires change == Removed ==> base.Some? && head.None?
    requires change == Changed ==> base.Some? && head.Some?
    requires change != Moved && (sign == 1 || sign == -1)
    requires WayOf(onTrue) == WayTo(0, sign) && WayOf(offTrue) == WayTo(sign, 0)
    ensures var way := WayOf(ClassifyFlag(change, base, head, onTrue, offTrue));
            var b, h := FlagWorth(base, sign), FlagWorth(head, sign);
            if b.None? || h.None? then way == Undirected
            else if change == Changed && b == h then way in {Widens, Narrows}
            else way == WayTo(b.value, h.value)
  {
  }

  // ---- between extracted snapshots ----

  lemma SidesAreEntries(base: seq<Entry>, head: seq<Entry>, d: RawDelta)
    requires d in KeyedDeltas(base, head)
    ensures d.base.Some? ==> d.base.value in base && d.base.value.key == d.key
    ensures d.head.Some? ==> d.head.value in head && d.head.value.key == d.key
  {
    hide Group, Signature, ValueSignature, KeyedDeltas, KeySet;
    KeyedDeltasFacts(base, head);
    GroupFacts(base, d.key);
    GroupFacts(head, d.key);
  }

  /** Every such delta of two extracted snapshots goes the way of the worth. */
  lemma DirectionsFollowGrants(
    base: seq<SourceDocument>, head: seq<SourceDocument>, setup: Setup, d: RawDelta, sensitive: Sensitive)
    requires forall doc | (doc in base || doc in head) && doc.value.Some? :: Printable(doc.value.value)
    requires var b, h := SortEntries(AllEntries(base, setup)), SortEntries(AllEntries(head, setup));
             d in PairHooks(KeyedDeltas(b, h)) && Measurable(d)
    ensures var way := WayOf(Classify(d, sensitive));
            if WorthOf(d.base).None? || WorthOf(d.head).None? then way == Undirected
            else if EqualFlags(d) then way in {Widens, Narrows}
            else way == WayTo(WorthOf(d.base).value, WorthOf(d.head).value)
    ensures var b, h := SortEntries(AllEntries(base, setup)), SortEntries(AllEntries(head, setup));
            EqualFlags(d) ==> !OncePerSide(b, h, d.key)
  {
    hide AllEntries, KeyedDeltas, PairHooks, Classify, SortEntries, Printable, Worth, KindPrefix, Group, IsBooleanFlag,
         SameFlag, KeyDelta;
    var b, h := SortEntries(AllEntries(base, setup)), SortEntries(AllEntries(head, setup));
    ExtractedKeys(base, setup);
    ExtractedKeys(head, setup);
    NotMerged(KeyedDeltas(b, h), d);
    DeltasHaveOneKind(b, h, d);
    SidesAreEntries(b, h, d);
    ResultsAreSided(b, h, d);
    WayFollowsWorth(d, sensitive);
    if EqualFlags(d) {
      EqualFlagsAreSame(d);
      ReversedComparison(base, head, setup, d, sensitive);
    }
  }

  /** Merged hooks are changes, so what is measurable is a keyed delta. */
  lemma NotMerged(ds: seq<RawDelta>, d: RawDelta)
    requires d in PairHooks(ds) && !(d.kind == Hook && d.change == Changed)
    ensures d in ds
  {
    hide PairId, Sharing, PairedId, TheRemoved, TheAdded;
    UnpairedMembers(ds, ds, d);
    MergedMembers(Ids(ds), ds, d);
  }

  lemma EqualFlagsAreSame(d: RawDelta)
    requires WellSided(d) && KindSided(d) && EqualFlags(d)
    ensures IsBooleanFlag(d) && SameFlag(d)
  {
    hide Ascii;
    FlagNamesDiffer();
  }

  // ---- all other deltas ----

  /** A member of an entry's value, with null for none. */
  function Read(e: Entry, name: Text): Value {
    match Below(e.value, Key(name))
    case Some(v) => v
    case None => Null
  }

  /** One of the seven members that describe a server's transport differs. */
  ghost predicate TransportDiffers(b: Entry, h: Entry) {
    exists name :: Read(b, name) != Read(h, name)
      && name in {Ascii("transport"), Ascii("command"), Ascii("args"), Ascii("url"), Ascii("command_sha256"),
                  Ascii("args_sha256"), Ascii("url_sha256")}
  }

  /** The digest of an environment value. */
  function EnvDigest(e: Entry, name: Text): Option<Value> {
    match NodeAt(e.value, [Key(Ascii("env")), Key(name), Key(Ascii("sha256"))])
    case Some(Str(s)) => Some(Str(s))
    case _ => None
  }

  /** A sensitive value of the head is new or not what it was. */
  ghost predicate SensitiveDiffers(b: Entry, h: Entry, sensitive: Sensitive) {
    exists name :: sensitive(name) && EnvDigest(h, name).Some? && EnvDigest(b, name) != EnvDigest(h, name)
  }

  lemma FieldsDiffer(b: Entry, h: Entry)
    requires Printable(b.value) && Printable(h.value)
    ensures TransportDiffers(b, h) <==> ChangedFields(b, h) * TRANSPORT_FIELDS != {}
  {
    hide Ascii, Print, ChangedFields;
    TransportNames();
    forall name | name in TRANSPORT_FIELDS ensures Read(b, name) != Read(h, name) <==> name in ChangedFields(b, h) {
      FieldDiffers(b, h, name);
    }
    if TransportDiffers(b, h) {
      var name :| Read(b, name) != Read(h, name) && name in TRANSPORT_FIELDS;
      assert name in ChangedFields(b, h) * TRANSPORT_FIELDS;
    }
    if ChangedFields(b, h) * TRANSPORT_FIELDS != {} {
      var name :| name in ChangedFields(b, h) * TRANSPORT_FIELDS;
      assert Read(b, name) != Read(h, name);
    }
  }

  lemma TransportNames()
    ensures TRANSPORT_FIELDS == {Ascii("transport"), Ascii("command"), Ascii("args"), Ascii("url"),
                                 Ascii("command_sha256"), Ascii("args_sha256"), Ascii("url_sha256")}
    ensures RAW !in TRANSPORT_FIELDS
  {
    hide Ascii;
    AsciiConcat("command", "_sha256");
    AsciiConcat("args", "_sha256");
    AsciiConcat("url", "_sha256");
    assert "command" + "_sha256" == "command_sha256" && "args" + "_sha256" == "args_sha256";
    assert "url" + "_sha256" == "url_sha256";
    RawIsNoField();
  }

  lemma RawIsNoField()
    ensures RAW !in TRANSPORT_FIELDS
  {
    assert |RAW| == 3 && RAW[0] == 0x72 && Ascii("url")[0] == 0x75;
    assert |Ascii("transport")| == 9 && |Ascii("command")| == 7 && |Ascii("args")| == 4;
    assert forall s | s in {Ascii("command"), Ascii("args"), Ascii("url")} :: |ShaName(s)| > 3;
  }

  lemma FieldDiffers(b: Entry, h: Entry, name: Text)
    requires Printable(b.value) && Printable(h.value) && name != RAW
    ensures Read(b, name) != Read(h, name) <==> name in ChangedFields(b, h)
  {
    hide Print;
    var v, w := MemberOf(b, name), MemberOf(h, name);
    assert v == Read(b, name) && w == Read(h, name) && Printable(v) && Printable(w);
    if Print(v, None) == Print(w, None) { StringifyInjective(v, w); }
  }

  lemma SensitiveAre(b: Entry, h: Entry, sensitive: Sensitive)
    ensures SensitiveDiffers(b, h, sensitive) <==> SensitiveValues(b, h, sensitive) != {}
  {
    hide Ascii;
    forall name
      ensures (EnvDigest(b, name).Some? <==> name in DigestsOf(b, Ascii("env")))
      ensures (EnvDigest(h, name).Some? <==> name in DigestsOf(h, Ascii("env")))
      ensures name in DigestsOf(b, Ascii("env")) ==> EnvDigest(b, name) == Some(Str(DigestsOf(b, Ascii("env"))[name]))
      ensures name in DigestsOf(h, Ascii("env")) ==> EnvDigest(h, name) == Some(Str(DigestsOf(h, Ascii("env"))[name]))
    {
      DigestRead(b, name);
      DigestRead(h, name);
    }
    hide DigestsOf, EnvDigest;
    if SensitiveDiffers(b, h, sensitive) {
      var name :| sensitive(name) && EnvDigest(h, name).Some? && EnvDigest(b, name) != EnvDigest(h, name);
      assert name in SensitiveValues(b, h, sensitive);
    }
    if SensitiveValues(b, h, sensitive) != {} {
      var name :| name in SensitiveValues(b, h, sensitive);
      assert EnvDigest(h, name).Some? && EnvDigest(b, name) != EnvDigest(h, name);
    }
  }

  lemma DigestRead(e: Entry, name: Text)
    ensures EnvDigest(e, name).Some? <==> name in DigestsOf(e, Ascii("env"))
    ensures name in DigestsOf(e, Ascii("env")) ==> EnvDigest(e, name) == Some(Str(DigestsOf(e, Ascii("env"))[name]))
  {
    hide Ascii;
    var a, b, c := Key(Ascii("env")), Key(name), Key(Ascii("sha256"));
    assert [a, b, c][1..] == [b, c] && [b, c][1..] == [c];
    if Below(e.value, a).Some? {
      var env := Below(e.value, a).value;
      assert NodeAt(e.value, [a, b, c]) == NodeAt(env, [b, c]);
      if Below(env, b).Some? {
        OneStep(Below(env, b).value, c);
        assert NodeAt(env, [b, c]) == Below(Below(env, b).value, c);
      }
    }
  }

  /** The direction of what is moved, changed in place, or has no rule. */
  lemma OtherWays(d: RawDelta, sensitive: Sensitive)
    requires WellSided(d) && KindSided(d) && !Measurable(d)
    requires (d.base.Some? ==> Printable(d.base.value.value)) && (d.head.Some? ==> Printable(d.head.value.value))
    ensures var way := WayOf(Classify(d, sensitive));
            if d.change == Moved || d.kind == Dir then way == Neutral
            else
              match d.kind
              case Perm => way == if WorthOf(d.head).Some? then Neutral else Undirected
              case Hook => way == if d.base.value.key != d.head.value.key then Widens else Neutral
              case Mcp =>
                var b, h := d.base.value, d.head.value;
                way == if TransportDiffers(b, h) || SensitiveDiffers(b, h, sensitive) then Widens else Undirected
              case EnvKey =>
                forall name | d.key == Ascii("env_key:") + name ::
                  way == if d.change != Removed && sensitive(name) then Widens else Undirected
              case _ => way == Undirected
  {
    hide Ascii, Worth, ListOf, ChangedFields, SensitiveValues, OtherValues, TransportDiffers, SensitiveDiffers;
    if d.change != Moved {
      match d.kind
      case Perm => ListIsMeasured(d.head.value);
      case Mcp =>
        FieldsDiffer(d.base.value, d.head.value);
        SensitiveAre(d.base.value, d.head.value, sensitive);
      case EnvKey =>
        forall name | d.key == Ascii("env_key:") + name ensures EnvNameOf(d.key) == name { EnvNames(name); }
      case _ =>
    }
  }

  lemma EnvNames(name: Text)
    ensures EnvNameOf(Ascii("env_key:") + name) == name
  {
    assert |Ascii("env_key:")| == 8;
  }

  lemma ListIsMeasured(e: Entry)
    requires e.kind == Perm
    ensures Worth(e).Some? <==> ListOf(e.key).Some?
  {
    hide Ascii;
  }

  /** The rules that decide nothing; every other claim is proven. */
  lemma UnresolvedRules(rule: Rule)
    ensures TierOf(rule) == if rule in {NoRule, McpAttrsChanged, EnvValueChanged, ModeUnknown} then Unresolved else Proven
  {
  }

  // ---- categories ----

  /** The category of a widening, by kind. */
  lemma CategoryByKind(d: RawDelta, sensitive: Sensitive, wholeTool: bool)
    requires WellSided(d) && WayOf(Classify(d, sensitive)) == Widens
    requires (d.base.Some? ==> Printable(d.base.value.value)) && (d.head.Some? ==> Printable(d.head.value.value))
    ensures d.kind in {Perm, Hook, Mcp, Dir, Mode, PluginFlag, EnvKey}
    ensures Categorize(Classify(d, sensitive), Widens, wholeTool)
         == match d.kind
            case Perm =>
              if d.change == Removed then Some(DenyRemovedCategory)
              else Some(if wholeTool then WholeToolAllow else ScopedAllow)
            case Hook => Some(HookCategory)
            case Mcp =>
              if d.change == Added || TransportDiffers(d.base.value, d.head.value) then Some(McpCategory)
              else Some(EnvCategory)
            case Dir => Some(DirectoryCategory)
            case Mode => Some(ModeCategory)
            case PluginFlag =>
              if d.key == Ascii("plugin_flag:disableAllHooks") then Some(HooksReenabledCategory) else Some(McpCategory)
            case EnvKey => Some(EnvCategory)
            case _ => None
  {
    hide Ascii, ListOf, ChangedFields, SensitiveValues, OtherValues, TransportDiffers, ClassOfMode, BoolOf;
    if d.kind == Mcp && d.change == Changed { FieldsDiffer(d.base.value, d.head.value); }
    FlagNamesDiffer();
  }
}
