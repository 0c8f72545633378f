/** The direction table: which rule one delta falls under, and what that rule says. */
module Direction {
  import opened Texts
  import opened Json
  import opened Pointers
  import opened Canonical
  import opened Entries
  import opened Diff
  import opened Extraction
  import Sorting

  datatype Way = Widens | Narrows | Neutral | Undirected

  datatype Tier = Proven | Projected | Unresolved

  /** The rules of the direction table, one for each D-... identifier. */
  datatype Rule =
    | AllowAdded | AskAdded | DenyAdded | AllowRemoved | AskRemoved | DenyRemoved
    | HookAdded | HookRemoved | HookChanged | HookAttrsChanged
    | McpAdded | McpRemoved | McpChanged | McpAttrsChanged | EnvSensitiveSet | EnvValueChanged
    | EnableAllMcp | EnableAllMcpOff | ModeWidened | ModeNarrowed | ModeNeutral | ModeUnknown
    | HooksDisabled | HooksReenabled | DirAdded | DirRemoved | FlagDefault | MovedOnly | NoRule

  function WayOf(rule: Rule): Way {
    match rule
    case AllowAdded => Widens
    case AskAdded => Neutral
    case DenyAdded => Narrows
    case AllowRemoved => Narrows
    case AskRemoved => Neutral
    case DenyRemoved => Widens
    case HookAdded => Widens
    case HookRemoved => Narrows
    case HookChanged => Widens
    case HookAttrsChanged => Neutral
    case McpAdded => Widens
    case McpRemoved => Narrows
    case McpChanged => Widens
    case McpAttrsChanged => Undirected
    case EnvSensitiveSet => Widens
    case EnvValueChanged => Undirected
    case EnableAllMcp => Widens
    case EnableAllMcpOff => Narrows
    case ModeWidened => Widens
    case ModeNarrowed => Narrows
    case ModeNeutral => Neutral
    case ModeUnknown => Undirected
    case HooksDisabled => Narrows
    case HooksReenabled => Widens
    case DirAdded => Widens
    case DirRemoved => Narrows
    case FlagDefault => Neutral
    case MovedOnly => Neutral
    case NoRule => Undirected
  }

  function TierOf(rule: Rule): Tier {
    if WayOf(rule) == Undirected then Unresolved else Proven
  }

  // ---- reading entries ----

  function RawOf(e: Option<Entry>): Option<Text> {
    if e.Some? && e.value.value.Obj? && RAW in e.value.value.members && e.value.value.members[RAW].Str?
    then Some(e.value.value.members[RAW].s)
    else None
  }

  function BoolOf(e: Option<Entry>): Option<bool> {
    if e.Some? && e.value.value.Bool? then Some(e.value.value.b) else None
  }

  /** What an entry's object value holds under a name, with Null standing for nothing. */
  function MemberOf(e: Entry, name: Text): Value {
    if e.value.Obj? && name in e.value.members then e.value.members[name] else Null
  }

  function NamesOf(e: Entry): set<Text> { if e.value.Obj? then e.value.members.Keys else {} }

  /** The members that print differently in two entries, apart from `raw`. */
  function ChangedFields(base: Entry, head: Entry): set<Text> {
    set name | name in NamesOf(base) + NamesOf(head)
      && Print(MemberOf(base, name), None) != Print(MemberOf(head, name), None) && name != RAW
  }

  const TRANSPORT_FIELDS: set<Text> :=
    {Ascii("transport"), Ascii("command"), Ascii("args"), Ascii("url"),
     ShaName(Ascii("command")), ShaName(Ascii("args")), ShaName(Ascii("url"))}

  /** The digests of an env or headers map, by name. */
  function DigestsOf(e: Entry, field: Text): map<Text, Text> {
    var m := MemberOf(e, field);
    if m.Obj? then
      map name | name in m.members && IsDigest(m.members[name]) :: m.members[name].members[Ascii("sha256")].s
    else map[]
  }

  predicate IsDigest(v: Value) {
    v.Obj? && Ascii("sha256") in v.members && v.members[Ascii("sha256")].Str?
  }

  /** The environment names that count as sensitive. */
  type Sensitive = Text -> bool

  /** The sensitive env names whose digest on the head is not that on the base. */
  function SensitiveValues(base: Entry, head: Entry, sensitive: Sensitive): set<Text> {
    var before, after := DigestsOf(base, Ascii("env")), DigestsOf(head, Ascii("env"));
    set name | name in after && sensitive(name) && !(name in before && before[name] == after[name])
  }

  function MapName(isEnv: bool): Text { if isEnv then Ascii("env") else Ascii("headers") }

  /** Names of a map on both sides whose digest differs, but for sensitive env names. */
  function OtherValues(base: Entry, head: Entry, isEnv: bool, sensitive: Sensitive): set<Text> {
    var before, after := DigestsOf(base, MapName(isEnv)), DigestsOf(head, MapName(isEnv));
    set name | name in after && !(isEnv && sensitive(name)) && name in before && before[name] != after[name]
  }

  /** Whether a name's value is a sensitive one that was set or changed. */
  predicate IsSensitiveChange(name: Text, before: map<Text, Text>, after: map<Text, Text>, isEnv: bool,
    sensitive: Sensitive)
    requires name in after
  {
    isEnv && sensitive(name) && !(name in before && before[name] == after[name])
  }

  function SensitiveAmong(
    names: seq<Text>, before: map<Text, Text>, after: map<Text, Text>, isEnv: bool, sensitive: Sensitive): seq<Text>
    requires forall name | name in names :: name in after
  {
    if names == [] then []
    else
      var last := names[|names| - 1];
      SensitiveAmong(names[..|names| - 1], before, after, isEnv, sensitive)
      + if IsSensitiveChange(last, before, after, isEnv, sensitive) then [last] else []
  }

  function OtherAmong(
    names: seq<Text>, before: map<Text, Text>, after: map<Text, Text>, isEnv: bool, sensitive: Sensitive): seq<Text>
    requires forall name | name in names :: name in after
  {
    if names == [] then []
    else
      var last := names[|names| - 1];
      OtherAmong(names[..|names| - 1], before, after, isEnv, sensitive)
      + if !IsSensitiveChange(last, before, after, isEnv, sensitive) && last in before && before[last] != after[last]
        then [last] else []
  }

  lemma {:induction false} AmongAre(
    names: seq<Text>, before: map<Text, Text>, after: map<Text, Text>, isEnv: bool, sensitive: Sensitive)
    requires forall name | name in names :: name in after
    ensures forall name :: name in SensitiveAmong(names, before, after, isEnv, sensitive)
                      <==> name in names && IsSensitiveChange(name, before, after, isEnv, sensitive)
    ensures forall name :: name in OtherAmong(names, before, after, isEnv, sensitive)
                      <==> name in names && !IsSensitiveChange(name, before, after, isEnv, sensitive)
                           && name in before && before[name] != after[name]
  {
    hide IsSensitiveChange;
    if names != [] {
      var init, last := names[..|names| - 1], names[|names| - 1];
      AmongAre(init, before, after, isEnv, sensitive);
      assert forall name :: name in names <==> name in init || name == last;
    }
  }

  ghost predicate InOrder(names: seq<Text>) {
    Sorting.Increasing(names, Less)
  }

  lemma {:induction false} AmongInOrder(
    names: seq<Text>, before: map<Text, Text>, after: map<Text, Text>, isEnv: bool, sensitive: Sensitive)
    requires InOrder(names) && forall name | name in names :: name in after
    ensures InOrder(SensitiveAmong(names, before, after, isEnv, sensitive))
    ensures InOrder(OtherAmong(names, before, after, isEnv, sensitive))
  {
    hide IsSensitiveChange, InOrder;
    if names == [] {
      NoneOutOfOrder();
    } else {
      var init, last := names[..|names| - 1], names[|names| - 1];
      OrderedInit(names);
      AmongInOrder(init, before, after, isEnv, sensitive);
      AmongAre(init, before, after, isEnv, sensitive);
      OrderedSnoc(SensitiveAmong(init, before, after, isEnv, sensitive), init, last);
      OrderedSnoc(OtherAmong(init, before, after, isEnv, sensitive), init, last);
    }
  }

  lemma NoneOutOfOrder()
    ensures InOrder([])
  {
  }

  lemma OrderedInit(names: seq<Text>)
    requires InOrder(names) && names != []
    ensures var last := names[|names| - 1];
            InOrder(names[..|names| - 1]) && forall name | name in names[..|names| - 1] :: Less(name, last)
  {
    hide Less;
  }

  lemma OrderedSnoc(some: seq<Text>, all: seq<Text>, last: Text)
    requires InOrder(some) && forall name | name in some :: name in all
    requires forall name | name in all :: Less(name, last)
    ensures InOrder(some + [last]) && some + [] == some
  {
    hide Less;
  }

  /** changedMcpValues for one of the two maps, name by name in sorted order. */
  method ChangedMcpValues(base: Entry, head: Entry, isEnv: bool, sensitive: Sensitive)
    returns (sensitiveNames: seq<Text>, otherNames: seq<Text>)
    ensures forall name :: name in sensitiveNames <==> isEnv && name in SensitiveValues(base, head, sensitive)
    ensures forall name :: name in otherNames <==> name in OtherValues(base, head, isEnv, sensitive)
    ensures InOrder(sensitiveNames) && InOrder(otherNames)
  {
    hide DigestsOf, Less, Ascii, IsSensitiveChange, SensitiveAmong, OtherAmong, SensitiveValues, OtherValues, MapName;
    Sorting.LessIsStrictTotal();
    var before, after := DigestsOf(base, MapName(isEnv)), DigestsOf(head, MapName(isEnv));
    var names := Sorting.SortSet(after.Keys, Less);
    sensitiveNames, otherNames := [], [];
    NoneAmong(names, before, after, isEnv, sensitive);
    for i := 0 to |names|
      invariant sensitiveNames == SensitiveAmong(names[..i], before, after, isEnv, sensitive)
      invariant otherNames == OtherAmong(names[..i], before, after, isEnv, sensitive)
    {
      var name := names[i];
      NextAmong(names, i, before, after, isEnv, sensitive);
      if IsSensitiveChange(name, before, after, isEnv, sensitive) {
        sensitiveNames := sensitiveNames + [name];
      } else if name in before && before[name] != after[name] {
        otherNames := otherNames + [name];
      }
    }
    assert names[..|names|] == names;
    AmongInOrder(names, before, after, isEnv, sensitive);
    AmongAre(names, before, after, isEnv, sensitive);
    ValuesAre(base, head, isEnv, sensitive);
  }

  lemma NoneAmong(names: seq<Text>, before: map<Text, Text>, after: map<Text, Text>, isEnv: bool, sensitive: Sensitive)
    requires forall name | name in names :: name in after
    ensures SensitiveAmong(names[..0], before, after, isEnv, sensitive) == []
    ensures OtherAmong(names[..0], before, after, isEnv, sensitive) == []
  {
  }

  lemma NextAmong(
    names: seq<Text>, i: nat, before: map<Text, Text>, after: map<Text, Text>, isEnv: bool, sensitive: Sensitive)
    requires i < |names| && forall name | name in names :: name in after
    ensures names[i] in after
    ensures SensitiveAmong(names[..i + 1], before, after, isEnv, sensitive)
         == SensitiveAmong(names[..i], before, after, isEnv, sensitive)
            + (if IsSensitiveChange(names[i], before, after, isEnv, sensitive) then [names[i]] else [])
    ensures OtherAmong(names[..i + 1], before, after, isEnv, sensitive)
         == OtherAmong(names[..i], before, after, isEnv, sensitive)
            + (if !IsSensitiveChange(names[i], before, after, isEnv, sensitive) && names[i] in before
                  && before[names[i]] != after[names[i]] then [names[i]] else [])
  {
    hide IsSensitiveChange;
    assert names[i] in names && names[..i + 1][..i] == names[..i];
  }

  lemma ValuesAre(base: Entry, head: Entry, isEnv: bool, sensitive: Sensitive)
    ensures var before, after := DigestsOf(base, MapName(isEnv)), DigestsOf(head, MapName(isEnv));
            && (forall name | name in after ::
                  IsSensitiveChange(name, before, after, isEnv, sensitive) <==> isEnv && name in SensitiveValues(base, head, sensitive))
            && (forall name :: name in OtherValues(base, head, isEnv, sensitive)
                  <==> name in after && !IsSensitiveChange(name, before, after, isEnv, sensitive)
                       && name in before && before[name] != after[name])
            && (isEnv ==> forall name | name in SensitiveValues(base, head, sensitive) :: name in after)
  {
    hide DigestsOf, Ascii;
  }

  // ---- kinds ----

  datatype ModeClass = Absent | WideningMode | NonWideningMode | UnknownMode

  function ClassOfMode(e: Option<Entry>): ModeClass {
    if e.None? then Absent
    else if RawOf(e).None? then UnknownMode
    else if RawOf(e).value in {Ascii("bypassPermissions"), Ascii("auto"), Ascii("dontAsk")} then WideningMode
    else if RawOf(e).value in {Ascii("acceptEdits"), Ascii("plan"), Ascii("default")} then NonWideningMode
    else UnknownMode
  }

  function ClassifyMode(change: Change, base: Option<Entry>, head: Option<Entry>): Rule {
    var from, to := ClassOfMode(base), ClassOfMode(head);
    if from == UnknownMode || to == UnknownMode then ModeUnknown
    else if change == Added then if to == WideningMode then ModeWidened else ModeNeutral
    else if change == Removed then if from == WideningMode then ModeNarrowed else ModeNeutral
    else if to == WideningMode && from != WideningMode then ModeWidened
    else if from == WideningMode && to != WideningMode then ModeNarrowed
    else ModeNeutral
  }

  function ClassifyFlag(change: Change, base: Option<Entry>, head: Option<Entry>, onTrue: Rule, offTrue: Rule): Rule {
    var from, to := BoolOf(base), BoolOf(head);
    if (base.Some? && from.None?) || (head.Some? && to.None?) then NoRule
    else if change == Added then if to == Some(true) then onTrue else FlagDefault
    else if change == Removed then if from == Some(true) then offTrue else FlagDefault
    else if to == Some(true) then onTrue
    else offTrue
  }

  /** The list of a permission key. */
  function ListOf(key: Text): Option<Text> {
    if Ascii("perm:allow:") <= key then Some(Ascii("allow"))
    else if Ascii("perm:ask:") <= key then Some(Ascii("ask"))
    else if Ascii("perm:deny:") <= key then Some(Ascii("deny"))
    else None
  }

  function ClassifyPerm(change: Change, list: Option<Text>): Rule {
    if list.None? then NoRule
    else if change != Added && change != Removed then MovedOnly
    else if list.value == Ascii("allow") then if change == Added then AllowAdded else AllowRemoved
    else if list.value == Ascii("ask") then if change == Added then AskAdded else AskRemoved
    else if change == Added then DenyAdded
    else DenyRemoved
  }

  function ClassifyHook(change: Change, base: Option<Entry>, head: Option<Entry>): Rule {
    if change == Added then HookAdded
    else if change == Removed then HookRemoved
    else if base.Some? && head.Some? && base.value.key != head.value.key then HookChanged
    else HookAttrsChanged
  }

  function ClassifyMcp(change: Change, base: Option<Entry>, head: Option<Entry>, sensitive: Sensitive): Rule {
    if change == Added then McpAdded
    else if change == Removed then McpRemoved
    else if base.None? || head.None? then McpAttrsChanged
    else
      var b, h := base.value, head.value;
      if ChangedFields(b, h) * TRANSPORT_FIELDS != {} then McpChanged
      else if SensitiveValues(b, h, sensitive) != {} then EnvSensitiveSet
      else if OtherValues(b, h, true, sensitive) + OtherValues(b, h, false, sensitive) != {} then EnvValueChanged
      else McpAttrsChanged
  }

  function ClassifyEnv(change: Change, name: Text, sensitive: Sensitive): Rule {
    if change == Removed then NoRule
    else if sensitive(name) then EnvSensitiveSet
    else if change == Changed then EnvValueChanged
    else NoRule
  }

  function EnvNameOf(key: Text): Text { if |key| >= 8 then key[8..] else [] }

  function ClassifyPluginFlag(change: Change, key: Text, base: Option<Entry>, head: Option<Entry>): Rule {
    if key == Ascii("plugin_flag:enableAllProjectMcpServers") then ClassifyFlag(change, base, head, EnableAllMcp,
      EnableAllMcpOff)
    else if key == Ascii("plugin_flag:disableAllHooks") then ClassifyFlag(change, base, head, HooksDisabled,
      HooksReenabled)
    else NoRule
  }

  function ClassifyByKind(d: RawDelta, sensitive: Sensitive): Rule {
    match d.kind
    case Perm =>
      ClassifyPerm(d.change,
        if d.head.Some? then ListOf(d.head.value.key) else if d.base.Some? then ListOf(d.base.value.key) else None)
    case Hook => ClassifyHook(d.change, d.base, d.head)
    case Mcp => ClassifyMcp(d.change, d.base, d.head, sensitive)
    case EnvKey => ClassifyEnv(d.change, EnvNameOf(d.key), sensitive)
    case Dir => if d.change == Added then DirAdded else if d.change == Removed then DirRemoved else MovedOnly
    case Mode => if d.key == Ascii("mode:defaultMode") then ClassifyMode(d.change, d.base, d.head) else NoRule
    case PluginFlag => ClassifyPluginFlag(d.change, d.key, d.base, d.head)
    case _ => NoRule
  }

  /** The rule of one delta. */
  function Classify(d: RawDelta, sensitive: Sensitive): Rule {
    if d.change == Moved then MovedOnly else ClassifyByKind(d, sensitive)
  }

  // ---- categories ----

  datatype Category = HookCategory | McpCategory | ModeCategory | WholeToolAllow | DirectoryCategory | HooksReenabledCategory
                    | DenyRemovedCategory | EnvCategory | ScopedAllow

  /** The category of a rule that widens; wholeTool is the breadth that the interpretations found. */
  function Categorize(rule: Rule, way: Way, wholeTool: bool): Option<Category> {
    if way != Widens then None
    else
      match rule
      case AllowAdded => Some(if wholeTool then WholeToolAllow else ScopedAllow)
      case DenyRemoved => Some(DenyRemovedCategory)
      case HookAdded => Some(HookCategory)
      case HookChanged => Some(HookCategory)
      case McpAdded => Some(McpCategory)
      case McpChanged => Some(McpCategory)
      case EnableAllMcp => Some(McpCategory)
      case ModeWidened => Some(ModeCategory)
      case DirAdded => Some(DirectoryCategory)
      case HooksReenabled => Some(HooksReenabledCategory)
      case EnvSensitiveSet => Some(EnvCategory)
      case _ => None
  }

  /** Each rule of the table that widens has a category, and none that does not. */
  lemma WideningHasCategory(d: RawDelta, sensitive: Sensitive, wholeTool: bool)
    ensures var rule := Classify(d, sensitive);
            Categorize(rule, WayOf(rule), wholeTool).Some? <==> WayOf(rule) == Widens
  {
    hide ClassifyByKind;
  }
}
