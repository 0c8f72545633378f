/** What a settings or MCP document yields: at each place of its value, entries or failures. */
module Extraction {
  import opened Texts
  import opened Json
  import opened Pointers
  import Sorting
  import opened Canonical
  import opened Entries
  import opened Redact
  import opened Normalize
  import opened Walks

  /** The functions that are not part of this model: detection, the hash, and Number. */
  datatype Setup = Setup(detector: Detector, sha: Text -> Text, number: Numeric)

  datatype Outcome = Add(kind: Kind, key: Text, value: Value) | Fail

  /** An entry or a failure, at the path of its pointer. */
  type Item = Noted<Outcome>

  const COLON_TEXT: Text := Ascii(":")

  // ---- places ----

  /** The places of a document that extraction distinguishes. */
  datatype Place =
    | SettingsRoot | McpRoot | Unmodeled
    | Permissions | RuleList(list: Text) | Rule(list: Text) | Directories | Directory | ModeKey(name: Text)
    | Hooks | HookEvent(event: Text) | MatcherGroup(event: Text) | HookList(event: Text, matcher: Option<Text>)
    | HookDefinition(event: Text, matcher: Option<Text>)
    | Env | EnvName(name: Text) | SandboxRoot | SandboxKey(name: Text) | HelperKey(name: Text) | FlagKey(name: Text)
    | Servers | Server(name: Text)

  /** Places whose every child is a place of its own. */
  predicate OverObject(place: Place) {
    place in {SettingsRoot, McpRoot, Permissions, Hooks, Env, SandboxRoot, Servers}
  }

  predicate OverArray(place: Place) {
    place.RuleList? || place == Directories || place.HookEvent? || place.HookList?
  }

  predicate IsContainer(place: Place) { OverObject(place) || OverArray(place) }

  /** Whether a value is of the type that a container goes through. */
  predicate Fits(place: Place, v: Value) {
    if OverObject(place) then v.Obj? else v.Arr?
  }

  predicate IsPermissionList(key: Text) { key in {Ascii("allow"), Ascii("ask"), Ascii("deny")} }
  predicate IsModeKey(key: Text) { key in {Ascii("defaultMode"), Ascii("disableBypassPermissionsMode")} }

  predicate IsHelperKey(key: Text) {
    key in {Ascii("apiKeyHelper"), Ascii("awsAuthRefresh"), Ascii("awsCredentialExport"), Ascii("otelHeadersHelper")}
  }

  predicate IsNameList(key: Text) { key in {Ascii("enabledMcpjsonServers"), Ascii("disabledMcpjsonServers")} }

  predicate IsFlagKey(key: Text) {
    IsNameList(key) || key in {Ascii("enabledPlugins"), Ascii("enableAllProjectMcpServers"), Ascii("disableAllHooks")}
  }

  function SettingsPlace(key: Text): Place {
    if key == Ascii("permissions") then Permissions
    else if key == Ascii("hooks") then Hooks
    else if key == Ascii("env") then Env
    else if key == Ascii("sandbox") then SandboxRoot
    else if IsHelperKey(key) then HelperKey(key)
    else if IsFlagKey(key) then FlagKey(key)
    else Unmodeled
  }

  function PermissionsPlace(key: Text): Place {
    if IsPermissionList(key) then RuleList(key)
    else if key == Ascii("additionalDirectories") then Directories
    else if IsModeKey(key) then ModeKey(key)
    else Unmodeled
  }

  function StepName(s: Step): Text { if s.Key? then s.name else [] }

  /** The place one step below a container. */
  function ChildPlace(place: Place, s: Step): Place {
    match place
    case SettingsRoot => SettingsPlace(StepName(s))
    case McpRoot => if StepName(s) == Ascii("mcpServers") then Servers else Unmodeled
    case Permissions => PermissionsPlace(StepName(s))
    case RuleList(list) => Rule(list)
    case Directories => Directory
    case Hooks => HookEvent(StepName(s))
    case HookEvent(event) => MatcherGroup(event)
    case HookList(event, matcher) => HookDefinition(event, matcher)
    case Env => EnvName(StepName(s))
    case SandboxRoot => SandboxKey(StepName(s))
    case Servers => Server(StepName(s))
    case _ => Unmodeled
  }

  // ---- values of entries ----

  function Nullable(t: Option<Text>): Value { if t.Some? then Str(t.value) else Null }

  function WildcardName(w: Option<Wildcard>): Value {
    match w
    case None => Null
    case Some(Whole) => Str(Ascii("whole"))
    case Some(Trailing) => Str(Ascii("trailing"))
    case Some(Exact) => Str(Ascii("none"))
  }

  function RuleKeyOf(list: Text, rule: Text): Text { Ascii("perm:") + list + COLON_TEXT + rule }

  function RuleValue(p: ParsedRule): Value {
    Obj(map[RAW := Str(p.raw), Ascii("rule") := Str(p.rule), Ascii("tool") := Str(p.tool),
            Ascii("spec") := Nullable(p.spec), Ascii("wildcard") := WildcardName(p.wildcard)])
  }

  /** {redacted, length, sha256}: comparable, never printable. */
  function DigestOf(raw: Text, setup: Setup): Value {
    Obj(map[Ascii("redacted") := Bool(true), Ascii("length") := Num(Decimal(|raw|)),
      Ascii("sha256") := Str(setup.sha(raw))])
  }

  /** The raw text that stands for a value in a digest. */
  function RawText(v: Value): Text { if v.Str? then v.s else Print(v, None) }

  /** The digest that a field needs: of its raw text, when what is shown differs from it. */
  function FieldDigest(shown: Value, raw: Option<Value>, setup: Setup): Option<Text> {
    if shown.Null? || raw.None? || raw.value.Null? then None
    else if Print(shown, None) == Print(raw.value, None) then None
    else Some(setup.sha(RawText(raw.value)))
  }

  function ShaName(field: Text): Text { field + Ascii("_sha256") }

  function ShaMember(field: Text, digest: Option<Text>): map<Text, Value> {
    if digest.None? then map[] else map[ShaName(field) := Str(digest.value)]
  }

  /** A field's value if it is a string, else null. */
  function TextOrNull(v: Option<Value>): Value { if v.Some? && v.value.Str? then v.value else Null }

  function NumberOrNull(v: Option<Value>): Value { if v.Some? && v.value.Num? then v.value else Null }

  function FieldOf(v: Value, field: Text): Option<Value> { Below(v, Key(field)) }

  // ---- items of the leaves ----

  function RuleItem(list: Text, shown: Value): Outcome {
    match shown
    case Str(s) =>
      var p := NormalizeRule(s);
      if p.tool == [] then Fail else Add(Perm, RuleKeyOf(list, p.rule), RuleValue(p))
    case _ => Fail
  }

  function DirectoryItem(shown: Value): Outcome {
    match shown
    case Str(s) =>
      if Trim(s) == [] then Fail
      else Add(Dir, Ascii("dir:") + Trim(s), Obj(map[RAW := Str(s), Ascii("path") := Str(Trim(s))]))
    case _ => Fail
  }

  function ModeItem(name: Text, shown: Value): Outcome {
    if shown.Str? then Add(Mode, Ascii("mode:") + name, Obj(map[RAW := shown, Ascii("mode") := shown])) else Fail
  }

  /** The text that identifies a hook: its raw command, or else its raw prompt. */
  function HookText(raw: Value): Option<Text> {
    match FieldOf(raw, Ascii("command"))
    case Some(Str(s)) => Some(s)
    case _ =>
      match FieldOf(raw, Ascii("prompt"))
      case Some(Str(s)) => Some(s)
      case _ => None
  }

  function HookBase(event: Text, matcher: Option<Text>, shown: Value): map<Text, Value> {
    map[Ascii("event") := Str(event), Ascii("matcher") := Nullable(matcher),
        Ascii("type") := TextOrNull(FieldOf(shown, Ascii("type"))),
        Ascii("command") := TextOrNull(FieldOf(shown, Ascii("command"))),
        Ascii("prompt") := TextOrNull(FieldOf(shown, Ascii("prompt"))),
        Ascii("timeout") := NumberOrNull(FieldOf(shown, Ascii("timeout")))]
  }

  function HookValue(event: Text, matcher: Option<Text>, shown: Value, raw: Value, setup: Setup): Value {
    var command, prompt := Ascii("command"), Ascii("prompt");
    Obj(HookBase(event, matcher, shown)
        + ShaMember(command, FieldDigest(TextOrNull(FieldOf(shown, command)), FieldOf(raw, command), setup))
        + ShaMember(prompt, FieldDigest(TextOrNull(FieldOf(shown, prompt)), FieldOf(raw, prompt), setup)))
  }

  function HookKey(event: Text, matcher: Option<Text>, text: Text, setup: Setup): Text {
    Ascii("hook:") + event + COLON_TEXT + (if matcher.Some? then matcher.value else []) + COLON_TEXT + setup.sha(text)
  }

  function HookItem(event: Text, matcher: Option<Text>, shown: Value, raw: Value, setup: Setup): Outcome {
    if !shown.Obj? || HookText(raw).None? then Fail
    else Add(Hook, HookKey(event, matcher, HookText(raw).value, setup), HookValue(event, matcher, shown, raw, setup))
  }

  function EnvItem(name: Text, raw: Value, setup: Setup): Outcome {
    if raw.Str? then Add(EnvKey, Ascii("env_key:") + name, DigestOf(raw.s, setup)) else Fail
  }

  function HelperItem(name: Text, shown: Value, raw: Value, setup: Setup): Outcome {
    if !shown.Str? then Fail
    else
      var digest := if raw.Str? && raw != shown then Some(setup.sha(raw.s)) else None;
      Add(Helper, Ascii("helper:") + name,
          Obj(map[Ascii("command") := shown] + ShaMember(Ascii("command"), digest)))
  }

  /** The names of a list of texts, sorted and without repeats. */
  function SortedNames(items: seq<Value>): Value {
    Sorting.LessIsStrictTotal();
    TextList(Sorting.SortSet(set v | v in items && v.Str? :: v.s, Less))
  }

  function NonStrings(items: seq<Value>, path: Path): seq<Item> {
    if items == [] then []
    else
      var before := NonStrings(items[..|items| - 1], path);
      if items[|items| - 1].Str? then before else before + [Noted(path + [Index(|items| - 1)], Fail)]
  }

  function FlagItems(name: Text, shown: Value, path: Path): seq<Item> {
    var key := Ascii("plugin_flag:") + name;
    if !IsNameList(name) then [Noted(path, Add(PluginFlag, key, shown))]
    else if !shown.Arr? then [Noted(path, Fail)]
    else if NonStrings(shown.items, path) != [] then NonStrings(shown.items, path)
    else [Noted(path, Add(PluginFlag, key, Obj(map[RAW := shown, Ascii("names") := SortedNames(shown.items)])))]
  }

  // ---- MCP servers ----

  predicate AllStrings(v: Value) { v.Arr? && forall i | 0 <= i < |v.items| :: v.items[i].Str? }

  function Transport(shown: Value): Value {
    match FieldOf(shown, Ascii("type"))
    case Some(Str(s)) => if s in {Ascii("stdio"), Ascii("http"), Ascii("sse")} then Str(s) else Null
    case Some(_) => Null
    case None => if TextOrNull(FieldOf(shown, Ascii("command"))).Str? then Str(Ascii("stdio")) else Null
  }

  function ArgList(v: Option<Value>): Value { if v.Some? && AllStrings(v.value) then v.value else Null }

  /** An object's string members, each replaced by its digest; Null for anything but an object. */
  function DigestMap(raw: Option<Value>, setup: Setup): Value {
    if raw.Some? && raw.value.Obj? then
      var members := raw.value.members;
      Obj(map name | name in members && members[name].Str? :: DigestOf(members[name].s, setup))
    else Null
  }

  /** The failures of a digest map, in sorted name order. */
  function MapFailures(members: map<Text, Value>, names: seq<Text>, path: Path): seq<Item>
    requires forall name | name in names :: name in members
  {
    if names == [] then []
    else
      var last := names[|names| - 1];
      var before := MapFailures(members, names[..|names| - 1], path);
      if members[last].Str? then before else before + [Noted(path + [Key(last)], Fail)]
  }

  function SortedKeys(members: map<Text, Value>): (keys: seq<Text>)
    ensures forall k :: k in keys <==> k in members
  {
    Sorting.LessIsStrictTotal();
    Sorting.SortSet(members.Keys, Less)
  }

  function DigestFailures(raw: Option<Value>, path: Path): seq<Item> {
    if raw.Some? && raw.value.Obj? then MapFailures(raw.value.members, SortedKeys(raw.value.members), path) else []
  }

  const SERVER_FIELDS: set<Text> :=
    {Ascii("type"), Ascii("command"), Ascii("args"), Ascii("url"), Ascii("env"), Ascii("headers")}

  function Extra(members: map<Text, Value>): Value {
    var extra := map k | k in members && k !in SERVER_FIELDS :: members[k];
    if extra == map[] then Null else Obj(extra)
  }

  /** The parts of an MCP entry's value. */
  datatype McpFields = McpFields(
    name: Text, transport: Value, typeRaw: Value, command: Value, args: Value, url: Value, env: Value, headers: Value,
    extra: Value, commandSha: Option<Text>, argsSha: Option<Text>, urlSha: Option<Text>)

  function McpFieldsOf(name: Text, shown: Value, raw: Value, setup: Setup): McpFields
    requires shown.Obj?
  {
    var command, url := TextOrNull(FieldOf(shown, Ascii("command"))), TextOrNull(FieldOf(shown, Ascii("url")));
    var args := ArgList(FieldOf(shown, Ascii("args")));
    McpFields(
      name, Transport(shown), TextOrNull(FieldOf(shown, Ascii("type"))), command, args, url,
      DigestMap(FieldOf(raw, Ascii("env")), setup), DigestMap(FieldOf(raw, Ascii("headers")), setup),
        Extra(shown.members),
      FieldDigest(command, FieldOf(raw, Ascii("command")), setup), FieldDigest(args, FieldOf(raw, Ascii("args")),
        setup),
      FieldDigest(url, FieldOf(raw, Ascii("url")), setup))
  }

  function McpBase(f: McpFields): map<Text, Value> {
    map[Ascii("name") := Str(f.name), Ascii("transport") := f.transport, Ascii("type_raw") := f.typeRaw,
        Ascii("command") := f.command, Ascii("args") := f.args, Ascii("url") := f.url, Ascii("env") := f.env,
        Ascii("headers") := f.headers, Ascii("extra") := f.extra]
  }

  function McpValue(f: McpFields): Value {
    Obj(McpBase(f) + ShaMember(Ascii("command"), f.commandSha) + ShaMember(Ascii("args"), f.argsSha)
        + ShaMember(Ascii("url"), f.urlSha))
  }

  function FailIf(bad: bool, path: Path): seq<Item> { if bad then [Noted(path, Fail)] else [] }

  function NotAnObject(v: Option<Value>): bool { v.Some? && !v.value.Obj? }

  /** What a server's fields fail on, before its entry. */
  function ServerFailures(shown: Value, raw: Value, path: Path): seq<Item> {
    var args, env, headers := Key(Ascii("args")), Key(Ascii("env")), Key(Ascii("headers"));
    FailIf(Below(shown, args).Some? && ArgList(Below(shown, args)).Null?, path + [args])
    + FailIf(NotAnObject(Below(shown, env)), path + [env])
    + FailIf(NotAnObject(Below(shown, headers)), path + [headers])
    + DigestFailures(Below(raw, env), path + [env])
    + DigestFailures(Below(raw, headers), path + [headers])
  }

  function ServerItems(name: Text, shown: Value, raw: Value, path: Path, setup: Setup): seq<Item> {
    if !shown.Obj? then [Noted(path, Fail)]
    else
      ServerFailures(shown, raw, path)
      + [Noted(path, Add(Mcp, Ascii("mcp:") + name, McpValue(McpFieldsOf(name, shown, raw, setup))))]
  }

  // ---- a whole document ----

  /** The items of a place that is not a container. */
  function LeafItems(place: Place, raw: Value, path: Path, key: Option<Text>, setup: Setup): seq<Item> {
    var shown := RedactTree(raw, key, setup.detector);
    match place
    case Rule(list) => [Noted(path, RuleItem(list, shown))]
    case Directory => [Noted(path, DirectoryItem(shown))]
    case ModeKey(name) => [Noted(path, ModeItem(name, shown))]
    case HookDefinition(event, matcher) => [Noted(path, HookItem(event, matcher, shown, raw, setup))]
    case EnvName(name) => [Noted(path, EnvItem(name, raw, setup))]
    case SandboxKey(name) => [Noted(path, Add(Sandbox, Ascii("sandbox:") + name, shown))]
    case HelperKey(name) => [Noted(path, HelperItem(name, shown, raw, setup))]
    case FlagKey(name) => FlagItems(name, shown, path)
    case Server(name) => ServerItems(name, shown, raw, path, setup)
    case _ => [Noted(path, Add(Unknown, Ascii("unknown:") + PointerTo(path), shown))]
  }

  const MATCHER: Step := Key(Ascii("matcher"))
  const HOOKS: Step := Key(Ascii("hooks"))

  /** The matcher of a group, as shown; Fail for one that is not a string. */
  predicate BadMatcher(group: Value) { Below(group, MATCHER).Some? && !Below(group, MATCHER).value.Str? }

  function MatcherOf(group: Value, setup: Setup): Option<Text> {
    match Below(group, MATCHER)
    case Some(Str(s)) => Some(Redaction(s, Some(Ascii("matcher")), setup.detector).text)
    case _ => None
  }

  /** Everything that a place and what lies below it yield, in the order of extraction. */
  function Visit(place: Place, raw: Value, path: Path, key: Option<Text>, setup: Setup): seq<Item>
    decreases raw, 1
  {
    if IsContainer(place) then
      if !Fits(place, raw) then [Noted(path, Fail)]
      else
        var steps := StepsOf(raw);
        Flatten(seq(|steps|, i requires 0 <= i < |steps| =>
                  Visit(ChildPlace(place, steps[i]), Below(raw, steps[i]).value, path + [steps[i]],
                    KeyBelow(steps[i], key), setup)))
    else if place.MatcherGroup? then VisitGroup(place.event, raw, path, setup)
    else LeafItems(place, raw, path, key, setup)
  }

  function VisitGroup(event: Text, raw: Value, path: Path, setup: Setup): seq<Item>
    decreases raw, 0
  {
    if !raw.Obj? then [Noted(path, Fail)]
    else if BadMatcher(raw) then [Noted(path + [MATCHER], Fail)]
    else if Below(raw, HOOKS).None? then [Noted(path + [HOOKS], Fail)]
    else
      assert raw.members[Ascii("hooks")] < raw;
      Visit(HookList(event, MatcherOf(raw, setup)), Below(raw, HOOKS).value, path + [HOOKS], Some(Ascii("hooks")),
        setup)
  }

  /** The parts of a container's items, one for each of its steps. */
  function Parts(place: Place, raw: Value, path: Path, key: Option<Text>, setup: Setup): (parts: seq<seq<Item>>)
    ensures |parts| == |StepsOf(raw)|
    ensures forall i | 0 <= i < |parts| ::
              var s := StepsOf(raw)[i];
              parts[i] == Visit(ChildPlace(place, s), Below(raw, s).value, path + [s], KeyBelow(s, key), setup)
    ensures IsContainer(place) && Fits(place, raw) ==> Visit(place, raw, path, key, setup) == Flatten(parts)
  {
    var steps := StepsOf(raw);
    seq(|steps|, i requires 0 <= i < |steps| =>
          Visit(ChildPlace(place, steps[i]), Below(raw, steps[i]).value, path + [steps[i]], KeyBelow(steps[i], key),
            setup))
  }

  datatype Role = SettingsFile | McpFile

  function RootPlace(role: Role): Place { if role == McpFile then McpRoot else SettingsRoot }

  function TextList(texts: seq<Text>): Value {
    Arr(seq(|texts|, i requires 0 <= i < |texts| => Str(texts[i])))
  }

  /** The entry that a finding of the redaction yields. */
  function CredentialItem(found: Noted<seq<Text>>, raw: Value, setup: Setup): Item {
    var sha := match NodeAt(raw, found.path) case Some(Str(s)) => Some(setup.sha(s)) case _ => None;
    Noted(found.path, Add(Credential, Ascii("credential:") + PointerTo(found.path),
            Obj(map[Ascii("note") := Str(Ascii("credential-like value present")),
                    Ascii("patterns") := TextList(found.what),
                    Ascii("sha256") := Nullable(sha)])))
  }

  function CredentialItems(found: seq<Noted<seq<Text>>>, raw: Value, setup: Setup): seq<Item> {
    seq(|found|, i requires 0 <= i < |found| => CredentialItem(found[i], raw, setup))
  }

  /** Everything that a document's value yields. */
  function DocumentItems(role: Role, raw: Value, setup: Setup): seq<Item> {
    Visit(RootPlace(role), raw, [], None, setup) + CredentialItems(FindingsOf(raw, [], None, setup.detector), raw,
      setup)
  }
}
