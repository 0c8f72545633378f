/** Extraction as it runs: one document, walked section by section, entries and failures appended. */
module Extractor {
  import opened Texts
  import Grammar
  import opened Json
  import opened Pointers
  import Sorting
  import opened Denotation
  import opened Canonical
  import opened Entries
  import opened Redact
  import opened Normalize
  import opened Walks
  import opened Extraction

  datatype Incomplete = Incomplete(path: Text, pointer: Text, line: Option<nat>)

  /** A document: its path, role and commit, and what parsing it gave. */
  datatype SourceDocument =
    SourceDocument(path: Text, role: Role, sha: Option<Text>, value: Option<Value>, pointers: map<Text, Position>)

  function LineOf(doc: SourceDocument, pointer: Text): Option<nat> {
    if pointer in doc.pointers then Some(doc.pointers[pointer].line) else None
  }

  function EntryOf(item: Item, doc: SourceDocument, sha: Option<Text>): Entry
    requires item.what.Add?
  {
    var pointer := PointerTo(item.path);
    Entry(item.what.kind, item.what.key, item.what.value, doc.path, LineOf(doc, pointer), Some(pointer), sha)
  }

  function IncompleteOf(item: Item, doc: SourceDocument): Incomplete {
    Incomplete(doc.path, PointerTo(item.path), LineOf(doc, PointerTo(item.path)))
  }

  function EntriesOf(items: seq<Item>, doc: SourceDocument, sha: Option<Text>): seq<Entry> {
    if items == [] then []
    else
      var before := EntriesOf(items[..|items| - 1], doc, sha);
      if items[|items| - 1].what.Add? then before + [EntryOf(items[|items| - 1], doc, sha)] else before
  }

  function FailuresOf(items: seq<Item>, doc: SourceDocument): seq<Incomplete> {
    if items == [] then []
    else
      var before := FailuresOf(items[..|items| - 1], doc);
      if items[|items| - 1].what.Fail? then before + [IncompleteOf(items[|items| - 1], doc)] else before
  }

  lemma {:induction false} LogConcat(a: seq<Item>, b: seq<Item>, doc: SourceDocument, sha: Option<Text>)
    ensures EntriesOf(a + b, doc, sha) == EntriesOf(a, doc, sha) + EntriesOf(b, doc, sha)
    ensures FailuresOf(a + b, doc) == FailuresOf(a, doc) + FailuresOf(b, doc)
    decreases |b|
  {
    hide EntryOf, IncompleteOf;
    if b == [] {
      assert a + b == a;
    } else {
      var n := |b| - 1;
      LogConcat(a, b[..n], doc, sha);
      assert (a + b)[..|a + b| - 1] == a + b[..n];
    }
  }

  /** What has been logged once the first n children of a container are done. */
  ghost function Passed(place: Place, v: Value, path: Path, key: Option<Text>, setup: Setup, n: nat): seq<Item>
    requires n <= |StepsOf(v)|
  {
    Flatten(Parts(place, v, path, key, setup)[..n])
  }

  lemma PassedNext(place: Place, v: Value, path: Path, key: Option<Text>, setup: Setup, n: nat)
    requires n < |StepsOf(v)|
    ensures var s := StepsOf(v)[n];
            Passed(place, v, path, key, setup, n + 1) == Passed(place, v, path, key, setup, n)
              + Visit(ChildPlace(place, s), Below(v, s).value, path + [s], KeyBelow(s, key), setup)
  {
    hide Visit, StepsOf;
    var parts := Parts(place, v, path, key, setup);
    assert parts[..n + 1] == parts[..n] + [parts[n]];
    FlattenSnoc(parts[..n], parts[n]);
  }

  lemma PassedAll(place: Place, v: Value, path: Path, key: Option<Text>, setup: Setup)
    requires IsContainer(place) && Fits(place, v)
    ensures Passed(place, v, path, key, setup, 0) == []
    ensures Passed(place, v, path, key, setup, |StepsOf(v)|) == Visit(place, v, path, key, setup)
  {
    hide Visit, StepsOf;
    var parts := Parts(place, v, path, key, setup);
    assert parts[..|parts|] == parts && parts[..0] == [];
  }

  lemma VisitLeaf(place: Place, v: Value, path: Path, key: Option<Text>, setup: Setup)
    ensures !IsContainer(place) && !place.MatcherGroup? ==>
              Visit(place, v, path, key, setup) == LeafItems(place, v, path, key, setup)
    ensures IsContainer(place) && !Fits(place, v) ==> Visit(place, v, path, key, setup) == [Noted(path, Fail)]
  {
    hide LeafItems;
  }

  class DocumentExtractor {
    const doc: SourceDocument
    const sourceSha: Option<Text>
    const setup: Setup
    var entries: seq<Entry>
    var incomplete: seq<Incomplete>
    /** The value that pointers are resolved in: set once, by Run, and never changed by redaction. */
    var raw: Value

    constructor (doc: SourceDocument, sourceSha: Option<Text>, setup: Setup)
      ensures this.doc == doc && this.sourceSha == sourceSha && this.setup == setup
      ensures entries == [] && incomplete == [] && raw == Null
    {
      this.doc, this.sourceSha, this.setup := doc, sourceSha, setup;
      entries, incomplete, raw := [], [], Null;
    }

    /** The items have been logged since the log was as given. */
    ghost predicate Logged(entries0: seq<Entry>, incomplete0: seq<Incomplete>, items: seq<Item>)
      reads this`entries, this`incomplete
    {
      && entries == entries0 + EntriesOf(items, doc, sourceSha)
      && incomplete == incomplete0 + FailuresOf(items, doc)
    }

    /** shown is the redacted node at a path, with its pointer and the name that holds it. */
    ghost predicate Located(shown: Value, pointer: Text, path: Path, key: Option<Text>)
      reads this`raw
    {
      && ReadsIndices(setup.number, raw)
      && pointer == PointerTo(path) && NodeAt(raw, path).Some?
      && shown == RedactTree(NodeAt(raw, path).value, key, setup.detector)
    }

    /** The raw node at a path. */
    ghost function Raw(path: Path): Value
      requires NodeAt(raw, path).Some?
      reads this`raw
    {
      NodeAt(raw, path).value
    }

    method Line(pointer: Text) returns (line: Option<nat>)
      ensures line == LineOf(doc, pointer)
    {
      return if pointer in doc.pointers then Some(doc.pointers[pointer].line) else None;
    }

    /** The raw string at a pointer. */
    method RawString(pointer: Text, ghost path: Path) returns (s: Option<Text>)
      requires ReadsIndices(setup.number, raw) && pointer == PointerTo(path) && NodeAt(raw, path).Some?
      ensures s == if Raw(path).Str? then Some(Raw(path).s) else None
    {
      PointersResolve(raw, path, setup.number);
      var value := ValueAt(raw, pointer, setup.number);
      return if value.Some? && value.value.Str? then Some(value.value.s) else None;
    }

    method DigestValue(pointer: Text, ghost path: Path) returns (digest: Option<Value>)
      requires ReadsIndices(setup.number, raw) && pointer == PointerTo(path) && NodeAt(raw, path).Some?
      ensures digest == if Raw(path).Str? then Some(DigestOf(Raw(path).s, setup)) else None
    {
      var s := RawString(pointer, path);
      return if s.None? then None else Some(DigestOf(s.value, setup));
    }

    method AddEntry(kind: Kind, key: Text, value: Value, pointer: Text, ghost path: Path)
      requires pointer == PointerTo(path)
      modifies this`entries
      ensures Logged(old(entries), old(incomplete), [Noted(path, Add(kind, key, value))])
    {
      var line := Line(pointer);
      entries := entries + [Entry(kind, key, value, doc.path, line, Some(pointer), sourceSha)];
    }

    method Failed(pointer: Text, ghost path: Path)
      requires pointer == PointerTo(path)
      modifies this`incomplete
      ensures Logged(old(entries), old(incomplete), [Noted(path, Fail)])
    {
      var line := Line(pointer);
      incomplete := incomplete + [Incomplete(doc.path, pointer, line)];
    }
  
    // ---- bookkeeping of the proofs ----

    lemma Joined(entries0: seq<Entry>, incomplete0: seq<Incomplete>, a: seq<Item>,
                 entries1: seq<Entry>, incomplete1: seq<Incomplete>, b: seq<Item>)
      requires entries1 == entries0 + EntriesOf(a, doc, sourceSha) && incomplete1 == incomplete0 + FailuresOf(a, doc)
      requires Logged(entries1, incomplete1, b)
      ensures Logged(entries0, incomplete0, a + b)
    {
      hide EntriesOf, FailuresOf;
      LogConcat(a, b, doc, sourceSha);
    }

    lemma Begun()
      ensures Logged(entries, incomplete, [])
    {
    }

    /** A child of a located node is located, and the copy has the node's steps. */
    lemma Child(shown: Value, pointer: Text, path: Path, key: Option<Text>, s: Step)
      requires Located(shown, pointer, path, key) && Below(shown, s).Some?
      ensures Located(Below(shown, s).value, pointer + [Grammar.SLASH] + Token(s), path + [s], KeyBelow(s, key))
      ensures Below(Raw(path), s) == Some(Raw(path + [s]))
    {
      hide RedactTree, Token, PointerTo;
      RedactedBelow(Raw(path), key, setup.detector, s);
      NodeSnoc(raw, path, s);
      PointerSnoc(path, s);
    }

    /** The next child of a container. */
    lemma Enter(place: Place, shown: Value, pointer: Text, path: Path, key: Option<Text>, n: nat)
      requires Located(shown, pointer, path, key) && n < |StepsOf(shown)|
      ensures StepsOf(shown) == StepsOf(Raw(path))
      ensures var s := StepsOf(shown)[n];
              && Located(Below(shown, s).value, pointer + [Grammar.SLASH] + Token(s), path + [s], KeyBelow(s, key))
              && Passed(place, Raw(path), path, key, setup, n + 1) == Passed(place, Raw(path), path, key, setup, n)
                   + Visit(ChildPlace(place, s), Raw(path + [s]), path + [s], KeyBelow(s, key), setup)
    {
      hide RedactTree, Token, PointerTo, Visit, StepsOf, Passed, Located;
      Same(shown, pointer, path, key);
      Child(shown, pointer, path, key, StepsOf(shown)[n]);
      PassedNext(place, Raw(path), path, key, setup, n);
    }

    /** The copy of a node has its type and its steps. */
    lemma Same(shown: Value, pointer: Text, path: Path, key: Option<Text>)
      requires Located(shown, pointer, path, key)
      ensures NodeAt(raw, path).Some? && shown == RedactTree(Raw(path), key, setup.detector)
      ensures SameType(Raw(path), shown) && StepsOf(shown) == StepsOf(Raw(path))
    {
      hide StepsOf;
      StepsKept(Raw(path), key, setup.detector);
    }
  
    // ---- settings.json ----

    /** One of the lists of permission rules. */
    method ExtractRuleList(list: Text, value: Value, pointer: Text, ghost path: Path, ghost key: Option<Text>)
      requires Located(value, pointer, path, key)
      modifies this`entries, this`incomplete
      ensures Logged(old(entries), old(incomplete), Visit(RuleList(list), Raw(path), path, key, setup))
    {
      hide Visit, LeafItems, EntriesOf, FailuresOf, Passed, RedactTree, StepsOf, PointerTo, KeysOf, Escape, Ascii,
           NodeAt;
      Same(value, pointer, path, key);
      if !value.Arr? {
        VisitLeaf(RuleList(list), Raw(path), path, key, setup);
        Failed(pointer, path);
        return;
      }
      PassedAll(RuleList(list), Raw(path), path, key, setup);
      Begun();
      ItemSteps(value);
      for i := 0 to |value.items|
        invariant Logged(old(entries), old(incomplete), Passed(RuleList(list), Raw(path), path, key, setup, i))
      {
        ghost var entries1, incomplete1 := entries, incomplete;
        Enter(RuleList(list), value, pointer, path, key, i);
        ExtractRule(list, value.items[i], pointer + [Grammar.SLASH] + Decimal(i), path + [Index(i)], key);
        Joined(old(entries), old(incomplete), Passed(RuleList(list), Raw(path), path, key, setup, i), entries1,
          incomplete1,
               Visit(ChildPlace(RuleList(list), Index(i)), Raw(path + [Index(i)]), path + [Index(i)], key, setup));
      }
    }

    method ExtractRule(list: Text, item: Value, pointer: Text, ghost path: Path, ghost key: Option<Text>)
      requires Located(item, pointer, path, key)
      modifies this`entries, this`incomplete
      ensures Logged(old(entries), old(incomplete), Visit(Rule(list), Raw(path), path, key, setup))
    {
      hide Visit, EntriesOf, FailuresOf, RedactTree, PointerTo, NormalizeRule, Ascii, RuleKeyOf, RuleValue, NodeAt;
      VisitLeaf(Rule(list), Raw(path), path, key, setup);
      if !item.Str? {
        Failed(pointer, path);
        return;
      }
      var parsed := NormalizeRule(item.s);
      if parsed.tool == [] {
        Failed(pointer, path);
        return;
      }
      AddEntry(Perm, RuleKeyOf(list, parsed.rule), RuleValue(parsed), pointer, path);
    }
  
    /** The additional directories. */
    method ExtractDirectories(value: Value, pointer: Text, ghost path: Path, ghost key: Option<Text>)
      requires Located(value, pointer, path, key)
      modifies this`entries, this`incomplete
      ensures Logged(old(entries), old(incomplete), Visit(Directories, Raw(path), path, key, setup))
    {
      hide Visit, LeafItems, EntriesOf, FailuresOf, Passed, RedactTree, StepsOf, PointerTo, KeysOf, Escape, Ascii,
           NodeAt;
      Same(value, pointer, path, key);
      if !value.Arr? {
        VisitLeaf(Directories, Raw(path), path, key, setup);
        Failed(pointer, path);
        return;
      }
      PassedAll(Directories, Raw(path), path, key, setup);
      Begun();
      ItemSteps(value);
      for i := 0 to |value.items|
        invariant Logged(old(entries), old(incomplete), Passed(Directories, Raw(path), path, key, setup, i))
      {
        ghost var entries1, incomplete1 := entries, incomplete;
        Enter(Directories, value, pointer, path, key, i);
        ExtractDirectory(value.items[i], pointer + [Grammar.SLASH] + Decimal(i), path + [Index(i)], key);
        Joined(old(entries), old(incomplete), Passed(Directories, Raw(path), path, key, setup, i), entries1,
          incomplete1,
               Visit(ChildPlace(Directories, Index(i)), Raw(path + [Index(i)]), path + [Index(i)], key, setup));
      }
    }

    method ExtractDirectory(value: Value, pointer: Text, ghost path: Path, ghost key: Option<Text>)
      requires Located(value, pointer, path, key)
      modifies this`entries, this`incomplete
      ensures Logged(old(entries), old(incomplete), Visit(Directory, Raw(path), path, key, setup))
    {
      hide Visit, EntriesOf, FailuresOf, RedactTree, PointerTo, NodeAt, Ascii, Trim;
      VisitLeaf(Directory, Raw(path), path, key, setup);
      if !value.Str? {
        Failed(pointer, path);
        return;
      }
      var trimmed := Trim(value.s);
      if trimmed == [] {
        Failed(pointer, path);
        return;
      }
      AddEntry(Dir, Ascii("dir:") + trimmed, Obj(map[RAW := Str(value.s), Ascii("path") := Str(trimmed)]), pointer,
        path);
    }

    method ExtractMode(name: Text, value: Value, pointer: Text, ghost path: Path, ghost key: Option<Text>)
      requires Located(value, pointer, path, key)
      modifies this`entries, this`incomplete
      ensures Logged(old(entries), old(incomplete), Visit(ModeKey(name), Raw(path), path, key, setup))
    {
      hide Visit, EntriesOf, FailuresOf, RedactTree, PointerTo, NodeAt, Ascii;
      VisitLeaf(ModeKey(name), Raw(path), path, key, setup);
      if !value.Str? {
        Failed(pointer, path);
      } else {
        AddEntry(Mode, Ascii("mode:") + name, Obj(map[RAW := value, Ascii("mode") := value]), pointer, path);
      }
    }

    method ExtractUnmodeled(value: Value, pointer: Text, ghost path: Path, ghost key: Option<Text>)
      requires Located(value, pointer, path, key)
      modifies this`entries, this`incomplete
      ensures Logged(old(entries), old(incomplete), Visit(Unmodeled, Raw(path), path, key, setup))
    {
      hide Visit, EntriesOf, FailuresOf, RedactTree, PointerTo, NodeAt, Ascii;
      VisitLeaf(Unmodeled, Raw(path), path, key, setup);
      AddEntry(Unknown, Ascii("unknown:") + pointer, value, pointer, path);
    }

    /** The permissions object, key by key. */
    method ExtractPermissions(value: Value, pointer: Text, ghost path: Path, ghost key: Option<Text>)
      requires Located(value, pointer, path, key)
      modifies this`entries, this`incomplete
      ensures Logged(old(entries), old(incomplete), Visit(Permissions, Raw(path), path, key, setup))
    {
      hide Visit, LeafItems, EntriesOf, FailuresOf, Passed, RedactTree, StepsOf, PointerTo, KeysOf, Escape, Ascii,
           NodeAt;
      Same(value, pointer, path, key);
      if !value.Obj? {
        VisitLeaf(Permissions, Raw(path), path, key, setup);
        Failed(pointer, path);
        return;
      }
      PassedAll(Permissions, Raw(path), path, key, setup);
      Begun();
      KeySteps(value);
      var keys := KeysOf(value.members);
      for i := 0 to |keys|
        invariant Logged(old(entries), old(incomplete), Passed(Permissions, Raw(path), path, key, setup, i))
      {
        ghost var entries1, incomplete1 := entries, incomplete;
        var name := keys[i];
        assert name in keys;
        Enter(Permissions, value, pointer, path, key, i);
        ExtractPermission(name, value.members[name], pointer + [Grammar.SLASH] + Escape(name), path + [Key(name)],
          Some(name));
        Joined(old(entries), old(incomplete), Passed(Permissions, Raw(path), path, key, setup, i), entries1,
          incomplete1,
               Visit(ChildPlace(Permissions, Key(name)), Raw(path + [Key(name)]), path + [Key(name)], Some(name),
                 setup));
      }
    }

    method ExtractPermission(name: Text, value: Value, pointer: Text, ghost path: Path, ghost key: Option<Text>)
      requires Located(value, pointer, path, key)
      modifies this`entries, this`incomplete
      ensures Logged(old(entries), old(incomplete), Visit(PermissionsPlace(name), Raw(path), path, key, setup))
    {
      hide Visit, EntriesOf, FailuresOf, RedactTree, PointerTo, NodeAt, Ascii;
      if IsPermissionList(name) {
        ExtractRuleList(name, value, pointer, path, key);
      } else if name == Ascii("additionalDirectories") {
        ExtractDirectories(value, pointer, path, key);
      } else if IsModeKey(name) {
        ExtractMode(name, value, pointer, path, key);
      } else {
        ExtractUnmodeled(value, pointer, path, key);
      }
    }

    /** The environment: values are never carried, their digests are. */
    method ExtractEnv(value: Value, pointer: Text, ghost path: Path, ghost key: Option<Text>)
      requires Located(value, pointer, path, key)
      modifies this`entries, this`incomplete
      ensures Logged(old(entries), old(incomplete), Visit(Env, Raw(path), path, key, setup))
    {
      hide Visit, LeafItems, EntriesOf, FailuresOf, Passed, RedactTree, StepsOf, PointerTo, KeysOf, Escape, Ascii,
           NodeAt;
      Same(value, pointer, path, key);
      if !value.Obj? {
        VisitLeaf(Env, Raw(path), path, key, setup);
        Failed(pointer, path);
        return;
      }
      PassedAll(Env, Raw(path), path, key, setup);
      Begun();
      KeySteps(value);
      var keys := KeysOf(value.members);
      for i := 0 to |keys|
        invariant Logged(old(entries), old(incomplete), Passed(Env, Raw(path), path, key, setup, i))
      {
        ghost var entries1, incomplete1 := entries, incomplete;
        var name := keys[i];
        assert name in keys;
        Enter(Env, value, pointer, path, key, i);
        ExtractEnvName(name, value.members[name], pointer + [Grammar.SLASH] + Escape(name), path + [Key(name)],
          Some(name));
        Joined(old(entries), old(incomplete), Passed(Env, Raw(path), path, key, setup, i), entries1, incomplete1,
               Visit(ChildPlace(Env, Key(name)), Raw(path + [Key(name)]), path + [Key(name)], Some(name), setup));
      }
    }

    method ExtractEnvName(name: Text, value: Value, pointer: Text, ghost path: Path, ghost key: Option<Text>)
      requires Located(value, pointer, path, key)
      modifies this`entries, this`incomplete
      ensures Logged(old(entries), old(incomplete), Visit(EnvName(name), Raw(path), path, key, setup))
    {
      hide Visit, EntriesOf, FailuresOf, RedactTree, PointerTo, NodeAt, Ascii, DigestOf;
      VisitLeaf(EnvName(name), Raw(path), path, key, setup);
      Same(value, pointer, path, key);
      if !value.Str? {
        Failed(pointer, path);
        return;
      }
      var digest := DigestValue(pointer, path);
      AddEntry(EnvKey, Ascii("env_key:") + name, digest.value, pointer, path);
    }

    /** The sandbox settings. */
    method ExtractSandbox(value: Value, pointer: Text, ghost path: Path, ghost key: Option<Text>)
      requires Located(value, pointer, path, key)
      modifies this`entries, this`incomplete
      ensures Logged(old(entries), old(incomplete), Visit(SandboxRoot, Raw(path), path, key, setup))
    {
      hide Visit, LeafItems, EntriesOf, FailuresOf, Passed, RedactTree, StepsOf, PointerTo, KeysOf, Escape, Ascii,
           NodeAt;
      Same(value, pointer, path, key);
      if !value.Obj? {
        VisitLeaf(SandboxRoot, Raw(path), path, key, setup);
        Failed(pointer, path);
        return;
      }
      PassedAll(SandboxRoot, Raw(path), path, key, setup);
      Begun();
      KeySteps(value);
      var keys := KeysOf(value.members);
      for i := 0 to |keys|
        invariant Logged(old(entries), old(incomplete), Passed(SandboxRoot, Raw(path), path, key, setup, i))
      {
        ghost var entries1, incomplete1 := entries, incomplete;
        var name := keys[i];
        assert name in keys;
        Enter(SandboxRoot, value, pointer, path, key, i);
        ExtractSandboxKey(name, value.members[name], pointer + [Grammar.SLASH] + Escape(name), path + [Key(name)],
          Some(name));
        Joined(old(entries), old(incomplete), Passed(SandboxRoot, Raw(path), path, key, setup, i), entries1,
          incomplete1,
               Visit(ChildPlace(SandboxRoot, Key(name)), Raw(path + [Key(name)]), path + [Key(name)], Some(name),
                 setup));
      }
    }

    method ExtractSandboxKey(name: Text, value: Value, pointer: Text, ghost path: Path, ghost key: Option<Text>)
      requires Located(value, pointer, path, key)
      modifies this`entries, this`incomplete
      ensures Logged(old(entries), old(incomplete), Visit(SandboxKey(name), Raw(path), path, key, setup))
    {
      hide Visit, EntriesOf, FailuresOf, RedactTree, PointerTo, NodeAt, Ascii;
      VisitLeaf(SandboxKey(name), Raw(path), path, key, setup);
      AddEntry(Sandbox, Ascii("sandbox:") + name, value, pointer, path);
    }

    method ExtractHelper(name: Text, value: Value, pointer: Text, ghost path: Path, ghost key: Option<Text>)
      requires Located(value, pointer, path, key)
      modifies this`entries, this`incomplete
      ensures Logged(old(entries), old(incomplete), Visit(HelperKey(name), Raw(path), path, key, setup))
    {
      hide Visit, EntriesOf, FailuresOf, RedactTree, PointerTo, NodeAt, Ascii;
      VisitLeaf(HelperKey(name), Raw(path), path, key, setup);
      Same(value, pointer, path, key);
      if !value.Str? {
        Failed(pointer, path);
        return;
      }
      var helper := map[Ascii("command") := value];
      var s := RawString(pointer, path);
      if s.Some? && s.value != value.s {
        helper := helper[ShaName(Ascii("command")) := Str(setup.sha(s.value))];
      }
      HelperMembers(value, Raw(path), setup, helper);
      AddEntry(Helper, Ascii("helper:") + name, Obj(helper), pointer, path);
    }
  
    /** Hook events, each with its matcher groups. */
    method ExtractHooks(value: Value, pointer: Text, ghost path: Path, ghost key: Option<Text>)
      requires Located(value, pointer, path, key)
      modifies this`entries, this`incomplete
      ensures Logged(old(entries), old(incomplete), Visit(Hooks, Raw(path), path, key, setup))
    {
      hide Visit, LeafItems, EntriesOf, FailuresOf, Passed, RedactTree, StepsOf, PointerTo, KeysOf, Escape, Ascii,
           NodeAt;
      Same(value, pointer, path, key);
      if !value.Obj? {
        VisitLeaf(Hooks, Raw(path), path, key, setup);
        Failed(pointer, path);
        return;
      }
      PassedAll(Hooks, Raw(path), path, key, setup);
      Begun();
      KeySteps(value);
      var keys := KeysOf(value.members);
      for i := 0 to |keys|
        invariant Logged(old(entries), old(incomplete), Passed(Hooks, Raw(path), path, key, setup, i))
      {
        ghost var entries1, incomplete1 := entries, incomplete;
        var name := keys[i];
        assert name in keys;
        Enter(Hooks, value, pointer, path, key, i);
        ExtractEvent(name, value.members[name], pointer + [Grammar.SLASH] + Escape(name), path + [Key(name)],
          Some(name));
        Joined(old(entries), old(incomplete), Passed(Hooks, Raw(path), path, key, setup, i), entries1, incomplete1,
               Visit(ChildPlace(Hooks, Key(name)), Raw(path + [Key(name)]), path + [Key(name)], Some(name), setup));
      }
    }

    /** The matcher groups of one event. */
    method ExtractEvent(event: Text, value: Value, pointer: Text, ghost path: Path, ghost key: Option<Text>)
      requires Located(value, pointer, path, key)
      modifies this`entries, this`incomplete
      ensures Logged(old(entries), old(incomplete), Visit(HookEvent(event), Raw(path), path, key, setup))
    {
      hide Visit, LeafItems, EntriesOf, FailuresOf, Passed, RedactTree, StepsOf, PointerTo, KeysOf, Escape, Ascii,
           NodeAt;
      Same(value, pointer, path, key);
      if !value.Arr? {
        VisitLeaf(HookEvent(event), Raw(path), path, key, setup);
        Failed(pointer, path);
        return;
      }
      PassedAll(HookEvent(event), Raw(path), path, key, setup);
      Begun();
      ItemSteps(value);
      for i := 0 to |value.items|
        invariant Logged(old(entries), old(incomplete), Passed(HookEvent(event), Raw(path), path, key, setup, i))
      {
        ghost var entries1, incomplete1 := entries, incomplete;
        Enter(HookEvent(event), value, pointer, path, key, i);
        ExtractGroup(event, value.items[i], pointer + [Grammar.SLASH] + Decimal(i), path + [Index(i)], key);
        Joined(old(entries), old(incomplete), Passed(HookEvent(event), Raw(path), path, key, setup, i), entries1,
          incomplete1,
               Visit(ChildPlace(HookEvent(event), Index(i)), Raw(path + [Index(i)]), path + [Index(i)], key, setup));
      }
    }

    /** One matcher group: its matcher, then its hook definitions. */
    method ExtractGroup(event: Text, group: Value, pointer: Text, ghost path: Path, ghost key: Option<Text>)
      requires Located(group, pointer, path, key)
      modifies this`entries, this`incomplete
      ensures Logged(old(entries), old(incomplete), Visit(MatcherGroup(event), Raw(path), path, key, setup))
    {
      hide Visit, VisitGroup, EntriesOf, FailuresOf, Located, PointerTo, NodeAt, Ascii, MatcherOf, BadMatcher, Below;
      Same(group, pointer, path, key);
      GroupVisit(event, Raw(path), path, key, setup);
      if !group.Obj? {
        assert pointer == PointerTo(path) by { assert Located(group, pointer, path, key); GroupPointer(group, pointer,
          path, key); }
        Failed(pointer, path);
        return;
      }
      GroupMembers(group, pointer, path, key);
      var matcher: Option<Text> := None;
      if MATCHER.name in group.members {
        if !group.members[MATCHER.name].Str? {
          Failed(pointer + [Grammar.SLASH] + MATCHER.name, path + [MATCHER]);
          return;
        }
        matcher := Some(group.members[MATCHER.name].s);
      }
      if HOOKS.name !in group.members {
        Failed(pointer + [Grammar.SLASH] + HOOKS.name, path + [HOOKS]);
        return;
      }
      ExtractHookList(event, matcher, group.members[HOOKS.name], pointer + [Grammar.SLASH] + HOOKS.name,
                      path + [HOOKS], Some(HOOKS.name));
    }

    lemma GroupPointer(group: Value, pointer: Text, path: Path, key: Option<Text>)
      requires Located(group, pointer, path, key)
      ensures pointer == PointerTo(path)
    {
      hide PointerTo, RedactTree;
    }

    /** What a group's copy says about the raw group. */
    lemma GroupMembers(group: Value, pointer: Text, path: Path, key: Option<Text>)
      requires Located(group, pointer, path, key) && group.Obj?
      ensures NodeAt(raw, path).Some?
      ensures pointer + [Grammar.SLASH] + MATCHER.name == PointerTo(path + [MATCHER])
      ensures pointer + [Grammar.SLASH] + HOOKS.name == PointerTo(path + [HOOKS])
      ensures MATCHER.name in group.members && !group.members[MATCHER.name].Str? <==> BadMatcher(Raw(path))
      ensures !BadMatcher(Raw(path)) ==>
                MatcherOf(Raw(path), setup)
                == if MATCHER.name in group.members then Some(group.members[MATCHER.name].s) else None
      ensures HOOKS.name in group.members <==> Below(Raw(path), HOOKS).Some?
      ensures HOOKS.name in group.members ==>
                && Located(group.members[HOOKS.name], pointer + [Grammar.SLASH] + HOOKS.name, path + [HOOKS],
                  Some(HOOKS.name))
                && Below(Raw(path), HOOKS) == Some(Raw(path + [HOOKS]))
    {
      hide PointerTo, NodeAt, Ascii, Redaction, Escape;
      PlainNames();
      Member(group, pointer, path, key, MATCHER.name);
      Member(group, pointer, path, key, HOOKS.name);
      RedactedBelow(Raw(path), key, setup.detector, MATCHER);
    }

    /** A member with a plain name: its pointer, its place and its type. */
    lemma Member(value: Value, pointer: Text, path: Path, key: Option<Text>, name: Text)
      requires Located(value, pointer, path, key) && value.Obj? && Escape(name) == name
      ensures NodeAt(raw, path).Some? && Raw(path).Obj?
      ensures pointer + [Grammar.SLASH] + name == PointerTo(path + [Key(name)])
      ensures FieldOf(value, name).Some? <==> FieldOf(Raw(path), name).Some?
      ensures FieldOf(value, name).Some? ==>
                && Located(value.members[name], pointer + [Grammar.SLASH] + name, path + [Key(name)], Some(name))
                && FieldOf(Raw(path), name) == Some(Raw(path + [Key(name)]))
                && SameType(value.members[name], FieldOf(Raw(path), name).value)
    {
      hide PointerTo, NodeAt, Redaction, Escape, StepsOf;
      Same(value, pointer, path, key);
      PointerSnoc(path, Key(name));
      RedactedBelow(Raw(path), key, setup.detector, Key(name));
      if name in value.members { Child(value, pointer, path, key, Key(name)); }
    }

    /** Gives each of the fields a digest exactly if redaction changed what it prints as. */
    method DigestRedacted(value: map<Text, Value>, pointer: Text, fields: seq<Text>, ghost path: Path)
      returns (out: map<Text, Value>)
      requires ReadsIndices(setup.number, raw) && pointer == PointerTo(path)
      requires NodeAt(raw, path).Some? && Raw(path).Obj?
      requires DigestFields(value, fields)
      ensures out == Digested(value, Raw(path), fields, setup)
    {
      hide NodeAt, PointerTo, FieldDigest, Escape, ShaName, Digested;
      out := value;
      DigestedNone(value, Raw(path), fields, setup);
      for i := 0 to |fields|
        invariant out == Digested(value, Raw(path), fields[..i], setup)
        invariant forall f | f in fields :: f in out && out[f] == value[f]
      {
        var field := fields[i];
        assert field in fields;
        var digest := RedactedDigest(out[field], pointer, field, path);
        DigestedNext(value, Raw(path), fields[..i], field, setup);
        assert fields[..i + 1] == fields[..i] + [field];
        if digest.Some? {
          out := out[ShaName(field) := Str(digest.value)];
        }
      }
      assert fields[..|fields|] == fields;
    }

    /** The digest that one field needs, if any. */
    method RedactedDigest(shown: Value, pointer: Text, field: Text, ghost path: Path) returns (digest: Option<Text>)
      requires ReadsIndices(setup.number, raw) && pointer == PointerTo(path)
      requires NodeAt(raw, path).Some? && Raw(path).Obj?
      requires Escape(field) == field
      ensures digest == FieldDigest(shown, FieldOf(Raw(path), field), setup)
    {
      hide NodeAt, PointerTo, Resolve, Print, Escape;
      PointerSnoc(path, Key(field));
      MemberResolves(raw, path, field, setup.number);
      var found := ValueAt(raw, pointer + [Grammar.SLASH] + field, setup.number);
      if shown.Null? || found.None? || found.value.Null? || Print(shown, None) == Print(found.value, None) {
        return None;
      }
      return Some(setup.sha(RawText(found.value)));
    }

    /** The hook definitions of one group. */
    method ExtractHookList(event: Text, matcher: Option<Text>, value: Value, pointer: Text, ghost path: Path,
      ghost key: Option<Text>)
      requires Located(value, pointer, path, key)
      modifies this`entries, this`incomplete
      ensures Logged(old(entries), old(incomplete), Visit(HookList(event, matcher), Raw(path), path, key, setup))
    {
      hide Visit, LeafItems, EntriesOf, FailuresOf, Passed, RedactTree, StepsOf, PointerTo, KeysOf, Escape, Ascii,
           NodeAt;
      Same(value, pointer, path, key);
      if !value.Arr? {
        VisitLeaf(HookList(event, matcher), Raw(path), path, key, setup);
        Failed(pointer, path);
        return;
      }
      PassedAll(HookList(event, matcher), Raw(path), path, key, setup);
      Begun();
      ItemSteps(value);
      for i := 0 to |value.items|
        invariant Logged(old(entries), old(incomplete), Passed(HookList(event, matcher), Raw(path), path, key, setup,
          i))
      {
        ghost var entries1, incomplete1 := entries, incomplete;
        Enter(HookList(event, matcher), value, pointer, path, key, i);
        ExtractHook(event, matcher, value.items[i], pointer + [Grammar.SLASH] + Decimal(i), path + [Index(i)], key);
        Joined(old(entries), old(incomplete), Passed(HookList(event, matcher), Raw(path), path, key, setup, i),
          entries1, incomplete1,
               Visit(ChildPlace(HookList(event, matcher), Index(i)), Raw(path + [Index(i)]), path + [Index(i)], key,
                 setup));
      }
    }
  
    /** Logs the one item of a hook definition. */
    method ExtractHook(event: Text, matcher: Option<Text>, value: Value, pointer: Text, ghost path: Path,
      ghost key: Option<Text>)
      requires Located(value, pointer, path, key)
      modifies this`entries, this`incomplete
      ensures Logged(old(entries), old(incomplete), Visit(HookDefinition(event, matcher), Raw(path), path, key, setup))
    {
      hide Visit, EntriesOf, FailuresOf, RedactTree, PointerTo, NodeAt, Ascii, Escape, HookKey, HookValue, HookBase,
           Digested, StepsOf, Print;
      VisitLeaf(HookDefinition(event, matcher), Raw(path), path, key, setup);
      Same(value, pointer, path, key);
      if !value.Obj? {
        Failed(pointer, path);
        return;
      }
      PlainNames();
      Member(value, pointer, path, key, Ascii("command"));
      Member(value, pointer, path, key, Ascii("prompt"));
      var command, prompt := FieldOf(value, Ascii("command")), FieldOf(value, Ascii("prompt"));
      var text: Option<Text> := None;
      // What is hashed into the key is the text before redaction, so hooks that look alike stay apart.
      if command.Some? && command.value.Str? {
        text := RawString(pointer + [Grammar.SLASH] + Ascii("command"), path + [Key(Ascii("command"))]);
      } else if prompt.Some? && prompt.value.Str? {
        text := RawString(pointer + [Grammar.SLASH] + Ascii("prompt"), path + [Key(Ascii("prompt"))]);
      }
      if text.None? {
        Failed(pointer, path);
        return;
      }
      var shown := HookBase(event, matcher, value);
      HookBaseFields(event, matcher, value);
      shown := DigestRedacted(shown, pointer, [Ascii("command"), Ascii("prompt")], path);
      HookMembers(event, matcher, value, Raw(path), setup);
      AddEntry(Hook, HookKey(event, matcher, text.value, setup), Obj(shown), pointer, path);
    }
  
    /** A flag that is a list of server names, or any other flag as it is. */
    method ExtractPluginFlag(name: Text, value: Value, pointer: Text, ghost path: Path, ghost key: Option<Text>)
      requires Located(value, pointer, path, key)
      modifies this`entries, this`incomplete
      ensures Logged(old(entries), old(incomplete), Visit(FlagKey(name), Raw(path), path, key, setup))
    {
      hide Visit, EntriesOf, FailuresOf, RedactTree, PointerTo, NodeAt, Ascii, StepsOf, NonStrings, SortedNames;
      VisitLeaf(FlagKey(name), Raw(path), path, key, setup);
      var flagKey := Ascii("plugin_flag:") + name;
      if !IsNameList(name) {
        AddEntry(PluginFlag, flagKey, value, pointer, path);
      } else if !value.Arr? {
        Failed(pointer, path);
      } else {
        Begun();
        var names, usable := ListNames(value.items, pointer, path);
        if usable {
          AddEntry(PluginFlag, flagKey, Obj(map[RAW := value, Ascii("names") := names]), pointer, path);
        }
      }
    }

    /** The sorted names of a list; every element that is not a string fails. */
    method ListNames(items: seq<Value>, pointer: Text, ghost path: Path) returns (sorted: Value, usable: bool)
      requires pointer == PointerTo(path)
      modifies this`incomplete
      ensures Logged(old(entries), old(incomplete), NonStrings(items, path))
      ensures usable <==> NonStrings(items, path) == []
      ensures usable ==> sorted == SortedNames(items)
    {
      hide EntriesOf, FailuresOf, PointerTo, NonStrings, Less, Decimal;
      var names := {};
      usable := true;
      Begun();
      NoneBefore(items, path);
      for i := 0 to |items|
        invariant Logged(old(entries), old(incomplete), NonStrings(items[..i], path))
        invariant usable <==> NonStrings(items[..i], path) == []
        invariant names == set v | v in items[..i] && v.Str? :: v.s
      {
        NextNonString(items, i, path);
        assert items[..i + 1] == items[..i] + [items[i]];
        if !items[i].Str? {
          ghost var entries1, incomplete1 := entries, incomplete;
          PointerSnoc(path, Index(i));
          Failed(pointer + [Grammar.SLASH] + Decimal(i), path + [Index(i)]);
          Joined(old(entries), old(incomplete), NonStrings(items[..i], path), entries1, incomplete1,
            [Noted(path + [Index(i)], Fail)]);
          usable := false;
        } else {
          names := names + {items[i].s};
        }
      }
      assert items[..|items|] == items;
      Sorting.LessIsStrictTotal();
      sorted := TextList(Sorting.SortSet(names, Less));
    }

    // ---- .mcp.json ----

    /** The servers, name by name. */
    method ExtractServers(value: Value, pointer: Text, ghost path: Path, ghost key: Option<Text>)
      requires Located(value, pointer, path, key)
      modifies this`entries, this`incomplete
      ensures Logged(old(entries), old(incomplete), Visit(Servers, Raw(path), path, key, setup))
    {
      hide Visit, LeafItems, EntriesOf, FailuresOf, Passed, RedactTree, StepsOf, PointerTo, KeysOf, Escape, Ascii,
           NodeAt;
      Same(value, pointer, path, key);
      if !value.Obj? {
        VisitLeaf(Servers, Raw(path), path, key, setup);
        Failed(pointer, path);
        return;
      }
      PassedAll(Servers, Raw(path), path, key, setup);
      Begun();
      KeySteps(value);
      var keys := KeysOf(value.members);
      for i := 0 to |keys|
        invariant Logged(old(entries), old(incomplete), Passed(Servers, Raw(path), path, key, setup, i))
      {
        ghost var entries1, incomplete1 := entries, incomplete;
        var name := keys[i];
        assert name in keys;
        Enter(Servers, value, pointer, path, key, i);
        ExtractMcpServer(name, value.members[name], pointer + [Grammar.SLASH] + Escape(name), path + [Key(name)],
          Some(name));
        Joined(old(entries), old(incomplete), Passed(Servers, Raw(path), path, key, setup, i), entries1, incomplete1,
               Visit(ChildPlace(Servers, Key(name)), Raw(path + [Key(name)]), path + [Key(name)], Some(name), setup));
      }
    }

    method ExtractMcpKey(name: Text, value: Value, pointer: Text, ghost path: Path, ghost key: Option<Text>)
      requires Located(value, pointer, path, key)
      modifies this`entries, this`incomplete
      ensures Logged(old(entries), old(incomplete), Visit(ChildPlace(McpRoot, Key(name)), Raw(path), path, key, setup))
    {
      hide Visit, EntriesOf, FailuresOf, RedactTree, PointerTo, NodeAt, Ascii;
      if name != Ascii("mcpServers") {
        ExtractUnmodeled(value, pointer, path, key);
      } else {
        ExtractServers(value, pointer, path, key);
      }
    }

    /** An MCP file, key by key. */
    method ExtractMcpFile(value: Value, pointer: Text, ghost path: Path, ghost key: Option<Text>)
      requires Located(value, pointer, path, key)
      modifies this`entries, this`incomplete
      ensures Logged(old(entries), old(incomplete), Visit(McpRoot, Raw(path), path, key, setup))
    {
      hide Visit, LeafItems, EntriesOf, FailuresOf, Passed, RedactTree, StepsOf, PointerTo, KeysOf, Escape, Ascii,
           NodeAt;
      Same(value, pointer, path, key);
      if !value.Obj? {
        VisitLeaf(McpRoot, Raw(path), path, key, setup);
        Failed(pointer, path);
        return;
      }
      PassedAll(McpRoot, Raw(path), path, key, setup);
      Begun();
      KeySteps(value);
      var keys := KeysOf(value.members);
      for i := 0 to |keys|
        invariant Logged(old(entries), old(incomplete), Passed(McpRoot, Raw(path), path, key, setup, i))
      {
        ghost var entries1, incomplete1 := entries, incomplete;
        var name := keys[i];
        assert name in keys;
        Enter(McpRoot, value, pointer, path, key, i);
        ExtractMcpKey(name, value.members[name], pointer + [Grammar.SLASH] + Escape(name), path + [Key(name)],
          Some(name));
        Joined(old(entries), old(incomplete), Passed(McpRoot, Raw(path), path, key, setup, i), entries1, incomplete1,
               Visit(ChildPlace(McpRoot, Key(name)), Raw(path + [Key(name)]), path + [Key(name)], Some(name), setup));
      }
    }

    /** A settings file, key by key. */
    method ExtractSettings(value: Value, pointer: Text, ghost path: Path, ghost key: Option<Text>)
      requires Located(value, pointer, path, key)
      modifies this`entries, this`incomplete
      ensures Logged(old(entries), old(incomplete), Visit(SettingsRoot, Raw(path), path, key, setup))
    {
      hide Visit, LeafItems, EntriesOf, FailuresOf, Passed, RedactTree, StepsOf, PointerTo, KeysOf, Escape, Ascii,
           NodeAt;
      Same(value, pointer, path, key);
      if !value.Obj? {
        VisitLeaf(SettingsRoot, Raw(path), path, key, setup);
        Failed(pointer, path);
        return;
      }
      PassedAll(SettingsRoot, Raw(path), path, key, setup);
      Begun();
      KeySteps(value);
      var keys := KeysOf(value.members);
      for i := 0 to |keys|
        invariant Logged(old(entries), old(incomplete), Passed(SettingsRoot, Raw(path), path, key, setup, i))
      {
        ghost var entries1, incomplete1 := entries, incomplete;
        var name := keys[i];
        assert name in keys;
        Enter(SettingsRoot, value, pointer, path, key, i);
        ExtractSetting(name, value.members[name], pointer + [Grammar.SLASH] + Escape(name), path + [Key(name)],
          Some(name));
        Joined(old(entries), old(incomplete), Passed(SettingsRoot, Raw(path), path, key, setup, i), entries1,
          incomplete1,
               Visit(ChildPlace(SettingsRoot, Key(name)), Raw(path + [Key(name)]), path + [Key(name)], Some(name),
                 setup));
      }
    }

    method ExtractSetting(name: Text, value: Value, pointer: Text, ghost path: Path, ghost key: Option<Text>)
      requires Located(value, pointer, path, key)
      modifies this`entries, this`incomplete
      ensures Logged(old(entries), old(incomplete), Visit(SettingsPlace(name), Raw(path), path, key, setup))
    {
      hide Visit, EntriesOf, FailuresOf, RedactTree, PointerTo, NodeAt, Ascii;
      if name == Ascii("permissions") {
        ExtractPermissions(value, pointer, path, key);
      } else if name == Ascii("hooks") {
        ExtractHooks(value, pointer, path, key);
      } else if name == Ascii("env") {
        ExtractEnv(value, pointer, path, key);
      } else if name == Ascii("sandbox") {
        ExtractSandbox(value, pointer, path, key);
      } else if IsHelperKey(name) {
        ExtractHelper(name, value, pointer, path, key);
      } else if IsFlagKey(name) {
        ExtractPluginFlag(name, value, pointer, path, key);
      } else {
        ExtractUnmodeled(value, pointer, path, key);
      }
    }

    // ---- one MCP server ----

    /** Returns the digests of the string members, and logs a failure for each of the others. */
    method ExtractDigestMap(value: Option<Value>, pointer: Text, ghost path: Path, ghost key: Option<Text>)
      returns (digests: Value)
      requires value.Some? ==> Located(value.value, pointer, path, key)
      modifies this`incomplete
      ensures digests == DigestMap(if value.Some? then Some(Raw(path)) else None, setup)
      ensures Logged(old(entries), old(incomplete), DigestFailures(if value.Some? then Some(Raw(path)) else None, path))
    {
      hide EntriesOf, FailuresOf, PointerTo, NodeAt, RedactTree, StepsOf, DigestOf, MapFailures, SortedKeys, Escape;
      Begun();
      if value.None? {
        return Null;
      }
      Same(value.value, pointer, path, key);
      if !value.value.Obj? {
        return Null;
      }
      KeysKept(value.value, pointer, path, key);
      ghost var members := Raw(path).members;
      var names := SortedKeys(value.value.members);
      var out: map<Text, Value> := map[];
      NoFailures(members, path, names);
      for i := 0 to |names|
        invariant forall name :: name in out <==> name in names[..i] && members[name].Str?
        invariant forall name | name in out :: out[name] == DigestOf(members[name].s, setup)
        invariant Logged(old(entries), old(incomplete), MapFailures(members, names[..i], path))
      {
        var name := names[i];
        assert name in names && names[..i + 1] == names[..i] + [name];
        NextFailure(members, names[..i], name, path);
        Child(value.value, pointer, path, key, Key(name));
        var digest := DigestValue(pointer + [Grammar.SLASH] + Escape(name), path + [Key(name)]);
        if digest.None? {
          ghost var entries1, incomplete1 := entries, incomplete;
          Failed(pointer + [Grammar.SLASH] + Escape(name), path + [Key(name)]);
          Joined(old(entries), old(incomplete), MapFailures(members, names[..i], path), entries1, incomplete1,
                 [Noted(path + [Key(name)], Fail)]);
        } else {
          out := out[name := digest.value];
        }
      }
      assert names[..|names|] == names;
      return Obj(out);
    }

    /** Fails for a member, when there is reason to. */
    method FailMember(bad: bool, name: Text, pointer: Text, ghost path: Path)
      requires pointer == PointerTo(path) && Escape(name) == name
      modifies this`incomplete
      ensures Logged(old(entries), old(incomplete), FailIf(bad, path + [Key(name)]))
    {
      hide EntriesOf, FailuresOf, PointerTo, Escape;
      Begun();
      if bad {
        PointerSnoc(path, Key(name));
        Failed(pointer + [Grammar.SLASH] + name, path + [Key(name)]);
      }
    }

    /** The digest map of a member, if the server has it. */
    method DigestMember(value: Value, name: Text, pointer: Text, ghost path: Path, ghost key: Option<Text>)
      returns (digests: Value)
      requires Located(value, pointer, path, key) && value.Obj? && Escape(name) == name
      modifies this`incomplete
      ensures digests == DigestMap(FieldOf(Raw(path), name), setup)
      ensures Logged(old(entries), old(incomplete), DigestFailures(FieldOf(Raw(path), name), path + [Key(name)]))
    {
      hide EntriesOf, FailuresOf, PointerTo, NodeAt, RedactTree, Escape, DigestMap, DigestFailures, Located;
      Member(value, pointer, path, key, name);
      digests := ExtractDigestMap(FieldOf(value, name), pointer + [Grammar.SLASH] + name, path + [Key(name)],
        Some(name));
    }

    /** What the fields of a server fail on, and its digest maps. */
    method ExtractServerFields(value: Value, pointer: Text, ghost path: Path, ghost key: Option<Text>)
      returns (env: Value, headers: Value)
      requires Located(value, pointer, path, key) && value.Obj?
      modifies this`incomplete
      ensures env == DigestMap(FieldOf(Raw(path), Ascii("env")), setup)
      ensures headers == DigestMap(FieldOf(Raw(path), Ascii("headers")), setup)
      ensures Logged(old(entries), old(incomplete), ServerFailures(value, Raw(path), path))
    {
      hide EntriesOf, FailuresOf, PointerTo, NodeAt, RedactTree, Escape, DigestMap, DigestFailures, Ascii, ArgList,
           NotAnObject, FailIf;
      PlainNames();
      var a, e, h := Ascii("args"), Ascii("env"), Ascii("headers");
      ghost var p, v := path, Raw(path);
      ghost var log1 := FailIf(FieldOf(value, a).Some? && ArgList(FieldOf(value, a)).Null?, p + [Key(a)]);
      ghost var log2 := log1 + FailIf(NotAnObject(FieldOf(value, e)), p + [Key(e)]);
      ghost var log3 := log2 + FailIf(NotAnObject(FieldOf(value, h)), p + [Key(h)]);
      ghost var log4 := log3 + DigestFailures(FieldOf(v, e), p + [Key(e)]);
      FailMember(FieldOf(value, a).Some? && ArgList(FieldOf(value, a)).Null?, a, pointer, path);
      ghost var entries1, incomplete1 := entries, incomplete;
      FailMember(NotAnObject(FieldOf(value, e)), e, pointer, path);
      Joined(old(entries), old(incomplete), log1, entries1, incomplete1,
        FailIf(NotAnObject(FieldOf(value, e)), p + [Key(e)]));
      entries1, incomplete1 := entries, incomplete;
      FailMember(NotAnObject(FieldOf(value, h)), h, pointer, path);
      Joined(old(entries), old(incomplete), log2, entries1, incomplete1,
        FailIf(NotAnObject(FieldOf(value, h)), p + [Key(h)]));
      entries1, incomplete1 := entries, incomplete;
      env := DigestMember(value, e, pointer, path, key);
      Joined(old(entries), old(incomplete), log3, entries1, incomplete1, DigestFailures(FieldOf(v, e), p + [Key(e)]));
      entries1, incomplete1 := entries, incomplete;
      headers := DigestMember(value, h, pointer, path, key);
      Joined(old(entries), old(incomplete), log4, entries1, incomplete1, DigestFailures(FieldOf(v, h), p + [Key(h)]));
    }

    /** One server: what its fields fail on, then its entry. */
    method ExtractMcpServer(name: Text, value: Value, pointer: Text, ghost path: Path, ghost key: Option<Text>)
      requires Located(value, pointer, path, key)
      modifies this`entries, this`incomplete
      ensures Logged(old(entries), old(incomplete), Visit(Server(name), Raw(path), path, key, setup))
    {
      hide Visit, EntriesOf, FailuresOf, PointerTo, NodeAt, RedactTree, Ascii, StepsOf, ServerFailures, DigestMap,
           Transport, ArgList, Extra, McpBase, McpValue, Digested, DigestFields, TextOrNull, FieldOf;
      VisitLeaf(Server(name), Raw(path), path, key, setup);
      Same(value, pointer, path, key);
      if !value.Obj? {
        Failed(pointer, path);
        return;
      }
      var env, headers := ExtractServerFields(value, pointer, path, key);
      ghost var entries1, incomplete1 := entries, incomplete;
      var command, args, url := Ascii("command"), Ascii("args"), Ascii("url");
      var fields := McpFields(
        name, Transport(value), TextOrNull(FieldOf(value, Ascii("type"))), TextOrNull(FieldOf(value, command)),
        ArgList(FieldOf(value, args)), TextOrNull(FieldOf(value, url)), env, headers, Extra(value.members), None,
          None, None);
      McpBaseFields(fields);
      var shown := DigestRedacted(McpBase(fields), pointer, [command, args, url], path);
      McpMembers(name, value, Raw(path), setup, fields);
      AddEntry(Mcp, Ascii("mcp:") + name, Obj(shown), pointer, path);
      Joined(old(entries), old(incomplete), ServerFailures(value, Raw(path), path), entries1, incomplete1,
             [Noted(path, Add(Mcp, Ascii("mcp:") + name, Obj(shown)))]);
    }

    // ---- a document ----

    method Run()
      requires doc.value.Some? ==> ReadsIndices(setup.number, doc.value.value)
      requires entries == [] && incomplete == []
      modifies this
      ensures doc.value.Some? ==> Logged([], [], DocumentItems(doc.role, doc.value.value, setup))
      ensures doc.value.None? ==> Logged([], [], [])
    {
      hide Visit, EntriesOf, FailuresOf, RedactTree, FindingsOf, CredentialItem, CredentialItems, Ascii, Report;
      Begun();
      if doc.value.None? {
        return;
      }
      raw := doc.value.value;
      var redactor := new Redactor(setup.detector);
      var shown := redactor.Walk(raw, [], None, []);
      if doc.role == McpFile {
        ExtractMcpFile(shown, [], [], None);
      } else {
        ExtractSettings(shown, [], [], None);
      }
      ghost var visited := Visit(RootPlace(doc.role), raw, [], None, setup);
      ghost var entries1, incomplete1 := entries, incomplete;
      AddCredentials(redactor.findings, FindingsOf(raw, [], None, setup.detector));
      Joined([], [], visited, entries1, incomplete1,
             CredentialItems(FindingsOf(raw, [], None, setup.detector), raw, setup));
    }

    /** The entries of the findings, after all others. */
    method AddCredentials(findings: seq<CredentialFinding>, ghost found: seq<Noted<seq<Text>>>)
      requires ReadsIndices(setup.number, raw) && found == FindingsOf(raw, [], None, setup.detector)
      requires findings == Report(found)
      modifies this`entries
      ensures Logged(old(entries), old(incomplete), CredentialItems(found, raw, setup))
    {
      hide EntriesOf, FailuresOf, FindingsOf, CredentialItem, Report, NodeAt;
      Begun();
      ReportSize(found);
      assert CredentialItems(found[..0], raw, setup) == [];
      for i := 0 to |findings|
        invariant Logged(old(entries), old(incomplete), CredentialItems(found[..i], raw, setup))
      {
        ghost var entries1, incomplete1 := entries, incomplete;
        assert found[i] in found;
        FindingIsNode(raw, setup.detector, found[i]);
        AddCredential(findings[i], found[i]);
        Joined(old(entries), old(incomplete), CredentialItems(found[..i], raw, setup), entries1, incomplete1,
               [CredentialItem(found[i], raw, setup)]);
        assert CredentialItems(found[..i], raw, setup) + [CredentialItem(found[i], raw, setup)]
            == CredentialItems(found[..i + 1], raw, setup);
      }
      assert found[..|found|] == found;
    }

    /** Logs the credential item of one finding. */
    method AddCredential(finding: CredentialFinding, ghost found: Noted<seq<Text>>)
      requires ReadsIndices(setup.number, raw) && NodeAt(raw, found.path).Some?
      requires finding == CredentialFinding(PointerTo(found.path), found.what)
      modifies this`entries
      ensures Logged(old(entries), old(incomplete), [CredentialItem(found, raw, setup)])
    {
      hide EntriesOf, FailuresOf, PointerTo, NodeAt, Ascii;
      var text := RawString(finding.pointer, found.path);
      var sha := if text.None? then None else Some(setup.sha(text.value));
      AddEntry(Credential, Ascii("credential:") + finding.pointer,
               Obj(map[Ascii("note") := Str(Ascii("credential-like value present")),
                 Ascii("patterns") := TextList(finding.patterns),
                       Ascii("sha256") := Nullable(sha)]),
               finding.pointer, found.path);
    }

    lemma KeysKept(value: Value, pointer: Text, path: Path, key: Option<Text>)
      requires Located(value, pointer, path, key) && value.Obj?
      ensures NodeAt(raw, path).Some? && Raw(path).Obj? && value.members.Keys == Raw(path).members.Keys
      ensures SortedKeys(value.members) == SortedKeys(Raw(path).members)
    {
      hide PointerTo, NodeAt;
    }
  }

  lemma NoneBefore(items: seq<Value>, path: Path)
    ensures NonStrings(items[..0], path) == []
  {
  }

  lemma NextNonString(items: seq<Value>, i: nat, path: Path)
    requires i < |items|
    ensures NonStrings(items[..i + 1], path)
         == if items[i].Str? then NonStrings(items[..i], path) else NonStrings(items[..i], path) + [Noted(path + [Index(i)], Fail)]
  {
    assert items[..i + 1][..i] == items[..i];
  }

  lemma NoFailures(members: map<Text, Value>, path: Path, names: seq<Text>)
    requires forall name | name in names :: name in members
    ensures MapFailures(members, names[..0], path) == []
  {
  }

  lemma NextFailure(members: map<Text, Value>, done: seq<Text>, name: Text, path: Path)
    requires name in members && forall n | n in done :: n in members
    ensures MapFailures(members, done + [name], path)
         == if members[name].Str? then MapFailures(members, done, path)
            else MapFailures(members, done, path) + [Noted(path + [Key(name)], Fail)]
  {
    assert (done + [name])[..|done|] == done;
  }

  lemma {:induction false} ReportSize(found: seq<Noted<seq<Text>>>)
    ensures |Report(found)| == |found|
    ensures forall i | 0 <= i < |found| :: Report(found)[i] == CredentialFinding(PointerTo(found[i].path),
      found[i].what)
  {
    hide PointerTo;
    if found != [] { ReportSize(found[1..]); }
  }

  lemma FindingIsNode(v: Value, d: Detector, f: Noted<seq<Text>>)
    requires f in FindingsOf(v, [], None, d)
    ensures NodeAt(v, f.path).Some?
  {
    FoundWhereFound(v, d, f);
  }

  lemma McpBaseFields(f: McpFields)
    ensures var m, c, a, u := McpBase(f), Ascii("command"), Ascii("args"), Ascii("url");
            c in m && a in m && u in m && m[c] == f.command && m[a] == f.args && m[u] == f.url && DigestFields(m, [c, a, u])
  {
    hide Escape;
    PlainNames();
    McpNamesDiffer();
    var c, a, u := Ascii("command"), Ascii("args"), Ascii("url");
    assert |c| == 7 && |a| == 4 && |u| == 3 && |Ascii("_sha256")| == 7;
  }

  /** The names of the members of an MCP entry are all different. */
  lemma McpNamesDiffer()
    ensures Ascii("command") !in {Ascii("name"), Ascii("transport"), Ascii("type_raw"), Ascii("args"), Ascii("url"),
      Ascii("env"), Ascii("headers"), Ascii("extra")}
    ensures Ascii("args") !in {Ascii("name"), Ascii("url"), Ascii("env"), Ascii("headers"), Ascii("extra")}
    ensures Ascii("url") !in {Ascii("env"), Ascii("headers"), Ascii("extra")}
  {
    assert |Ascii("command")| == 7 && |Ascii("name")| == 4 && |Ascii("transport")| == 9 && |Ascii("type_raw")| == 8;
    assert |Ascii("args")| == 4 && |Ascii("url")| == 3 && |Ascii("env")| == 3 && |Ascii("headers")| == 7
      && |Ascii("extra")| == 5;
    assert Ascii("command")[0] != Ascii("headers")[0] && Ascii("args")[0] != Ascii("name")[0]
      && Ascii("url")[0] != Ascii("env")[0];
  }

  lemma McpMembers(name: Text, shown: Value, raw: Value, setup: Setup, f: McpFields)
    requires shown.Obj?
    requires f == McpFieldsOf(name, shown, raw, setup).(commandSha := None, argsSha := None, urlSha := None)
    ensures Obj(Digested(McpBase(f), raw, [Ascii("command"), Ascii("args"), Ascii("url")], setup))
         == McpValue(McpFieldsOf(name, shown, raw, setup))
  {
    hide Ascii, FieldDigest, ShaMember, McpBase, Digested, DigestFields, Transport, ArgList, DigestMap, Extra;
    hide TextOrNull, FieldOf;
    var c, a, u := Ascii("command"), Ascii("args"), Ascii("url");
    McpBaseFields(f);
    DigestedThree(McpBase(f), raw, c, a, u, setup);
    McpBaseIgnoresDigests(f, McpFieldsOf(name, shown, raw, setup));
  }

  lemma McpBaseIgnoresDigests(f: McpFields, g: McpFields)
    requires f == g.(commandSha := None, argsSha := None, urlSha := None)
    ensures McpBase(f) == McpBase(g)
  {
    hide Ascii;
  }

  /** Three fields, one digest after the other. */
  lemma DigestedThree(value: map<Text, Value>, raw: Value, f: Text, g: Text, h: Text, setup: Setup)
    requires f in value && g in value && h in value
    ensures Digested(value, raw, [f, g, h], setup)
         == value + ShaMember(f, FieldDigest(value[f], FieldOf(raw, f), setup))
            + ShaMember(g, FieldDigest(value[g], FieldOf(raw, g), setup))
            + ShaMember(h, FieldDigest(value[h], FieldOf(raw, h), setup))
  {
    hide FieldDigest, ShaMember, FieldOf, Digested;
    DigestedNone(value, raw, [f], setup);
    assert [f][..0] == [];
    DigestedNext(value, raw, [], f, setup);
    DigestedNext(value, raw, [f], g, setup);
    DigestedNext(value, raw, [f, g], h, setup);
    assert [] + [f] == [f] && [f] + [g] == [f, g] && [f, g] + [h] == [f, g, h];
  }

  /** A record with the digests of the named fields added. */
  function Digested(value: map<Text, Value>, raw: Value, fields: seq<Text>, setup: Setup): map<Text, Value> {
    if fields == [] then value
    else
      var field := fields[|fields| - 1];
      var digest := if field in value then FieldDigest(value[field], FieldOf(raw, field), setup) else None;
      Digested(value, raw, fields[..|fields| - 1], setup) + ShaMember(field, digest)
  }

  /** Fields that a digest can be added for: plain names, present, and none the name of a digest. */
  predicate DigestFields(value: map<Text, Value>, fields: seq<Text>) {
    && (forall f | f in fields :: f in value && Escape(f) == f)
    && (forall f, g | f in fields && g in fields :: ShaName(f) != g)
  }

  lemma DigestedNone(value: map<Text, Value>, raw: Value, fields: seq<Text>, setup: Setup)
    ensures Digested(value, raw, fields[..0], setup) == value
  {
  }

  lemma DigestedNext(value: map<Text, Value>, raw: Value, done: seq<Text>, field: Text, setup: Setup)
    requires field in value
    ensures Digested(value, raw, done + [field], setup)
         == Digested(value, raw, done, setup) + ShaMember(field, FieldDigest(value[field], FieldOf(raw, field), setup))
  {
    hide FieldDigest, ShaMember;
    assert (done + [field])[..|done|] == done;
  }

  lemma HookBaseFields(event: Text, matcher: Option<Text>, shown: Value)
    ensures var m, c, p := HookBase(event, matcher, shown), Ascii("command"), Ascii("prompt");
            && m[c] == TextOrNull(FieldOf(shown, c)) && m[p] == TextOrNull(FieldOf(shown, p))
            && DigestFields(m, [c, p])
  {
    hide Escape;
    var c, p := Ascii("command"), Ascii("prompt");
    PlainNames();
    assert |c| == 7 && |p| == 6 && |Ascii("timeout")| == 7 && |Ascii("_sha256")| == 7;
    assert c[0] != Ascii("timeout")[0];
  }

  lemma HookMembers(event: Text, matcher: Option<Text>, shown: Value, raw: Value, setup: Setup)
    ensures Obj(Digested(HookBase(event, matcher, shown), raw, [Ascii("command"), Ascii("prompt")], setup))
         == HookValue(event, matcher, shown, raw, setup)
  {
    hide Ascii, FieldDigest, HookBase, ShaName, Escape;
    var base, c, p := HookBase(event, matcher, shown), Ascii("command"), Ascii("prompt");
    HookBaseFields(event, matcher, shown);
    assert c in [c, p] && p in [c, p];
    DigestedNext(base, raw, [], c, setup);
    DigestedNext(base, raw, [c], p, setup);
    assert [] + [c] == [c] && [c] + [p] == [c, p];
  }

  lemma PlainNames()
    ensures Escape(Ascii("matcher")) == Ascii("matcher") && Escape(Ascii("hooks")) == Ascii("hooks")
    ensures Escape(Ascii("command")) == Ascii("command") && Escape(Ascii("prompt")) == Ascii("prompt")
    ensures Escape(Ascii("args")) == Ascii("args") && Escape(Ascii("url")) == Ascii("url")
    ensures Escape(Ascii("env")) == Ascii("env") && Escape(Ascii("headers")) == Ascii("headers")
  {
    PlainName("matcher");
    PlainName("hooks");
    PlainName("command");
    PlainName("prompt");
    PlainName("args");
    PlainName("url");
    PlainName("env");
    PlainName("headers");
  }

  lemma PlainName(s: string)
    requires forall i | 0 <= i < |s| :: 'a' <= s[i] <= 'z'
    ensures Escape(Ascii(s)) == Ascii(s)
  {
    EscapePlain(Ascii(s));
  }

  /** What a group yields, with its key shown to be irrelevant. */
  lemma GroupVisit(event: Text, raw: Value, path: Path, key: Option<Text>, setup: Setup)
    ensures Visit(MatcherGroup(event), raw, path, key, setup)
         == if !raw.Obj? then [Noted(path, Fail)]
            else if BadMatcher(raw) then [Noted(path + [MATCHER], Fail)]
            else if Below(raw, HOOKS).None? then [Noted(path + [HOOKS], Fail)]
            else Visit(HookList(event, MatcherOf(raw, setup)), Below(raw, HOOKS).value, path + [HOOKS],
              Some(HOOKS.name), setup)
  {
    hide Ascii, MatcherOf;
  }

  lemma HelperMembers(shown: Value, raw: Value, setup: Setup, helper: map<Text, Value>)
    requires shown.Str? && raw.Str?
    requires helper == if raw.s != shown.s
                       then map[Ascii("command") := shown][ShaName(Ascii("command")) := Str(setup.sha(raw.s))]
                       else map[Ascii("command") := shown]
    ensures forall name :: HelperItem(name, shown, raw, setup) == Add(Helper, Ascii("helper:") + name, Obj(helper))
  {
    hide Ascii;
    var digest := if raw != shown then Some(setup.sha(raw.s)) else None;
    assert helper == map[Ascii("command") := shown] + ShaMember(Ascii("command"), digest);
  }

  // ---- all documents of one side ----

  function ItemsOf(doc: SourceDocument, setup: Setup): seq<Item> {
    if doc.value.None? then [] else DocumentItems(doc.role, doc.value.value, setup)
  }

  function AllEntries(docs: seq<SourceDocument>, setup: Setup): seq<Entry> {
    if docs == [] then []
    else
      var last := docs[|docs| - 1];
      AllEntries(docs[..|docs| - 1], setup) + EntriesOf(ItemsOf(last, setup), last, last.sha)
  }

  function AllFailures(docs: seq<SourceDocument>, setup: Setup): seq<Incomplete> {
    if docs == [] then []
    else
      var last := docs[|docs| - 1];
      AllFailures(docs[..|docs| - 1], setup) + FailuresOf(ItemsOf(last, setup), last)
  }

  /** Entries of every document, sorted; failures in document order. */
  method ExtractEntries(docs: seq<SourceDocument>, setup: Setup)
    returns (entries: seq<Entry>, incomplete: seq<Incomplete>)
    requires forall doc | doc in docs && doc.value.Some? :: ReadsIndices(setup.number, doc.value.value)
    ensures entries == SortEntries(AllEntries(docs, setup))
    ensures incomplete == AllFailures(docs, setup)
  {
    hide DocumentItems, EntriesOf, FailuresOf;
    entries, incomplete := [], [];
    for i := 0 to |docs|
      invariant entries == AllEntries(docs[..i], setup) && incomplete == AllFailures(docs[..i], setup)
    {
      assert docs[..i + 1][..i] == docs[..i];
      var extractor := new DocumentExtractor(docs[i], docs[i].sha, setup);
      extractor.Run();
      assert [] + EntriesOf(ItemsOf(docs[i], setup), docs[i], docs[i].sha)
        == EntriesOf(ItemsOf(docs[i], setup), docs[i], docs[i].sha);
      assert [] + FailuresOf(ItemsOf(docs[i], setup), docs[i]) == FailuresOf(ItemsOf(docs[i], setup), docs[i]);
      entries := entries + extractor.entries;
      incomplete := incomplete + extractor.incomplete;
    }
    assert docs[..|docs|] == docs;
    entries := SortEntries(entries);
  }
}
