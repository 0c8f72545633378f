/** Entries, the projection that a comparison sees, and the order in which entries are kept. */
module Entries {
  import opened Texts
  import opened Json
  import opened Sorting
  import opened Stable

  datatype Kind =
    | Perm | Mode | Hook | Mcp | Dir | Sandbox | EnvKey | Helper | PluginFlag | Unknown | Credential

  function KindName(kind: Kind): Text {
    match kind
    case Perm => Ascii("perm")
    case Mode => Ascii("mode")
    case Hook => Ascii("hook")
    case Mcp => Ascii("mcp")
    case Dir => Ascii("dir")
    case Sandbox => Ascii("sandbox")
    case EnvKey => Ascii("env_key")
    case Helper => Ascii("helper")
    case PluginFlag => Ascii("plugin_flag")
    case Unknown => Ascii("unknown")
    case Credential => Ascii("credential")
  }

  lemma KindNamesDiffer(a: Kind, b: Kind)
    requires KindName(a) == KindName(b)
    ensures a == b
  {
    var s, t := KindName(a), KindName(b);
    assert |s| > 2 && s[0] == t[0] && s[1] == t[1] && s[2] == t[2];
  }

  /** An entry; no comparison looks at its line, pointer or sourceSha. */
  datatype Entry = Entry(
    kind: Kind, key: Text, value: Value, file: Text, line: Option<nat>, pointer: Option<Text>, sourceSha: Option<Text>)

  const RAW: Text := Ascii("raw")

  /** An entry's value without its text as written. */
  function WithoutRaw(v: Value): Value {
    if v.Obj? && RAW in v.members then Obj(v.members - {RAW}) else v
  }

  /** The part of an entry on which a comparison depends. */
  datatype Semantic = Semantic(kind: Kind, key: Text, file: Text, value: Value)

  function SemanticEntry(e: Entry): Semantic {
    Semantic(e.kind, e.key, e.file, WithoutRaw(e.value))
  }

  // ---- order ----

  function PointerText(e: Entry): Text {
    if e.pointer.None? then [] else e.pointer.value
  }

  /** a comes strictly before b: keys decide, files between equal keys, pointers between equal files. */
  predicate EntryBefore(a: Entry, b: Entry) {
    if a.key != b.key then Less(a.key, b.key)
    else if a.file != b.file then Less(a.file, b.file)
    else Less(PointerText(a), PointerText(b))
  }

  /** Neither comes before the other. */
  predicate Tied(a: Entry, b: Entry) {
    a.key == b.key && a.file == b.file && PointerText(a) == PointerText(b)
  }

  lemma EntryOrder(a: Entry, b: Entry, c: Entry)
    ensures !EntryBefore(a, a)
    ensures EntryBefore(a, b) || EntryBefore(b, a) || Tied(a, b)
    ensures EntryBefore(a, b) && EntryBefore(b, c) ==> EntryBefore(a, c)
    ensures EntryBefore(a, b) ==> !EntryBefore(b, a) && !Tied(a, b)
  {
    hide Less, PointerText;
    LessIsStrictTotal();
  }

  lemma EntryOrderIsWeak()
    ensures WeakOrder(EntryBefore)
  {
    hide EntryBefore, Tied;
    forall a, b | EntryBefore(a, b) ensures !EntryBefore(b, a) { EntryOrder(a, b, a); }
    forall a, b, c | EntryBefore(a, b) ensures EntryBefore(a, c) || EntryBefore(c, b) { Between(a, b, c); }
  }

  lemma Between(a: Entry, b: Entry, c: Entry)
    requires EntryBefore(a, b)
    ensures EntryBefore(a, c) || EntryBefore(c, b)
  {
    hide Less, PointerText;
    EntryOrder(a, c, b);
    EntryOrder(c, a, b);
    EntryOrder(c, b, a);
  }

  function SortEntries(es: seq<Entry>): seq<Entry> {
    SortBy(es, EntryBefore)
  }

  ghost predicate Ordered(s: seq<Entry>) {
    Sorted(s, EntryBefore)
  }

  /** Sorting returns an ordered arrangement of the same entries. */
  lemma SortSorts(es: seq<Entry>)
    ensures Ordered(SortEntries(es)) && multiset(SortEntries(es)) == multiset(es)
  {
    EntryOrderIsWeak();
    SortBySorts(es, EntryBefore);
  }

  /** Sorted entries stand by key, those of one key by file, and those of one key and file by pointer. */
  lemma SortedByKeyFilePointer(es: seq<Entry>, i: nat, j: nat)
    requires i < j < |SortEntries(es)|
    ensures var a, b := SortEntries(es)[i], SortEntries(es)[j];
            && (a.key == b.key || Less(a.key, b.key))
            && (a.key == b.key ==> a.file == b.file || Less(a.file, b.file))
            && (a.key == b.key && a.file == b.file && a.pointer.Some? && b.pointer.Some? ==>
                  a.pointer == b.pointer || Less(a.pointer.value, b.pointer.value))
  {
    hide Less;
    LessIsStrictTotal();
    SortSorts(es);
    assert !EntryBefore(SortEntries(es)[j], SortEntries(es)[i]);
  }

  /** No two entries tie on key, file and pointer. */
  ghost predicate TieFree(es: seq<Entry>) {
    forall i, j | 0 <= i < j < |es| :: !Tied(es[i], es[j])
  }
}
