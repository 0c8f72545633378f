/** What the entry of an MCP server says about the server as written. */
module McpTheorems {
  import opened Texts
  import opened Json
  import opened Pointers
  import opened Canonical
  import opened RoundTrip
  import opened Entries
  import opened Redact
  import opened Walks
  import opened Extraction
  import opened ExtractionTheorems

  /** Everything of a server that its entry depends on: the raw texts, and what is shown of the rest. */
  datatype Carried = Carried(
    transport: Value, typeRaw: Value, extra: Value, command: Option<Text>, args: Option<Value>, url: Option<Text>,
    env: Option<map<Text, Text>>, headers: Option<map<Text, Text>>)

  function TextOf(v: Option<Value>): Option<Text> { if v.Some? && v.value.Str? then Some(v.value.s) else None }

  function ArgsOf(v: Option<Value>): Option<Value> { if v.Some? && AllStrings(v.value) then v else None }

  /** The string members of an object. */
  function TextsOf(v: Option<Value>): Option<map<Text, Text>> {
    if v.Some? && v.value.Obj? then
      var members := v.value.members;
      Some(map name | name in members && members[name].Str? :: members[name].s)
    else None
  }

  function CarriedOf(server: Value, key: Option<Text>, setup: Setup): Carried
    requires server.Obj?
  {
    var shown := RedactTree(server, key, setup.detector);
    Carried(
      Transport(shown), TextOrNull(FieldOf(shown, Ascii("type"))), Extra(shown.members),
      TextOf(FieldOf(server, Ascii("command"))), ArgsOf(FieldOf(server, Ascii("args"))),
        TextOf(FieldOf(server, Ascii("url"))),
      TextsOf(FieldOf(server, Ascii("env"))), TextsOf(FieldOf(server, Ascii("headers"))))
  }

  // ---- single fields ----

  /** A field as shown. */
  function ShownField(raw: Option<Value>, field: Text, setup: Setup): Option<Value> {
    if raw.None? then None else Some(RedactTree(raw.value, Some(field), setup.detector))
  }

  lemma ShownFieldOf(server: Value, key: Option<Text>, field: Text, setup: Setup)
    ensures FieldOf(RedactTree(server, key, setup.detector), field) == ShownField(FieldOf(server, field), field, setup)
  {
    hide RedactTree;
    RedactedBelow(server, key, setup.detector, Key(field));
  }

  /** A shown text and its digest determine the raw text, and are determined by it. */
  lemma ShownDecides(a: Option<Value>, b: Option<Value>, field: Text, setup: Setup)
    requires Injective(setup.sha)
    ensures var x, y := TextOrNull(ShownField(a, field, setup)), TextOrNull(ShownField(b, field, setup));
            TextOf(a) == TextOf(b) <==> x == y && FieldDigest(x, a, setup) == FieldDigest(y, b, setup)
  {
    hide Print, Redaction;
    if TextOf(a).Some? && TextOf(b).Some? {
      var r := TextOrNull(ShownField(a, field, setup));
      SamePrint(r, a.value);
      SamePrint(r, b.value);
    }
  }

  /** Texts and lists of texts print the same only if they are the same. */
  lemma SamePrint(v: Value, w: Value)
    requires (v.Str? || AllStrings(v)) && (w.Str? || AllStrings(w))
    ensures Print(v, None) == Print(w, None) <==> v == w
  {
    if Print(v, None) == Print(w, None) {
      StringifyInjective(v, w);
    }
  }

  lemma RedactedStrings(v: Value, key: Option<Text>, setup: Setup)
    ensures AllStrings(RedactTree(v, key, setup.detector)) <==> AllStrings(v)
  {
    hide Redaction;
    if v.Arr? {
      var shown := RedactTree(v, key, setup.detector);
      forall i | 0 <= i < |v.items| ensures shown.items[i].Str? <==> v.items[i].Str? {
        assert shown.items[i] == RedactTree(v.items[i], key, setup.detector);
      }
    }
  }

  lemma ArgsDecide(a: Option<Value>, b: Option<Value>, field: Text, setup: Setup)
    requires Injective(setup.sha)
    ensures var x, y := ArgList(ShownField(a, field, setup)), ArgList(ShownField(b, field, setup));
            ArgsOf(a) == ArgsOf(b) <==> x == y && FieldDigest(x, a, setup) == FieldDigest(y, b, setup)
  {
    hide Print, RedactTree, AllStrings;
    if a.Some? { RedactedStrings(a.value, Some(field), setup); }
    if b.Some? { RedactedStrings(b.value, Some(field), setup); }
    var x, y := ArgList(ShownField(a, field, setup)), ArgList(ShownField(b, field, setup));
    if ArgsOf(a).Some? { ListsAreNotTexts(x); }
    if ArgsOf(b).Some? { ListsAreNotTexts(y); }
    if ArgsOf(a).Some? && ArgsOf(b).Some? {
      ListsAreNotTexts(a.value);
      ListsAreNotTexts(b.value);
      SamePrint(x, a.value);
      SamePrint(y, b.value);
      SamePrint(a.value, b.value);
    }
  }

  lemma ListsAreNotTexts(v: Value)
    requires AllStrings(v)
    ensures !v.Str? && !v.Null?
  {
  }

  lemma DigestsDecide(a: Option<Value>, b: Option<Value>, setup: Setup)
    requires Injective(setup.sha)
    ensures DigestMap(a, setup) == DigestMap(b, setup) <==> TextsOf(a) == TextsOf(b)
  {
    hide DigestOf;
    if DigestMap(a, setup) == DigestMap(b, setup) && DigestMap(a, setup).Obj? {
      var p, q := DigestMap(a, setup).members, DigestMap(b, setup).members;
      var m, n := a.value.members, b.value.members;
      assert p.Keys == q.Keys == TextsOf(a).value.Keys == TextsOf(b).value.Keys;
      forall name | name in p ensures m[name].s == n[name].s {
        assert p[name] == DigestOf(m[name].s, setup) && q[name] == DigestOf(n[name].s, setup);
        DigestInjective(m[name].s, n[name].s, setup);
      }
      assert TextsOf(a).value == TextsOf(b).value;
    }
    if TextsOf(a) == TextsOf(b) && TextsOf(a).Some? {
      var p, q := DigestMap(a, setup).members, DigestMap(b, setup).members;
      var t := TextsOf(a).value;
      assert p.Keys == t.Keys == TextsOf(b).value.Keys == q.Keys;
      assert forall name | name in p :: p[name] == DigestOf(t[name], setup);
      assert forall name | name in q :: q[name] == DigestOf(TextsOf(b).value[name], setup);
      assert p == q;
    }
  }

  lemma DigestInjective(s: Text, t: Text, setup: Setup)
    requires Injective(setup.sha) && DigestOf(s, setup) == DigestOf(t, setup)
    ensures s == t
  {
    var x, y := DigestOf(s, setup).members, DigestOf(t, setup).members;
    assert |Ascii("sha256")| == 6 && |Ascii("length")| == 6 && |Ascii("redacted")| == 8;
    assert Ascii("sha256")[0] != Ascii("length")[0];
    assert x[Ascii("sha256")] == Str(setup.sha(s)) && y[Ascii("sha256")] == Str(setup.sha(t));
  }

  // ---- the entry's value ----

  lemma MemberLengths()
    ensures |Ascii("name")| == 4 && |Ascii("transport")| == 9 && |Ascii("type_raw")| == 8 && |Ascii("command")| == 7
    ensures |Ascii("args")| == 4 && |Ascii("url")| == 3 && |Ascii("env")| == 3 && |Ascii("headers")| == 7
      && |Ascii("extra")| == 5
    ensures |ShaName(Ascii("command"))| == 14 && |ShaName(Ascii("args"))| == 11 && |ShaName(Ascii("url"))| == 10
      && |RAW| == 3
    ensures Ascii("name") != Ascii("args") && Ascii("command") != Ascii("headers") && Ascii("url") != Ascii("env")
    ensures RAW != Ascii("url") && RAW != Ascii("env")
  {
    assert Ascii("name")[0] != Ascii("args")[0] && Ascii("command")[0] != Ascii("headers")[0]
      && Ascii("url")[0] != Ascii("env")[0];
    assert RAW[0] != Ascii("url")[0] && RAW[0] != Ascii("env")[0];
  }

  lemma McpBaseRead(f: McpFields)
    ensures var m := McpBase(f);
            && m.Keys == {Ascii("name"), Ascii("transport"), Ascii("type_raw"), Ascii("command"), Ascii("args"),
              Ascii("url"),
                          Ascii("env"), Ascii("headers"), Ascii("extra")}
            && m[Ascii("name")] == Str(f.name) && m[Ascii("transport")] == f.transport && m[Ascii("type_raw")]
              == f.typeRaw
            && m[Ascii("command")] == f.command && m[Ascii("args")] == f.args && m[Ascii("url")] == f.url
            && m[Ascii("env")] == f.env && m[Ascii("headers")] == f.headers && m[Ascii("extra")] == f.extra
  {
    hide Ascii;
    MemberLengths();
  }

  /** The names of digests are not names of members, nor of each other. */
  lemma ShaNamesApart(f: McpFields)
    ensures var c, a, u := ShaName(Ascii("command")), ShaName(Ascii("args")), ShaName(Ascii("url"));
            c !in McpBase(f) && a !in McpBase(f) && u !in McpBase(f) && c != a && c != u && a != u
    ensures RAW !in McpBase(f) && RAW !in {ShaName(Ascii("command")), ShaName(Ascii("args")), ShaName(Ascii("url"))}
  {
    hide Ascii, ShaName, McpBase;
    MemberLengths();
    McpBaseRead(f);
  }

  /** The members of an entry's value, read back. */
  lemma McpMembersRead(f: McpFields)
    ensures McpValue(f).Obj?
    ensures var m := McpValue(f).members;
            && RAW !in m && (forall k | k in McpBase(f) :: k in m && m[k] == McpBase(f)[k])
            && (forall k | k in m && k !in McpBase(f) :: m[k].Str?)
            && ShaOf(m, Ascii("command")) == f.commandSha && ShaOf(m, Ascii("args")) == f.argsSha
            && ShaOf(m, Ascii("url")) == f.urlSha
  {
    hide Ascii, ShaName, McpBase;
    ShaNamesApart(f);
  }

  function ShaOf(m: map<Text, Value>, field: Text): Option<Text> {
    if ShaName(field) in m && m[ShaName(field)].Str? then Some(m[ShaName(field)].s) else None
  }

  lemma McpValueInjective(f: McpFields, g: McpFields)
    requires McpValue(f) == McpValue(g)
    ensures f == g
  {
    hide McpValue, Ascii, ShaName, McpBase;
    McpMembersRead(f);
    McpMembersRead(g);
    McpBaseRead(f);
    McpBaseRead(g);
  }

  lemma ShownObject(server: Value, key: Option<Text>, setup: Setup)
    requires server.Obj?
    ensures RedactTree(server, key, setup.detector).Obj?
  {
  }

  /** The value of a server's entry. */
  function ServerValue(name: Text, server: Value, key: Option<Text>, setup: Setup): Value
    requires server.Obj?
  {
    McpValue(McpFieldsOf(name, RedactTree(server, key, setup.detector), server, setup))
  }

  /** Two servers have equal entries exactly when everything carried is equal, raw texts included. */
  lemma McpEntryDecides(name: Text, a: Value, b: Value, key: Option<Text>, setup: Setup)
    requires a.Obj? && b.Obj? && Injective(setup.sha)
    ensures ServerValue(name, a, key, setup) == ServerValue(name, b, key, setup)
       <==> CarriedOf(a, key, setup) == CarriedOf(b, key, setup)
  {
    hide McpValue, RedactTree, FieldOf, Transport, Extra, DigestMap, TextsOf, TextOf, ArgsOf, ArgList, TextOrNull,
         FieldDigest, ShownField, Ascii;
    var c, r, u := Ascii("command"), Ascii("args"), Ascii("url");
    ShownFieldOf(a, key, c, setup);
    ShownFieldOf(b, key, c, setup);
    ShownFieldOf(a, key, r, setup);
    ShownFieldOf(b, key, r, setup);
    ShownFieldOf(a, key, u, setup);
    ShownFieldOf(b, key, u, setup);
    ShownDecides(FieldOf(a, c), FieldOf(b, c), c, setup);
    ArgsDecide(FieldOf(a, r), FieldOf(b, r), r, setup);
    ShownDecides(FieldOf(a, u), FieldOf(b, u), u, setup);
    DigestsDecide(FieldOf(a, Ascii("env")), FieldOf(b, Ascii("env")), setup);
    DigestsDecide(FieldOf(a, Ascii("headers")), FieldOf(b, Ascii("headers")), setup);
    ShownObject(a, key, setup);
    ShownObject(b, key, setup);
    var f := McpFieldsOf(name, RedactTree(a, key, setup.detector), a, setup);
    var g := McpFieldsOf(name, RedactTree(b, key, setup.detector), b, setup);
    if McpValue(f) == McpValue(g) { McpValueInjective(f, g); }
  }

  // ---- well-typed servers ----

  predicate IsText(v: Option<Value>) { v.None? || v.value.Str? }

  predicate IsTextMap(v: Option<Value>) {
    v.None? || (v.value.Obj? && forall name | name in v.value.members :: v.value.members[name].Str?)
  }

  /** Fields of the types that Claude Code documents; each may be absent. */
  predicate WellTyped(server: Value) {
    && server.Obj?
    && IsText(FieldOf(server, Ascii("command"))) && IsText(FieldOf(server, Ascii("url")))
    && (FieldOf(server, Ascii("args")).None? || AllStrings(FieldOf(server, Ascii("args")).value))
    && IsTextMap(FieldOf(server, Ascii("env"))) && IsTextMap(FieldOf(server, Ascii("headers")))
  }

  lemma TextsDecide(v: Option<Value>, w: Option<Value>)
    requires IsTextMap(v) && IsTextMap(w) && TextsOf(v) == TextsOf(w)
    ensures v == w
  {
    if v.Some? {
      var m, n := v.value.members, w.value.members;
      assert m.Keys == TextsOf(v).value.Keys == TextsOf(w).value.Keys == n.Keys;
      forall name | name in m ensures m[name] == n[name] {
        assert TextsOf(v).value[name] == m[name].s && TextsOf(w).value[name] == n[name].s;
      }
      assert m == n;
    }
  }

  /** A changed command, args, url, env or headers of a well-typed server always shows in its semantic entry. */
  lemma RawChangesShow(name: Text, a: Value, b: Value, key: Option<Text>, setup: Setup, base: Entry, head: Entry)
    requires WellTyped(a) && WellTyped(b) && Injective(setup.sha)
    requires base.value == ServerValue(name, a, key, setup) && head.value == ServerValue(name, b, key, setup)
    ensures SemanticEntry(base) == SemanticEntry(head) ==>
      forall field | field in {Ascii("command"), Ascii("args"), Ascii("url"), Ascii("env"), Ascii("headers")} ::
        FieldOf(a, field) == FieldOf(b, field)
  {
    hide McpValue, RedactTree, FieldOf, Transport, Extra, TextsOf, McpFieldsOf, IsTextMap, Ascii;
    if SemanticEntry(base) == SemanticEntry(head) {
      ShownObject(a, key, setup);
      ShownObject(b, key, setup);
      McpMembersRead(McpFieldsOf(name, RedactTree(a, key, setup.detector), a, setup));
      McpMembersRead(McpFieldsOf(name, RedactTree(b, key, setup.detector), b, setup));
      McpEntryDecides(name, a, b, key, setup);
      TextsDecide(FieldOf(a, Ascii("env")), FieldOf(b, Ascii("env")));
      TextsDecide(FieldOf(a, Ascii("headers")), FieldOf(b, Ascii("headers")));
    }
  }

  /**
   * Types matter: a command that is no string is not carried, so a change of it gives the same items and no
   * failure.
   */
  lemma IllTypedCommandIsMissed(name: Text, path: Path, key: Option<Text>, setup: Setup)
    ensures var a, b := CommandOnly(true), CommandOnly(false);
            && a != b
            && Visit(Server(name), a, path, key, setup) == Visit(Server(name), b, path, key, setup)
            && |Visit(Server(name), a, path, key, setup)| == 1 && Visit(Server(name), a, path, key, setup)[0].what.Add?
  {
    hide Ascii, ServerFailures, McpFieldsOf, McpValue, CommandOnly;
    CommandOnlyItems(name, true, path, key, setup);
    CommandOnlyItems(name, false, path, key, setup);
    CommandOnlyDiffers();
  }

  function CommandOnly(b: bool): Value { Obj(map[Ascii("command") := Bool(b)]) }

  lemma CommandOnlyDiffers()
    ensures CommandOnly(true) != CommandOnly(false)
  {
    hide Ascii;
    assert CommandOnly(true).members[Ascii("command")] != CommandOnly(false).members[Ascii("command")];
  }

  lemma CommandOnlyItems(name: Text, b: bool, path: Path, key: Option<Text>, setup: Setup)
    ensures Visit(Server(name), CommandOnly(b), path, key, setup)
         == [Noted(path, Add(Mcp, Ascii("mcp:") + name,
                             McpValue(McpFields(name, Null, Null, Null, Null, Null, Null, Null, Null, None, None,
                               None))))]
  {
    hide Ascii, ServerFailures, McpFieldsOf, McpValue;
    var server := CommandOnly(b);
    assert RedactTree(server, key, setup.detector).members == server.members;
    IllTyped(server, path, setup);
  }

  lemma IllTyped(server: Value, path: Path, setup: Setup)
    requires server.Obj? && server.members.Keys == {Ascii("command")} && server.members[Ascii("command")].Bool?
    ensures ServerFailures(server, server, path) == []
    ensures forall name :: McpFieldsOf(name, server, server, setup)
                        == McpFields(name, Null, Null, Null, Null, Null, Null, Null, Null, None, None, None)
  {
    hide Ascii;
    MemberLengths();
    assert |Ascii("type")| == 4;
    var extra := map k | k in server.members && k !in SERVER_FIELDS :: server.members[k];
    assert extra == map[];
  }

  // ---- in a document ----

  const SERVERS: Step := Key(Ascii("mcpServers"))

  lemma ServerIsReached(raw: Value, name: Text, setup: Setup)
    requires NodeAt(raw, [SERVERS, Key(name)]).Some?
    ensures PlaceAt(McpRoot, raw, [SERVERS, Key(name)], setup) == Some(Server(name))
  {
    hide Ascii, NodeAt;
    assert [] + [SERVERS] == [SERVERS] && [SERVERS] + [Key(name)] == [SERVERS, Key(name)];
    ParentNode(raw, [SERVERS], Key(name));
    OneStep(raw, SERVERS);
    NodeSnoc(raw, [SERVERS], Key(name));
    RootIsNode(raw);
    PlaceSnoc(McpRoot, raw, [], SERVERS, setup);
    PlaceSnoc(McpRoot, raw, [SERVERS], Key(name), setup);
  }

  lemma RootIsNode(v: Value)
    ensures NodeAt(v, []) == Some(v)
  {
  }

  /** Each server of an MCP file yields its entry, at its pointer; no other item of its fields is an entry. */
  lemma ServersAreExtracted(raw: Value, name: Text, setup: Setup)
    requires NodeAt(raw, [SERVERS, Key(name)]).Some? && NodeAt(raw, [SERVERS, Key(name)]).value.Obj?
    ensures var path := [SERVERS, Key(name)];
            var value := ServerValue(name, NodeAt(raw, path).value, Some(name), setup);
            Noted(path, Add(Mcp, Ascii("mcp:") + name, value)) in DocumentItems(McpFile, raw, setup)
  {
    hide Ascii, NodeAt, Visit, PlaceAt, ServerValue, RedactTree, OwnItems;
    var path := [SERVERS, Key(name)];
    var server := NodeAt(raw, path).value;
    ServerIsReached(raw, name, setup);
    ShownObject(server, Some(name), setup);
    assert path[1..] == [Key(name)] && [Key(name)][1..] == [];
    assert KeyAt([Key(name)], Some(SERVERS.name)) == KeyAt([], Some(name));
    assert KeyAt(path, None) == Some(name);
    assert [] + path == path;
    var x := Noted(path, Add(Mcp, Ascii("mcp:") + name, ServerValue(name, server, Some(name), setup)));
    ServerOwn(name, server, path, setup);
    ItemsComeFromPlaces(McpRoot, raw, [], None, setup, x);
    assert Yields(McpRoot, raw, [], None, setup, path, x);
  }

  lemma ServerOwn(name: Text, server: Value, path: Path, setup: Setup)
    requires server.Obj?
    ensures Noted(path, Add(Mcp, Ascii("mcp:") + name, ServerValue(name, server, Some(name), setup)))
         in OwnItems(Server(name), server, path, Some(name), setup)
  {
    hide Ascii, McpValue, McpFieldsOf, ServerFailures, RedactTree;
    ShownObject(server, Some(name), setup);
  }

  // ---- what an entry and its failures say ----

  /** The transport is a documented type as written, or stdio where a command stands without a type, or else null. */
  ghost predicate TransportFits(transport: Value, kind: Option<Value>, command: Option<Value>) {
    && (kind.Some? && kind.value in {Str(Ascii("stdio")), Str(Ascii("http")), Str(Ascii("sse"))} ==> transport == kind.value)
    && (kind.None? && command.Some? && command.value.Str? ==> transport == Str(Ascii("stdio")))
    && (transport == Null || transport == Str(Ascii("stdio")) || kind == Some(transport))
    && (kind.Some? && transport != kind.value ==> transport == Null)
    && (kind.None? && !(command.Some? && command.value.Str?) ==> transport == Null)
    && (transport.Str? ==> transport in {Str(Ascii("stdio")), Str(Ascii("http")), Str(Ascii("sse"))})
  }

  /** A field as it is shown, if it has the right type. */
  predicate Carries(member: Value, shown: Option<Value>, rightly: bool) {
    member == if rightly && shown.Some? then shown.value else Null
  }

  /** The members of a server's entry: each field as shown if it has its type, and a digest for each env or header value. */
  lemma ServerReads(name: Text, server: Value, key: Option<Text>, setup: Setup)
    requires server.Obj?
    ensures ServerValue(name, server, key, setup).Obj?
    ensures var m := ServerValue(name, server, key, setup).members;
            var shown := RedactTree(server, key, setup.detector);
            var kind, command, url := Below(shown, Key(Ascii("type"))), Below(shown, Key(Ascii("command"))),
              Below(shown, Key(Ascii("url")));
            var args := Below(shown, Key(Ascii("args")));
            && (forall k | k in {Ascii("name"), Ascii("transport"), Ascii("type_raw"), Ascii("command"), Ascii("args"),
                                 Ascii("url"), Ascii("env"), Ascii("headers"), Ascii("extra")} :: k in m)
            && OthersCarried(m[Ascii("extra")], shown)
            && m[Ascii("name")] == Str(name) && TransportFits(m[Ascii("transport")], kind, command)
            && Carries(m[Ascii("type_raw")], kind, kind.Some? && kind.value.Str?)
            && Carries(m[Ascii("command")], command, command.Some? && command.value.Str?)
            && Carries(m[Ascii("url")], url, url.Some? && url.value.Str?)
            && Carries(m[Ascii("args")], args, args.Some? && AllStrings(args.value))
            && DigestsCarried(m[Ascii("env")], Below(server, Key(Ascii("env"))), setup)
            && DigestsCarried(m[Ascii("headers")], Below(server, Key(Ascii("headers"))), setup)
  {
    hide RedactTree, McpValue, McpBase, Ascii, AllStrings, DigestMap, Transport, Extra, FieldDigest;
    ShownObject(server, key, setup);
    var f := McpFieldsOf(name, RedactTree(server, key, setup.detector), server, setup);
    McpMembersRead(f);
    McpBaseRead(f);
    DigestsAreCarried(Below(server, Key(Ascii("env"))), setup);
    DigestsAreCarried(Below(server, Key(Ascii("headers"))), setup);
    TransportIs(RedactTree(server, key, setup.detector));
    OthersAreCarried(RedactTree(server, key, setup.detector));
  }

  /** The members outside the six fields, as shown; null if there are none. */
  ghost predicate OthersCarried(extra: Value, shown: Value)
    requires shown.Obj?
  {
    var others := set k | k in shown.members
                    && k !in {Ascii("type"), Ascii("command"), Ascii("args"), Ascii("url"), Ascii("env"), Ascii("headers")};
    if others == {} then extra == Null
    else extra.Obj? && extra.members.Keys == others && forall k | k in others :: extra.members[k] == shown.members[k]
  }

  lemma OthersAreCarried(shown: Value)
    requires shown.Obj?
    ensures OthersCarried(Extra(shown.members), shown)
  {
    hide Ascii;
    var extra := map k | k in shown.members && k !in SERVER_FIELDS :: shown.members[k];
    assert extra == map[] <==> extra.Keys == {};
  }

  lemma TransportIs(shown: Value)
    ensures TransportFits(Transport(shown), Below(shown, Key(Ascii("type"))), Below(shown, Key(Ascii("command"))))
  {
    hide Ascii;
  }

  /** Each string of an object with its digest; null for anything but an object. */
  ghost predicate DigestsCarried(member: Value, raw: Option<Value>, setup: Setup) {
    if raw.Some? && raw.value.Obj? then
      && member.Obj?
      && forall name ::
           Below(member, Key(name)) == match Below(raw.value, Key(name))
                                       case Some(Str(s)) => Some(DigestOf(s, setup))
                                       case _ => None
    else member == Null
  }

  lemma DigestsAreCarried(raw: Option<Value>, setup: Setup)
    ensures DigestsCarried(DigestMap(raw, setup), raw, setup)
  {
    hide DigestOf;
  }

  lemma {:induction false} MapFailuresAre(members: map<Text, Value>, names: seq<Text>, path: Path, x: Item)
    requires forall name | name in names :: name in members
    ensures x in MapFailures(members, names, path)
       <==> x.what == Fail && exists name :: name in names && !members[name].Str? && x.path == path + [Key(name)]
  {
    if names != [] {
      var init, last := names[..|names| - 1], names[|names| - 1];
      MapFailuresAre(members, init, path, x);
      assert forall name :: name in names <==> name in init || name == last;
    }
  }

  /** A field of an env or headers object that is no string. */
  ghost predicate BadMember(raw: Value, s: Step, path: Path, q: Path) {
    Below(raw, s).Some?
    && exists name ::
         var v := Below(Below(raw, s).value, Key(name));
         q == path + [s] + [Key(name)] && v.Some? && !v.value.Str?
  }

  lemma DigestFailuresAre(raw: Value, s: Step, path: Path, x: Item)
    ensures x in DigestFailures(Below(raw, s), path + [s])
       <==> x.what == Fail && Below(raw, s).Some? && Below(raw, s).value.Obj? && BadMember(raw, s, path, x.path)
  {
    hide MapFailures, SortedKeys;
    var v := Below(raw, s);
    if v.Some? && v.value.Obj? {
      MapFailuresAre(v.value.members, SortedKeys(v.value.members), path + [s], x);
    }
  }

  /** What of a server is reported as a failure: exactly the fields of a wrong type among args, env and headers. */
  lemma ServerFailuresAre(shown: Value, raw: Value, path: Path, x: Item)
    ensures var args, env, headers := Key(Ascii("args")), Key(Ascii("env")), Key(Ascii("headers"));
            (x in ServerFailures(shown, raw, path)
             <==> x.what == Fail
                  && (|| (x.path == path + [args] && Below(shown, args).Some? && !AllStrings(Below(shown, args).value))
                      || (exists s :: s in {env, headers} && x.path == path + [s] && NotAnObject(Below(shown, s)))
                      || (exists s :: s in {env, headers} && Below(raw, s).Some? && Below(raw, s).value.Obj?
                                      && BadMember(raw, s, path, x.path))))
  {
    hide Ascii, DigestFailures, BadMember;
    var args, env, headers := Key(Ascii("args")), Key(Ascii("env")), Key(Ascii("headers"));
    DigestFailuresAre(raw, env, path, x);
    DigestFailuresAre(raw, headers, path, x);
    assert env in {env, headers} && headers in {env, headers};
  }
}
