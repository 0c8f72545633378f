/** The parser inverts the printer; hence printed texts are injective and prefix-free. */
module RoundTrip {
  import opened Texts
  import opened Grammar
  import opened Reader
  import opened Language
  import opened Json
  import opened Sorting
  import opened Denotation
  import opened Repeats
  import opened Jsonc
  import opened JsoncTheorems
  import opened Canonical

  // ---- the syntax tree of a printed value ----

  ghost predicate IsLexeme(lexeme: Text) {
    exists n :: ValidNumber(n) && YieldNumber(n) == lexeme
  }

  /** All numbers in the value are spelled as RFC 8259 numbers. */
  ghost predicate Printable(v: Value)
    decreases v
  {
    match v
    case Num(lexeme) => IsLexeme(lexeme)
    case Arr(items) => forall i | 0 <= i < |items| :: Printable(items[i])
    case Obj(members) => forall k | k in members :: Printable(members[k])
    case _ => true
  }

  function CharsOf(s: Text): Chars {
    if s == [] then NoChars
    else if ShortEscape(s[0]).Some? then Escaped(ShortEscape(s[0]).value, CharsOf(s[1..]))
    else if s[0] < SPACE then Hex(Hex4(s[0]), CharsOf(s[1..]))
    else if IsLead(s[0]) && |s| > 1 && IsTrail(s[1]) then Plain(s[0], Plain(s[1], CharsOf(s[2..])))
    else if IsLead(s[0]) || IsTrail(s[0]) then Hex(Hex4(s[0]), CharsOf(s[1..]))
    else Plain(s[0], CharsOf(s[1..]))
  }

  predicate PairStarts(s: Text) { |s| > 1 && IsLead(s[0]) && IsTrail(s[1]) }

  lemma {:induction false} CharsSpell(s: Text)
    ensures ValidChars(CharsOf(s)) && YieldChars(CharsOf(s)) == PrintChars(s) && Meaning(CharsOf(s)) == s
    decreases |s|
  {
    hide CharsOf, ValidChars, YieldChars, PrintChars, Meaning;
    if s == [] {
      NoCharsSpell();
    } else if PairStarts(s) {
      CharsSpell(s[2..]);
      PairSpells(s);
    } else {
      CharsSpell(s[1..]);
      CharSpells(s);
    }
  }

  lemma NoCharsSpell()
    ensures ValidChars(CharsOf([])) && YieldChars(CharsOf([])) == PrintChars([]) && Meaning(CharsOf([])) == []
  {
  }

  lemma PairSpells(s: Text)
    requires PairStarts(s)
    requires ValidChars(CharsOf(s[2..])) && YieldChars(CharsOf(s[2..])) == PrintChars(s[2..])
      && Meaning(CharsOf(s[2..])) == s[2..]
    ensures ValidChars(CharsOf(s)) && YieldChars(CharsOf(s)) == PrintChars(s) && Meaning(CharsOf(s)) == s
  {
    assert CharsOf(s) == Plain(s[0], Plain(s[1], CharsOf(s[2..])));
    assert s == [s[0]] + ([s[1]] + s[2..]);
  }

  lemma CharSpells(s: Text)
    requires s != [] && !PairStarts(s)
    requires ValidChars(CharsOf(s[1..])) && YieldChars(CharsOf(s[1..])) == PrintChars(s[1..])
      && Meaning(CharsOf(s[1..])) == s[1..]
    ensures ValidChars(CharsOf(s)) && YieldChars(CharsOf(s)) == PrintChars(s) && Meaning(CharsOf(s)) == s
  {
    hide Hex4, HexValue, IsHex4;
    assert s == [s[0]] + s[1..];
  }

  function SpacesGap(n: nat): Gap {
    if n == 0 then NoGap else Space(SPACE, SpacesGap(n - 1))
  }

  function BreakGap(indent: Option<nat>): Gap {
    if indent.None? then NoGap else Space(LF, SpacesGap(indent.value))
  }

  lemma {:induction false} SpacesSpell(n: nat)
    ensures ValidGap(SpacesGap(n), false) && YieldGap(SpacesGap(n)) == Spaces(n)
  {
    if n > 0 { SpacesSpell(n - 1); }
  }

  lemma BreakSpells(indent: Option<nat>)
    ensures ValidGap(BreakGap(indent), false) && YieldGap(BreakGap(indent)) == Break(indent)
  {
    if indent.Some? { SpacesSpell(indent.value); }
  }

  ghost function NumberOf(lexeme: Text): (n: Number)
    requires IsLexeme(lexeme)
    ensures ValidNumber(n) && YieldNumber(n) == lexeme
  {
    var n :| ValidNumber(n) && YieldNumber(n) == lexeme;
    n
  }

  ghost function TreeOf(v: Value, indent: Option<nat>): Tree
    requires Printable(v)
    decreases v, 1, 0
  {
    match v
    case Null => Literal(Word.Null)
    case Bool(b) => Literal(if b then True else False)
    case Num(lexeme) => Numeral(NumberOf(lexeme))
    case Str(s) => Quoted(CharsOf(s))
    case Arr(items) =>
      List(false, if items == [] then Close(NoGap) else ItemElems(v, 0, indent))
    case Obj(members) =>
      List(true, if members == map[] then Close(NoGap) else MemberElems(v, KeysOf(members), indent))
  }

  /** One element on a line of its own; the last one is followed by the break before the closing bracket. */
  function ElemOf(prop: Option<Property>, tree: Tree, indent: Option<nat>, last: bool): Elem {
    Elem(BreakGap(Deeper(indent)), prop, tree, if last then BreakGap(indent) else NoGap)
  }

  function PropertyOf(key: Text, indent: Option<nat>): Property {
    Property(CharsOf(key), NoGap, if indent.None? then NoGap else Space(SPACE, NoGap))
  }

  ghost function ItemElems(v: Value, i: nat, indent: Option<nat>): Elems
    requires v.Arr? && i < |v.items| && Printable(v)
    decreases v, 0, |v.items| - i
  {
    var tree := TreeOf(v.items[i], Deeper(indent));
    if i + 1 == |v.items| then Last(ElemOf(None, tree, indent, true))
    else More(ElemOf(None, tree, indent, false), ItemElems(v, i + 1, indent))
  }

  ghost function MemberElems(v: Value, keys: seq<Text>, indent: Option<nat>): Elems
    requires v.Obj? && keys != [] && Printable(v) && forall k | k in keys :: k in v.members
    decreases v, 0, |keys|
  {
    var tree, prop := TreeOf(v.members[keys[0]], Deeper(indent)), Some(PropertyOf(keys[0], indent));
    if |keys| == 1 then Last(ElemOf(prop, tree, indent, true))
    else More(ElemOf(prop, tree, indent, false), MemberElems(v, keys[1..], indent))
  }

  // ---- it spells the printed text ----

  lemma ElemSpells(prop: Option<Property>, tree: Tree, indent: Option<nat>, last: bool, isObject: bool)
    requires ValidTree(tree) && prop.Some? == isObject && ValidProperty(prop)
    ensures ValidElem(ElemOf(prop, tree, indent, last), isObject)
    ensures YieldElem(ElemOf(prop, tree, indent, last))
         == Break(Deeper(indent)) + (YieldProperty(prop) + (YieldTree(tree) + (if last then Break(indent) else [])))
  {
    hide YieldTree, ValidTree, YieldProperty, ValidProperty, YieldGap, BreakGap, Break;
    BreakSpells(indent);
    BreakSpells(Deeper(indent));
    assert YieldGap(NoGap) == [] && ValidGap(NoGap, false) by { EmptyGapSpells(); }
  }

  lemma EmptyGapSpells()
    ensures YieldGap(NoGap) == [] && ValidGap(NoGap, false)
  {
  }

  lemma PropertySpells(key: Text, indent: Option<nat>)
    ensures ValidProperty(Some(PropertyOf(key, indent)))
    ensures YieldProperty(Some(PropertyOf(key, indent)))
         == PrintString(key) + (if indent.None? then [COLON] else [COLON, SPACE])
  {
    CharsSpell(key);
    var after := PropertyOf(key, indent).afterColon;
    assert YieldGap(after) == if indent.None? then [] else [SPACE];
    assert [COLON] + YieldGap(after) == if indent.None? then [COLON] else [COLON, SPACE];
    assert [] + ([COLON] + YieldGap(after)) == [COLON] + YieldGap(after);
  }

  lemma {:induction false} PrintSpells(v: Value, indent: Option<nat>)
    requires Printable(v)
    ensures ValidTree(TreeOf(v, indent)) && YieldTree(TreeOf(v, indent)) == Print(v, indent)
    decreases v, 1, 0
  {
    hide Break, PrintItems, PrintMembers, ItemElems, MemberElems, CharsOf, PrintChars;
    match v
    case Str(s) => CharsSpell(s);
    case Arr(items) =>
      if items != [] { ItemsSpell(v, 0, indent); }
    case Obj(members) =>
      if members != map[] { MembersSpell(v, KeysOf(members), indent); }
    case _ =>
  }

  lemma {:induction false} ItemsSpell(v: Value, i: nat, indent: Option<nat>)
    requires v.Arr? && i < |v.items| && Printable(v)
    ensures ValidElems(ItemElems(v, i, indent), false)
    ensures YieldElems(ItemElems(v, i, indent), false)
         == PrintItems(v, i, Deeper(indent)) + (Break(indent) + [RBRACKET])
    decreases v, 0, |v.items| - i
  {
    hide Break, Print, TreeOf, ElemOf, YieldElem, YieldTree, ValidElem, ValidTree, Deeper;
    var inner, last := Deeper(indent), i + 1 == |v.items|;
    var tree := TreeOf(v.items[i], inner);
    PrintSpells(v.items[i], inner);
    ElemSpells(None, tree, indent, last, false);
    var item := Break(inner) + Print(v.items[i], inner);
    assert [] + (Print(v.items[i], inner) + []) == Print(v.items[i], inner);
    assert [] + (Print(v.items[i], inner) + Break(indent)) == Print(v.items[i], inner) + Break(indent);
    if last {
      assert YieldElems(ItemElems(v, i, indent), false) == Break(inner) + (Print(v.items[i], inner) + Break(indent))
        + [RBRACKET];
      assert Break(inner) + (Print(v.items[i], inner) + Break(indent)) + [RBRACKET] == item
        + (Break(indent) + [RBRACKET]);
    } else {
      ItemsSpell(v, i + 1, indent);
      var rest, end := PrintItems(v, i + 1, inner), Break(indent) + [RBRACKET];
      assert YieldElems(ItemElems(v, i, indent), false) == item + ([COMMA] + (rest + end));
      assert item + ([COMMA] + (rest + end)) == item + ([COMMA] + rest) + end;
    }
  }

  lemma {:induction false} MembersSpell(v: Value, keys: seq<Text>, indent: Option<nat>)
    requires v.Obj? && keys != [] && Printable(v) && forall k | k in keys :: k in v.members
    ensures ValidElems(MemberElems(v, keys, indent), true)
    ensures YieldElems(MemberElems(v, keys, indent), true)
         == PrintMembers(v, keys, Deeper(indent)) + (Break(indent) + [RBRACE])
    decreases v, 0, |keys|
  {
    hide Break, Print, TreeOf, ElemOf, YieldElem, YieldTree, ValidElem, ValidTree, Deeper, PrintString, PropertyOf,
         YieldProperty, ValidProperty;
    var inner, last := Deeper(indent), |keys| == 1;
    assert inner.None? == indent.None? by { DeeperKind(indent); }
    var tree, prop := TreeOf(v.members[keys[0]], inner), Some(PropertyOf(keys[0], indent));
    PrintSpells(v.members[keys[0]], inner);
    PropertySpells(keys[0], indent);
    ElemSpells(prop, tree, indent, last, true);
    var b, k, p := Break(inner), PrintString(keys[0]), Print(v.members[keys[0]], inner);
    var colon := if indent.None? then [COLON] else [COLON, SPACE];
    var member := b + (k + (colon + p));
    if last {
      var c := Break(indent);
      assert YieldElems(MemberElems(v, keys, indent), true) == b + (k + colon + (p + c)) + [RBRACE];
      assert b + (k + colon + (p + c)) + [RBRACE] == member + (c + [RBRACE]);
    } else {
      MembersSpell(v, keys[1..], indent);
      var rest, end := PrintMembers(v, keys[1..], inner), Break(indent) + [RBRACE];
      assert b + (k + colon + (p + [])) == member;
      assert YieldElems(MemberElems(v, keys, indent), true) == member + ([COMMA] + (rest + end));
      assert member + ([COMMA] + (rest + end)) == member + ([COMMA] + rest) + end;
    }
  }

  lemma DeeperKind(indent: Option<nat>)
    ensures Deeper(indent).None? == indent.None?
  {
  }

  // ---- it means the printed value ----

  /** No value in v stands inside more than n arrays and objects. */
  ghost predicate NestsWithin(v: Value, n: nat)
    decreases v
  {
    match v
    case Arr(items) => n > 0 && forall i | 0 <= i < |items| :: NestsWithin(items[i], n - 1)
    case Obj(members) => n > 0 && forall k | k in members :: NestsWithin(members[k], n - 1)
    case _ => true
  }

  lemma {:induction false} PrintMeans(v: Value, indent: Option<nat>)
    requires Printable(v)
    ensures ValidTree(TreeOf(v, indent)) && TreeValue(TreeOf(v, indent)) == v && RepeatCount(TreeOf(v, indent)) == 0
    decreases v, 1, 0
  {
    hide ItemElems, MemberElems, YieldNumber, Items, Members, YieldTree, Print, Names, RepeatsFrom, KeysOf,
         RepeatCountIn, Onto, ValidElems;
    PrintSpells(v, indent);
    NothingListed();
    match v
    case Str(s) => CharsSpell(s);
    case Arr(items) =>
      if items != [] {
        ItemsMean(v, 0, indent);
        assert items[0..] == items;
      }
    case Obj(members) =>
      if members != map[] {
        KeysAreDistinct(members);
        MembersMean(v, KeysOf(members), indent, map[]);
        AllKeysOnto(v);
        NoneRepeats(KeysOf(members));
      }
    case _ =>
  }

  lemma KeysAreDistinct(members: map<Text, Value>)
    ensures Distinct(KeysOf(members))
    ensures members != map[] ==> KeysOf(members) != []
  {
    EnumerationIsStrictTotal();
    DistinctKeys(KeysOf(members));
    if members != map[] {
      var k :| k in members;
      assert k in KeysOf(members);
    }
  }

  lemma AllKeysOnto(v: Value)
    requires v.Obj?
    ensures Onto(map[], v, KeysOf(v.members)) == v.members
  {
  }

  lemma NothingListed()
    ensures Items(Close(NoGap)) == [] && Members(Close(NoGap), map[]) == map[]
    ensures ValidElems(Close(NoGap), true) && Names(Close(NoGap)) == [] && RepeatsFrom([], 0) == {}
    ensures ValidElems(Close(NoGap), false) && RepeatCountIn(Close(NoGap), true) == 0
      == RepeatCountIn(Close(NoGap), false)
  {
  }

  ghost predicate Distinct(keys: seq<Text>) {
    forall i, j | 0 <= i < j < |keys| :: keys[i] != keys[j]
  }

  lemma DistinctKeys(keys: seq<Text>)
    requires StrictTotal(EnumeratedBefore) && Increasing(keys, EnumeratedBefore)
    ensures Distinct(keys)
  {
    hide EnumeratedBefore;
    forall i, j | 0 <= i < j < |keys| ensures keys[i] != keys[j] {
      assert EnumeratedBefore(keys[i], keys[j]);
    }
  }

  lemma NoneRepeats(keys: seq<Text>)
    requires Distinct(keys)
    ensures RepeatsFrom(keys, 0) == {}
  {
    forall k: nat | k < |keys| ensures !Repeating(keys, k) {
      var j := First(keys, keys[k]);
    }
  }

  lemma {:induction false} ItemsMean(v: Value, i: nat, indent: Option<nat>)
    requires v.Arr? && i < |v.items| && Printable(v)
    ensures var es := ItemElems(v, i, indent);
            ValidElems(es, false) && Items(es) == v.items[i..] && RepeatCountIn(es, false) == 0
    decreases v, 0, |v.items| - i
  {
    hide TreeOf, YieldTree, YieldElems, TreeValue, Break, RepeatCount;
    PrintMeans(v.items[i], Deeper(indent));
    ItemsSpell(v, i, indent);
    if i + 1 < |v.items| { ItemsMean(v, i + 1, indent); }
  }

  /** obj with the members of v under the keys. */
  ghost function Onto(obj: map<Text, Value>, v: Value, keys: seq<Text>): map<Text, Value>
    requires v.Obj? && forall k | k in keys :: k in v.members
  {
    obj + map k | k in keys :: v.members[k]
  }

  lemma {:induction false} MembersMean(v: Value, keys: seq<Text>, indent: Option<nat>, obj: map<Text, Value>)
    requires v.Obj? && keys != [] && Printable(v) && forall k | k in keys :: k in v.members && k !in obj
    requires Distinct(keys)
    ensures var es := MemberElems(v, keys, indent);
            && ValidElems(es, true) && Members(es, obj) == Onto(obj, v, keys) && Names(es) == keys
            && RepeatCountIn(es, true) == 0
    decreases v, 0, |keys|
  {
    hide TreeOf, YieldTree, YieldElems, TreeValue, Break, RepeatCount, RepeatCountAt, Printable, Onto, Name, Join,
         ElemOf, PropertyOf, ValidElem;
    MemberMeans(v, keys, indent, obj);
    OntoStep(obj, v, keys);
    if |keys| == 1 {
      assert keys == [keys[0]];
    } else {
      MembersMean(v, keys[1..], indent, obj[keys[0] := v.members[keys[0]]]);
      assert keys == [keys[0]] + keys[1..];
    }
  }

  lemma OntoStep(obj: map<Text, Value>, v: Value, keys: seq<Text>)
    requires v.Obj? && keys != [] && Distinct(keys) && (forall k | k in keys :: k in v.members)
    ensures Onto(obj[keys[0] := v.members[keys[0]]], v, keys[1..]) == Onto(obj, v, keys)
    ensures |keys| == 1 ==> obj[keys[0] := v.members[keys[0]]] == Onto(obj, v, keys)
    ensures Distinct(keys[1..]) && forall k | k in keys[1..] :: k != keys[0]
  {
    assert forall x :: x in keys <==> x == keys[0] || x in keys[1..];
  }

  lemma {:induction false} MemberMeans(v: Value, keys: seq<Text>, indent: Option<nat>, obj: map<Text, Value>)
    requires v.Obj? && keys != [] && Printable(v) && (forall k | k in keys :: k in v.members) && keys[0] !in obj
    ensures var e := MemberElems(v, keys, indent).elem;
            && ValidElem(e, true) && Name(e) == keys[0] && RepeatCountAt(e, true) == 0
            && Join(obj, e) == obj[keys[0] := v.members[keys[0]]]
    decreases v, 0, 0
  {
    hide YieldTree, Break, YieldGap, PrintString, BreakGap;
    CharsSpell(keys[0]);
    PrintMeans(v.members[keys[0]], Deeper(indent));
    PropertySpells(keys[0], indent);
    ElemSpells(
      Some(PropertyOf(keys[0], indent)), TreeOf(v.members[keys[0]], Deeper(indent)), indent, |keys| == 1, true);
  }

  lemma {:induction false} PrintNests(v: Value, indent: Option<nat>, n: nat)
    requires Printable(v)
    ensures Depth(TreeOf(v, indent)) <= n <==> NestsWithin(v, n)
    decreases v, 1, 0
  {
    hide ItemElems, MemberElems;
    match v
    case Arr(items) =>
      if items != [] && n > 0 { ItemsNest(v, 0, indent, n - 1); }
    case Obj(members) =>
      if members != map[] && n > 0 { MembersNest(v, KeysOf(members), indent, n - 1); }
    case _ =>
  }

  lemma {:induction false} ItemsNest(v: Value, i: nat, indent: Option<nat>, n: nat)
    requires v.Arr? && i < |v.items| && Printable(v)
    ensures DepthElems(ItemElems(v, i, indent)) <= n <==> forall j | i <= j < |v.items| :: NestsWithin(v.items[j], n)
    decreases v, 0, |v.items| - i
  {
    hide TreeOf, Depth, BreakGap;
    PrintNests(v.items[i], Deeper(indent), n);
    if i + 1 < |v.items| { ItemsNest(v, i + 1, indent, n); }
  }

  lemma {:induction false} MembersNest(v: Value, keys: seq<Text>, indent: Option<nat>, n: nat)
    requires v.Obj? && keys != [] && Printable(v) && forall k | k in keys :: k in v.members
    ensures DepthElems(MemberElems(v, keys, indent)) <= n <==> forall k | k in keys :: NestsWithin(v.members[k], n)
    decreases v, 0, |keys|
  {
    hide TreeOf, Depth, BreakGap, PropertyOf;
    PrintNests(v.members[keys[0]], Deeper(indent), n);
    assert forall k :: k in keys <==> k == keys[0] || k in keys[1..];
    if |keys| > 1 { MembersNest(v, keys[1..], indent, n); }
  }

  // ---- main results ----

  /** What follows a printed value does not continue it. */
  predicate Ends(rest: Text) {
    NumberStops(rest, 0)
  }

  lemma PrintedIsRead(v: Value, indent: Option<nat>, rest: Text, maxDepth: nat)
    requires Printable(v) && Ends(rest) && NestsWithin(v, maxDepth)
    ensures ReadTree(Print(v, indent) + rest, 0, 0, maxDepth) == Ok(TreeOf(v, indent), |Print(v, indent)|)
    ensures Origin(Print(v, indent) + rest) == 0
  {
    hide Print, TreeOf, ReadTree, YieldTree, ValidTree, Depth, NestsWithin, TreeValue, RepeatCount, Printable;
    var t := Print(v, indent) + rest;
    PrintSpells(v, indent);
    PrintNests(v, indent, maxDepth);
    OccursFirst(Print(v, indent), rest);
    assert |Print(v, indent)| < |t| ==> t[|Print(v, indent)|] == rest[0];
    CompleteTree(t, 0, TreeOf(v, indent), 0, maxDepth);
  }

  /** Printed texts are uniquely decodable: from the text and what follows it, the value is determined. */
  lemma PrintingIsDecodable(v: Value, w: Value, indent: Option<nat>, x: Text, y: Text)
    requires Printable(v) && Printable(w) && Ends(x) && Ends(y)
    requires Print(v, indent) + x == Print(w, indent) + y
    ensures v == w && x == y
  {
    hide Print, TreeOf, ReadTree, ValidTree, Depth, TreeValue, RepeatCount, Printable, Ends;
    var n := Max(Depth(TreeOf(v, indent)), Depth(TreeOf(w, indent)));
    PrintNests(v, indent, n);
    PrintNests(w, indent, n);
    PrintedIsRead(v, indent, x, n);
    PrintedIsRead(w, indent, y, n);
    PrintMeans(v, indent);
    PrintMeans(w, indent);
    var t := Print(v, indent) + x;
    assert x == t[|Print(v, indent)|..] && y == t[|Print(w, indent)|..];
  }

  /** JSON.stringify without indentation. */
  ghost function Stringify(v: Value): Text {
    Print(v, None)
  }

  lemma StringifyInjective(v: Value, w: Value)
    requires Printable(v) && Printable(w) && Stringify(v) == Stringify(w)
    ensures v == w
  {
    PrintingIsDecodable(v, w, None, [], []);
  }

  lemma {:induction false} DropProtoPrintable(v: Value)
    requires Printable(v)
    ensures Printable(DropProto(v))
    decreases v
  {
    match v
    case Arr(items) => forall i | 0 <= i < |items|
      ensures Printable(DropProto(items[i])) { DropProtoPrintable(items[i]); }
    case Obj(members) => forall k | k in members
      ensures Printable(DropProto(members[k])) { DropProtoPrintable(members[k]); }
    case _ =>
  }

  /** Canonical texts are injective: they are equal exactly when the values are, but for __proto__ members. */
  lemma CanonicalJsonInjective(v: Value, w: Value)
    requires Printable(v) && Printable(w)
    ensures CanonicalJson(v) == CanonicalJson(w) <==> DropProto(v) == DropProto(w)
  {
    if CanonicalJson(v) == CanonicalJson(w) { CanonicalJsonPrefixFree(v, w, [], []); }
  }

  /** Canonical texts are prefix-free: a text that starts with one starts with no other. */
  lemma CanonicalJsonPrefixFree(v: Value, w: Value, x: Text, y: Text)
    requires Printable(v) && Printable(w) && CanonicalJson(v) + x == CanonicalJson(w) + y
    ensures DropProto(v) == DropProto(w) && x == y
  {
    hide Print, DropProto, Printable;
    DropProtoPrintable(v);
    DropProtoPrintable(w);
    var p, q := Print(DropProto(v), Some(0)), Print(DropProto(w), Some(0));
    assert p + ([LF] + x) == p + [LF] + x && q + ([LF] + y) == q + [LF] + y;
    PrintingIsDecodable(DropProto(v), DropProto(w), Some(0), [LF] + x, [LF] + y);
    assert ([LF] + x)[1..] == x && ([LF] + y)[1..] == y;
  }

  /** No member anywhere in v is named __proto__. */
  ghost predicate NoProto(v: Value)
    decreases v
  {
    match v
    case Arr(items) => forall i | 0 <= i < |items| :: NoProto(items[i])
    case Obj(members) => PROTO !in members && forall k | k in members :: NoProto(members[k])
    case _ => true
  }

  lemma {:induction false} DropProtoKeepsAll(v: Value)
    ensures DropProto(v) == v <==> NoProto(v)
    decreases v
  {
    match v
    case Arr(items) =>
      forall i | 0 <= i < |items| ensures DropProto(items[i]) == items[i] <==> NoProto(items[i]) {
        DropProtoKeepsAll(items[i]);
      }
      var dropped := DropProto(v).items;
      assert dropped == items <==> forall i | 0 <= i < |items| :: dropped[i] == items[i];
    case Obj(members) =>
      forall k | k in members ensures DropProto(members[k]) == members[k] <==> NoProto(members[k]) {
        DropProtoKeepsAll(members[k]);
      }
      var dropped := DropProto(v).members;
      if dropped == members {
        forall k | k in members ensures DropProto(members[k]) == members[k] && k != PROTO { assert k in dropped; }
      }
    case _ =>
  }

  /**
   * Parsing undoes printing: within the size limit the canonical text parses to the value printed,
   * less its __proto__ members, exactly when that nests within the depth limit; so the value itself
   * comes back exactly when it has no member of that name.
   */
  lemma ParsingUndoesPrinting(v: Value, maxBytes: nat, maxDepth: nat)
    requires Printable(v) && Utf8Length(CanonicalJson(v)) <= maxBytes
    ensures var r := Parse(CanonicalJson(v), maxBytes, maxDepth);
            && r.value == (if NestsWithin(DropProto(v), maxDepth) then Some(DropProto(v)) else None)
            && (NestsWithin(DropProto(v), maxDepth) ==> r.incomplete == [] && (r.value == Some(v) <==> NoProto(v)))
  {
    hide Print, TreeOf, DropProto, Printable, NestsWithin, Depth, TreeValue, RepeatCount, YieldTree, ValidTree,
         ReadDocument, NoProto, Utf8Length, NamesDistinct, DocumentNotes;
    var w, t := DropProto(v), CanonicalJson(v);
    DropProtoPrintable(v);
    var d := Document(NoGap, TreeOf(w, Some(0)), Space(LF, NoGap));
    DropProtoKeepsAll(v);
    PrintSpells(w, Some(0));
    PrintMeans(w, Some(0));
    PrintNests(w, Some(0), maxDepth);
    DistinctIffNoRepeats(d.root);
    PrintNests(w, Some(0), Depth(d.root));
    PrintedIsRead(w, Some(0), [LF], Depth(d.root));
    assert [] + (Print(w, Some(0)) + ([LF] + [])) == t;
    assert ValidDocument(d) && YieldDocument(d) == t == Body(t);
    ValueIffClean(t, maxBytes, maxDepth);
    if NestsWithin(w, maxDepth) {
      assert Spells(d, t, maxDepth);
      ParserDecidesLanguage(t, maxBytes, maxDepth, w);
    } else {
      var r := Parse(t, maxBytes, maxDepth);
      if r.value.Some? {
        ParserDecidesLanguage(t, maxBytes, maxDepth, r.value.value);
        var e :| Spells(e, t, maxDepth);
        GrammarIsUnambiguous(t, d, e);
      }
    }
  }

  /** Every value that the parser returns can be printed. */
  lemma {:induction false} ParsedIsPrintable(v: Tree)
    requires ValidTree(v)
    ensures Printable(TreeValue(v))
    decreases v, 1
  {
    match v
    case List(isObject, es) => ParsedListIsPrintable(es, isObject, map[]);
    case _ =>
  }

  lemma {:induction false} ParsedListIsPrintable(es: Elems, isObject: bool, obj: map<Text, Value>)
    requires ValidElems(es, isObject) && forall k | k in obj :: Printable(obj[k])
    ensures isObject ==> forall k | k in Members(es, obj) :: Printable(Members(es, obj)[k])
    ensures !isObject ==> forall i | 0 <= i < |Items(es)| :: Printable(Items(es)[i])
    decreases es, 0
  {
    hide Printable;
    if !es.Close? {
      ParsedIsPrintable(es.elem.tree);
      assert ElemValue(es.elem, isObject) == TreeValue(es.elem.tree);
    }
    match es
    case Close(_) =>
    case Last(e) =>
    case More(e, rest) => ParsedListIsPrintable(rest, isObject, if isObject then Join(obj, e) else obj);
  }
}
