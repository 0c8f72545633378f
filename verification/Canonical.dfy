/** Deterministic JSON output: canonicalize, then the text of JSON.stringify. */
module Canonical {
  import opened Texts
  import opened Grammar
  import opened Json
  import opened Sorting

  /** The key that assigning to a plain object does not store. */
  const PROTO: Text := [0x5f, 0x5f, 0x70, 0x72, 0x6f, 0x74, 0x6f, 0x5f, 0x5f]

  /** canonicalize builds into {}, so a __proto__ member is lost; all other data stays. */
  function DropProto(v: Value): Value
    decreases v
  {
    match v
    case Arr(items) => Arr(seq(|items|, i requires 0 <= i < |items| => DropProto(items[i])))
    case Obj(members) => Obj(map k | k in members && k != PROTO :: DropProto(members[k]))
    case _ => v
  }

  // ---- strings ----

  function HexLower(n: nat): (c: CodeUnit)
    requires n < 16
    ensures IsHexDigit(c) && HexDigitValue(c) == n
  {
    if n < 10 then ZERO + n else 0x61 + n - 10
  }

  function Hex4(c: CodeUnit): (d: Text)
    ensures IsHex4(d) && HexValue(d) == c
  {
    var high, low := c / 256, c % 256;
    assert high == high / 16 * 16 + high % 16 && low == low / 16 * 16 + low % 16;
    [HexLower(high / 16), HexLower(high % 16), HexLower(low / 16), HexLower(low % 16)]
  }

  /** The letter of a two-character escape that JSON.stringify writes. */
  function ShortEscape(c: CodeUnit): Option<CodeUnit> {
    if c == QUOTE || c == BACKSLASH then Some(c)
    else if c == 0x08 then Some(0x62)
    else if c == 0x0c then Some(0x66)
    else if c == 0x0a then Some(0x6e)
    else if c == 0x0d then Some(0x72)
    else if c == 0x09 then Some(0x74)
    else None
  }

  predicate IsLead(c: CodeUnit) { 0xd800 <= c < 0xdc00 }
  predicate IsTrail(c: CodeUnit) { 0xdc00 <= c < 0xe000 }

  /** The inside of a printed string: control characters and unpaired surrogates are escaped. */
  function PrintChars(s: Text): Text {
    if s == [] then []
    else if ShortEscape(s[0]).Some? then [BACKSLASH, ShortEscape(s[0]).value] + PrintChars(s[1..])
    else if s[0] < SPACE then [BACKSLASH, U_LOWER] + (Hex4(s[0]) + PrintChars(s[1..]))
    else if IsLead(s[0]) && |s| > 1 && IsTrail(s[1]) then [s[0]] + ([s[1]] + PrintChars(s[2..]))
    else if IsLead(s[0]) || IsTrail(s[0]) then [BACKSLASH, U_LOWER] + (Hex4(s[0]) + PrintChars(s[1..]))
    else [s[0]] + PrintChars(s[1..])
  }

  function PrintString(s: Text): Text {
    [QUOTE] + (PrintChars(s) + [QUOTE])
  }

  // ---- values ----

  function Spaces(n: nat): Text {
    if n == 0 then [] else [SPACE] + Spaces(n - 1)
  }

  /** Nothing in compact output; otherwise a line feed and the indentation. */
  function Break(indent: Option<nat>): Text {
    if indent.None? then [] else [LF] + Spaces(indent.value)
  }

  function Deeper(indent: Option<nat>): Option<nat> {
    if indent.None? then None else Some(indent.value + 2)
  }

  /** The keys of an object in the order in which it enumerates them. */
  function KeysOf(members: map<Text, Value>): seq<Text>
    ensures forall k :: k in KeysOf(members) <==> k in members
  {
    EnumerationIsStrictTotal();
    SortSet(members.Keys, EnumeratedBefore)
  }

  /** Keys are enumerated each once, in the order of enumeration. */
  lemma KeysInOrder(members: map<Text, Value>, i: nat, j: nat)
    requires i < j < |KeysOf(members)|
    ensures EnumeratedBefore(KeysOf(members)[i], KeysOf(members)[j])
  {
    hide EnumeratedBefore;
    EnumerationIsStrictTotal();
  }

  /** The text of a value: compact, or with two spaces of indentation per level. */
  function Print(v: Value, indent: Option<nat>): Text
    decreases v, 1, 0
  {
    match v
    case Null => NULL_WORD
    case Bool(b) => if b then TRUE_WORD else FALSE_WORD
    case Num(lexeme) => lexeme
    case Str(s) => PrintString(s)
    case Arr(items) =>
      if items == [] then [LBRACKET, RBRACKET]
      else [LBRACKET] + (PrintItems(v, 0, Deeper(indent)) + (Break(indent) + [RBRACKET]))
    case Obj(members) =>
      if members == map[] then [LBRACE, RBRACE]
      else [LBRACE] + (PrintMembers(v, KeysOf(members), Deeper(indent)) + (Break(indent) + [RBRACE]))
  }

  function PrintItems(v: Value, i: nat, indent: Option<nat>): Text
    requires v.Arr? && i < |v.items|
    decreases v, 0, |v.items| - i
  {
    var item := Break(indent) + Print(v.items[i], indent);
    if i + 1 == |v.items| then item else item + ([COMMA] + PrintItems(v, i + 1, indent))
  }

  function PrintMembers(v: Value, keys: seq<Text>, indent: Option<nat>): Text
    requires v.Obj? && keys != [] && forall k | k in keys :: k in v.members
    decreases v, 0, |keys|
  {
    var colon := if indent.None? then [COLON] else [COLON, SPACE];
    var member := Break(indent) + (PrintString(keys[0]) + (colon + Print(v.members[keys[0]], indent)));
    if |keys| == 1 then member else member + ([COMMA] + PrintMembers(v, keys[1..], indent))
  }

  /** The text that stands for a value, and for no other unless they differ in `__proto__` members alone; LF ends it. */
  function CanonicalJson(v: Value): Text {
    Print(DropProto(v), Some(0)) + [LF]
  }

  /** canonicalize as the source runs it: arrays item by item, objects key by key in sorted order. */
  method Canonicalize(v: Value) returns (r: Value)
    ensures r == DropProto(v)
    decreases v, 1
  {
    match v
    case Arr(items) =>
      var copies: seq<Value> := [];
      for i := 0 to |items|
        invariant |copies| == i && forall j | 0 <= j < i :: copies[j] == DropProto(items[j])
      {
        var item := Canonicalize(items[i]);
        copies := copies + [item];
      }
      return Arr(copies);
    case Obj(members) =>
      var out := CanonicalizeMembers(v);
      return Obj(out);
    case _ => return v;
  }

  /** The members of v that have been copied once the given keys are done. */
  ghost predicate Copied(out: map<Text, Value>, v: Value, done: seq<Text>)
    requires v.Obj? && forall k | k in done :: k in v.members
  {
    && (forall k :: k in out <==> k in done && k != PROTO)
    && (forall k | k in out :: out[k] == DropProto(v.members[k]))
  }

  lemma CopiedNext(out: map<Text, Value>, v: Value, done: seq<Text>, key: Text)
    requires v.Obj? && (forall k | k in done + [key] :: k in v.members) && Copied(out, v, done) && key in v.members
    ensures Copied(if key == PROTO then out else out[key := DropProto(v.members[key])], v, done + [key])
  {
    hide DropProto;
  }

  method CanonicalizeMembers(v: Value) returns (out: map<Text, Value>)
    requires v.Obj?
    ensures Obj(out) == DropProto(v)
    decreases v, 0
  {
    hide DropProto, Less;
    LessIsStrictTotal();
    var keys := SortSet(v.members.Keys, Less);
    out := map[];
    for i := 0 to |keys|
      invariant Copied(out, v, keys[..i])
    {
      hide Copied;
      assert keys[i] in keys && keys[..i + 1] == keys[..i] + [keys[i]];
      var member := Canonicalize(v.members[keys[i]]);
      CopiedNext(out, v, keys[..i], keys[i]);
      // Assigning to __proto__ of a plain object stores no member.
      if keys[i] != PROTO {
        out := out[keys[i] := member];
      }
    }
    assert keys[..|keys|] == keys;
    CopiedAll(out, v, keys);
  }

  lemma CopiedAll(out: map<Text, Value>, v: Value, keys: seq<Text>)
    requires v.Obj? && (forall k :: k in keys <==> k in v.members) && Copied(out, v, keys)
    ensures Obj(out) == DropProto(v)
  {
  }
}
