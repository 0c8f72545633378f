/**
 * The accepted language as concrete syntax trees: RFC 8259 JSON (sections 2 to 7) with comments
 * and one trailing comma. Every tree spells exactly one text (Yield...) and, when Valid..., that
 * text is in the language. Nothing here mentions a parser.
 */
module Grammar {
  import opened Texts

  const TAB: CodeUnit := 0x09
  const LF: CodeUnit := 0x0a
  const CR: CodeUnit := 0x0d
  const SPACE: CodeUnit := 0x20
  const QUOTE: CodeUnit := 0x22
  const STAR: CodeUnit := 0x2a
  const PLUS: CodeUnit := 0x2b
  const COMMA: CodeUnit := 0x2c
  const MINUS: CodeUnit := 0x2d
  const DOT: CodeUnit := 0x2e
  const SLASH: CodeUnit := 0x2f
  const ZERO: CodeUnit := 0x30
  const NINE: CodeUnit := 0x39
  const COLON: CodeUnit := 0x3a
  const E_UPPER: CodeUnit := 0x45
  const LBRACKET: CodeUnit := 0x5b
  const BACKSLASH: CodeUnit := 0x5c
  const RBRACKET: CodeUnit := 0x5d
  const E_LOWER: CodeUnit := 0x65
  const U_LOWER: CodeUnit := 0x75
  const LBRACE: CodeUnit := 0x7b
  const RBRACE: CodeUnit := 0x7d
  const BOM: CodeUnit := 0xfeff

  const TRUE_WORD: Text := [0x74, 0x72, 0x75, 0x65]
  const FALSE_WORD: Text := [0x66, 0x61, 0x6c, 0x73, 0x65]
  const NULL_WORD: Text := [0x6e, 0x75, 0x6c, 0x6c]

  predicate IsSpace(c: CodeUnit) { c == SPACE || c == TAB || c == LF || c == CR }
  predicate IsNewline(c: CodeUnit) { c == LF || c == CR }
  predicate IsDigit(c: CodeUnit) { ZERO <= c <= NINE }

  /** What may stand between tokens. */
  datatype Gap =
    | NoGap
    | Space(c: CodeUnit, rest: Gap)
    | LineComment(body: Text, rest: Gap)
    | BlockComment(body: Text, rest: Gap)

  function YieldGap(g: Gap): Text {
    match g
    case NoGap => []
    case Space(c, rest) => [c] + YieldGap(rest)
    case LineComment(body, rest) => [SLASH, SLASH] + (body + YieldGap(rest))
    case BlockComment(body, rest) => [SLASH, STAR] + (body + ([STAR, SLASH] + YieldGap(rest)))
  }

  predicate Newlineless(body: Text) {
    forall k | 0 <= k < |body| :: !IsNewline(body[k])
  }

  /** No closing mark starts inside body when body is followed by one. */
  predicate Closeless(body: Text) {
    forall k | 0 <= k < |body| :: !(body[k] == STAR && (body + [STAR, SLASH])[k + 1] == SLASH)
  }

  /** A line comment runs to a newline; only at the end of the document may it run to the end of input. */
  predicate ValidGap(g: Gap, atEnd: bool) {
    match g
    case NoGap => true
    case Space(c, rest) => IsSpace(c) && ValidGap(rest, atEnd)
    case LineComment(body, rest) =>
      Newlineless(body) && ValidGap(rest, atEnd) && (if rest.NoGap? then atEnd else rest.Space? && IsNewline(rest.c))
    case BlockComment(body, rest) => Closeless(body) && ValidGap(rest, atEnd)
  }

  /** The inside of a string literal. */
  datatype Chars =
    | NoChars
    | Plain(c: CodeUnit, rest: Chars)
    | Escaped(c: CodeUnit, rest: Chars)
    | Hex(digits: Text, rest: Chars)

  function YieldChars(s: Chars): Text {
    match s
    case NoChars => []
    case Plain(c, rest) => [c] + YieldChars(rest)
    case Escaped(c, rest) => [BACKSLASH, c] + YieldChars(rest)
    case Hex(digits, rest) => [BACKSLASH, U_LOWER] + (digits + YieldChars(rest))
  }

  predicate IsPlain(c: CodeUnit) { SPACE <= c && c != QUOTE && c != BACKSLASH }

  /** The unit a two-character escape stands for. */
  function EscapeMeaning(c: CodeUnit): Option<CodeUnit> {
    if c == QUOTE || c == BACKSLASH || c == SLASH then Some(c)
    else if c == 0x62 then Some(0x08)
    else if c == 0x66 then Some(0x0c)
    else if c == 0x6e then Some(0x0a)
    else if c == 0x72 then Some(0x0d)
    else if c == 0x74 then Some(0x09)
    else None
  }

  predicate IsHexDigit(c: CodeUnit) { IsDigit(c) || 0x41 <= c <= 0x46 || 0x61 <= c <= 0x66 }

  function HexDigitValue(c: CodeUnit): (v: nat)
    requires IsHexDigit(c)
    ensures v < 16
  {
    if IsDigit(c) then c - ZERO else if c <= 0x46 then c - 0x41 + 10 else c - 0x61 + 10
  }

  predicate IsHex4(d: Text) {
    |d| == 4 && IsHexDigit(d[0]) && IsHexDigit(d[1]) && IsHexDigit(d[2]) && IsHexDigit(d[3])
  }

  function HexValue(d: Text): CodeUnit
    requires IsHex4(d)
  {
    HexDigitValue(d[0]) * 4096 + HexDigitValue(d[1]) * 256 + HexDigitValue(d[2]) * 16 + HexDigitValue(d[3])
  }

  predicate ValidChars(s: Chars) {
    match s
    case NoChars => true
    case Plain(c, rest) => IsPlain(c) && ValidChars(rest)
    case Escaped(c, rest) => EscapeMeaning(c).Some? && ValidChars(rest)
    case Hex(digits, rest) => IsHex4(digits) && ValidChars(rest)
  }

  /** The string a literal denotes. */
  function Meaning(s: Chars): Text
    requires ValidChars(s)
  {
    match s
    case NoChars => []
    case Plain(c, rest) => [c] + Meaning(rest)
    case Escaped(c, rest) => [EscapeMeaning(c).value] + Meaning(rest)
    case Hex(digits, rest) => [HexValue(digits)] + Meaning(rest)
  }

  /** The escapes of RFC 8259 section 7, by their letters. */
  lemma EscapesMean()
    ensures Meaning(Escaped(Unit('b'), NoChars)) == [8] && Meaning(Escaped(Unit('t'), NoChars)) == [9]
    ensures Meaning(Escaped(Unit('n'), NoChars)) == [10] && Meaning(Escaped(Unit('f'), NoChars)) == [12]
    ensures Meaning(Escaped(Unit('r'), NoChars)) == [13] && Meaning(Escaped(Unit('/'), NoChars)) == [Unit('/')]
    ensures Meaning(Escaped(Unit('\\'), NoChars)) == [Unit('\\')] && Meaning(Escaped(Unit('"'), NoChars)) == [Unit('"')]
    ensures Meaning(Hex(Ascii("12aF"), NoChars)) == [0x12af] && Meaning(Hex(Ascii("90bE"), NoChars)) == [0x90be]
  {
  }

  /** RFC 8259 section 6: [minus] int [frac] [exp]. An empty frac means there is none. */
  datatype Number = Number(minus: bool, whole: Text, frac: Text, exp: Option<Exponent>)
  datatype Exponent = Exponent(mark: CodeUnit, sign: Text, digits: Text)

  predicate AllDigits(d: Text) {
    forall k | 0 <= k < |d| :: IsDigit(d[k])
  }

  predicate ValidNumber(n: Number) {
    && AllDigits(n.whole) && n.whole != [] && (n.whole[0] == ZERO ==> |n.whole| == 1)
    && AllDigits(n.frac)
    && (n.exp.Some? ==> ValidExponent(n.exp.value))
  }

  predicate ValidExponent(e: Exponent) {
    && (e.mark == E_LOWER || e.mark == E_UPPER)
    && (e.sign == [] || e.sign == [PLUS] || e.sign == [MINUS])
    && AllDigits(e.digits) && e.digits != []
  }

  function YieldExp(e: Option<Exponent>): Text {
    if e.None? then [] else [e.value.mark] + (e.value.sign + e.value.digits)
  }

  function YieldFrac(frac: Text): Text {
    if frac == [] then [] else [DOT] + frac
  }

  function YieldMinus(minus: bool): Text {
    if minus then [MINUS] else []
  }

  function YieldNumber(n: Number): Text {
    YieldMinus(n.minus) + (n.whole + (YieldFrac(n.frac) + YieldExp(n.exp)))
  }

  datatype Word = True | False | Null

  function YieldWord(w: Word): Text {
    match w
    case True => TRUE_WORD
    case False => FALSE_WORD
    case Null => NULL_WORD
  }

  /** A value; List is an object when isObject holds and an array otherwise. */
  datatype Tree =
    | Literal(word: Word)
    | Numeral(number: Number)
    | Quoted(chars: Chars)
    | List(isObject: bool, elems: Elems)

  /** The rest of a list, from just after its bracket or a comma up to its closing bracket. */
  datatype Elems =
    | Close(gap: Gap)
    | Last(elem: Elem)
    | More(elem: Elem, rest: Elems)

  datatype Elem = Elem(before: Gap, prop: Option<Property>, tree: Tree, after: Gap)

  /** The property name of an object member and its colon. */
  datatype Property = Property(name: Chars, beforeColon: Gap, afterColon: Gap)

  datatype Document = Document(before: Gap, root: Tree, after: Gap)

  function Opening(isObject: bool): CodeUnit { if isObject then LBRACE else LBRACKET }
  function Closing(isObject: bool): CodeUnit { if isObject then RBRACE else RBRACKET }

  function YieldQuoted(s: Chars): Text {
    [QUOTE] + (YieldChars(s) + [QUOTE])
  }

  function YieldProperty(p: Option<Property>): Text {
    if p.None? then []
    else YieldQuoted(p.value.name) + (YieldGap(p.value.beforeColon) + ([COLON] + YieldGap(p.value.afterColon)))
  }

  function YieldElem(e: Elem): Text {
    YieldGap(e.before) + (YieldProperty(e.prop) + (YieldTree(e.tree) + YieldGap(e.after)))
  }

  function YieldTree(v: Tree): Text {
    match v
    case Literal(w) => YieldWord(w)
    case Numeral(n) => YieldNumber(n)
    case Quoted(s) => YieldQuoted(s)
    case List(isObject, elems) => [Opening(isObject)] + YieldElems(elems, isObject)
  }

  function YieldElems(es: Elems, isObject: bool): Text {
    match es
    case Close(gap) => YieldGap(gap) + [Closing(isObject)]
    case Last(e) => YieldElem(e) + [Closing(isObject)]
    case More(e, rest) => YieldElem(e) + ([COMMA] + YieldElems(rest, isObject))
  }

  function YieldDocument(d: Document): Text {
    YieldGap(d.before) + (YieldTree(d.root) + YieldGap(d.after))
  }

  predicate ValidProperty(p: Option<Property>) {
    p.Some? ==> ValidChars(p.value.name) && ValidGap(p.value.beforeColon, false) && ValidGap(p.value.afterColon, false)
  }

  predicate ValidElem(e: Elem, isObject: bool) {
    && e.prop.Some? == isObject
    && ValidGap(e.before, false) && ValidProperty(e.prop) && ValidTree(e.tree) && ValidGap(e.after, false)
  }

  predicate ValidTree(v: Tree) {
    match v
    case Literal(w) => true
    case Numeral(n) => ValidNumber(n)
    case Quoted(s) => ValidChars(s)
    case List(isObject, elems) => ValidElems(elems, isObject)
  }

  predicate ValidElems(es: Elems, isObject: bool) {
    match es
    case Close(gap) => ValidGap(gap, false)
    case Last(e) => ValidElem(e, isObject)
    case More(e, rest) => ValidElem(e, isObject) && ValidElems(rest, isObject)
  }

  predicate ValidDocument(d: Document) {
    ValidGap(d.before, false) && ValidTree(d.root) && ValidGap(d.after, true)
  }

  function Max(a: nat, b: nat): nat { if a < b then b else a }

  /** How many lists enclose the deepest value. */
  function Depth(v: Tree): nat {
    if v.List? then 1 + DepthElems(v.elems) else 0
  }

  function DepthElems(es: Elems): nat {
    match es
    case Close(_) => 0
    case Last(e) => Depth(e.tree)
    case More(e, rest) => Max(Depth(e.tree), DepthElems(rest))
  }
}
