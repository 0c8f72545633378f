/**
 * The parser as functions from a text and an index to a concrete syntax tree and the index after
 * it, and the two halves of its specification: what is read is what stands there (Sound...), and
 * what stands there is read (Complete...).
 */
module Reader {
  import opened Texts
  import opened Grammar

  datatype SyntaxError =
    | EmptyDocument
    | TrailingContent
    | UnterminatedComment
    | ExpectedValue
    | TooDeep
    | ExpectedPropertyName
    | ExpectedColon
    | ExpectedCommaOrBrace
    | MissingElement
    | ExpectedCommaOrBracket
    | UnterminatedString
    | ControlCharacter
    | UnterminatedEscape
    | InvalidUnicodeEscape
    | InvalidEscape
    | ExpectedDigit
    | ExpectedFractionDigit
    | ExpectedExponentDigit
    | LeadingZeros

  /** The thing read and the index after it, or an error and the index it is blamed on. */
  datatype Read<+T> = Ok(out: T, next: nat) | Error(kind: SyntaxError, at: nat) {
    predicate IsFailure() { Error? }
    function PropagateFailure<U>(): Read<U>
      requires Error?
    {
      Error(kind, at)
    }
    function Extract(): (T, nat)
      requires Ok?
    {
      (out, next)
    }
  }

  predicate UnitAt(t: Text, i: nat, c: CodeUnit) { i < |t| && t[i] == c }
  predicate DigitAt(t: Text, i: nat) { i < |t| && IsDigit(t[i]) }

  // ---- gaps ----

  function LineEnd(t: Text, i: nat): (j: nat)
    requires i <= |t|
    ensures i <= j <= |t|
    decreases |t| - i
  {
    if i < |t| && !IsNewline(t[i]) then LineEnd(t, i + 1) else i
  }

  function CommentEnd(t: Text, i: nat): (j: Option<nat>)
    requires i <= |t|
    ensures j.Some? ==> i <= j.value && j.value + 2 <= |t|
    decreases |t| - i
  {
    if i == |t| then None
    else if t[i] == STAR && UnitAt(t, i + 1, SLASH) then Some(i)
    else CommentEnd(t, i + 1)
  }

  function ReadGap(t: Text, i: nat): (r: Read<Gap>)
    requires i <= |t|
    ensures if r.Ok? then i <= r.next <= |t| else r.at <= |t|
    decreases |t| - i
  {
    if i < |t| && IsSpace(t[i]) then
      var (g, n) :- ReadGap(t, i + 1);
      Ok(Space(t[i], g), n)
    else if UnitAt(t, i, SLASH) && UnitAt(t, i + 1, SLASH) then
      var j := LineEnd(t, i + 2);
      var (g, n) :- ReadGap(t, j);
      Ok(LineComment(t[i + 2..j], g), n)
    else if UnitAt(t, i, SLASH) && UnitAt(t, i + 1, STAR) then
      var j := CommentEnd(t, i + 2);
      if j.None? then Error(UnterminatedComment, i)
      else
        var (g, n) :- ReadGap(t, j.value + 2);
        Ok(BlockComment(t[i + 2..j.value], g), n)
    else Ok(NoGap, i)
  }

  // ---- strings ----

  /** The inside of a string and the index after its closing quote; start is the opening quote. */
  function ReadChars(t: Text, i: nat, start: nat): (r: Read<Chars>)
    requires i <= |t| && start <= |t|
    ensures if r.Ok? then i < r.next <= |t| else r.at <= |t|
    decreases |t| - i
  {
    if i == |t| then Error(UnterminatedString, start)
    else if t[i] == QUOTE then Ok(NoChars, i + 1)
    else if t[i] == BACKSLASH then
      if i + 1 == |t| then Error(UnterminatedEscape, i + 1)
      else if EscapeMeaning(t[i + 1]).Some? then
        var (s, n) :- ReadChars(t, i + 2, start);
        Ok(Escaped(t[i + 1], s), n)
      else if t[i + 1] != U_LOWER then Error(InvalidEscape, i + 1)
      else if i + 6 <= |t| && IsHex4(t[i + 2..i + 6]) then
        var (s, n) :- ReadChars(t, i + 6, start);
        Ok(Hex(t[i + 2..i + 6], s), n)
      else Error(InvalidUnicodeEscape, i + 1)
    else if t[i] < SPACE then Error(ControlCharacter, i)
    else
      var (s, n) :- ReadChars(t, i + 1, start);
      Ok(Plain(t[i], s), n)
  }

  // ---- numbers ----

  function DigitsEnd(t: Text, i: nat): (j: nat)
    requires i <= |t|
    ensures i <= j <= |t|
    ensures DigitAt(t, i) ==> i < j
    decreases |t| - i
  {
    if DigitAt(t, i) then DigitsEnd(t, i + 1) else i
  }

  /** The integer part: a zero on its own, or a run of digits that does not start with one. */
  function ReadWhole(t: Text, i: nat): (r: Read<Text>)
    requires i <= |t|
    ensures if r.Ok? then i < r.next <= |t| else r.at <= |t|
  {
    if UnitAt(t, i, ZERO) then Ok([ZERO], i + 1)
    else if DigitAt(t, i) then Ok(t[i..DigitsEnd(t, i)], DigitsEnd(t, i))
    else Error(ExpectedDigit, i)
  }

  function ReadFrac(t: Text, i: nat): (r: Read<Text>)
    requires i <= |t|
    ensures if r.Ok? then i <= r.next <= |t| else r.at <= |t|
  {
    if !UnitAt(t, i, DOT) then Ok([], i)
    else if !DigitAt(t, i + 1) then Error(ExpectedFractionDigit, i + 1)
    else Ok(t[i + 1..DigitsEnd(t, i + 1)], DigitsEnd(t, i + 1))
  }

  function SignEnd(t: Text, i: nat): nat {
    if UnitAt(t, i, PLUS) || UnitAt(t, i, MINUS) then i + 1 else i
  }

  function ReadExp(t: Text, i: nat): (r: Read<Option<Exponent>>)
    requires i <= |t|
    ensures if r.Ok? then i <= r.next <= |t| else r.at <= |t|
  {
    if !UnitAt(t, i, E_LOWER) && !UnitAt(t, i, E_UPPER) then Ok(None, i)
    else
      var j := SignEnd(t, i + 1);
      if !DigitAt(t, j) then Error(ExpectedExponentDigit, j)
      else Ok(Some(Exponent(t[i], t[i + 1..j], t[j..DigitsEnd(t, j)])), DigitsEnd(t, j))
  }

  function ReadNumber(t: Text, i: nat): (r: Read<Number>)
    requires i <= |t|
    ensures if r.Ok? then i < r.next <= |t| else r.at <= |t|
  {
    var minus := UnitAt(t, i, MINUS);
    var (whole, j) :- ReadWhole(t, if minus then i + 1 else i);
    var (frac, k) :- ReadFrac(t, j);
    var (exp, n) :- ReadExp(t, k);
    if DigitAt(t, n) || UnitAt(t, n, DOT) then Error(LeadingZeros, i)
    else Ok(Number(minus, whole, frac, exp), n)
  }

  // ---- values ----

  function ReadTree(t: Text, i: nat, depth: nat, maxDepth: nat): (r: Read<Tree>)
    requires i <= |t|
    ensures if r.Ok? then i < r.next <= |t| else r.at <= |t|
    decreases |t| - i, 0
  {
    if UnitAt(t, i, LBRACE) || UnitAt(t, i, LBRACKET) then
      if depth + 1 > maxDepth then Error(TooDeep, i)
      else
        var isObject := t[i] == LBRACE;
        var (es, n) :- ReadElems(t, i + 1, isObject, depth + 1, maxDepth);
        Ok(List(isObject, es), n)
    else if UnitAt(t, i, QUOTE) then
      var (s, n) :- ReadChars(t, i + 1, i);
      Ok(Quoted(s), n)
    else if UnitAt(t, i, MINUS) || DigitAt(t, i) then
      var (x, n) :- ReadNumber(t, i);
      Ok(Numeral(x), n)
    else if Occurs(t, i, TRUE_WORD) then Ok(Literal(True), i + 4)
    else if Occurs(t, i, FALSE_WORD) then Ok(Literal(False), i + 5)
    else if Occurs(t, i, NULL_WORD) then Ok(Literal(Null), i + 4)
    else Error(ExpectedValue, i)
  }

  /** A property name at i up to the value after its colon. */
  function ReadProperty(t: Text, i: nat): (r: Read<Property>)
    requires i <= |t|
    ensures if r.Ok? then i < r.next <= |t| else r.at <= |t|
  {
    if !UnitAt(t, i, QUOTE) then Error(ExpectedPropertyName, i)
    else
      var (name, j) :- ReadChars(t, i + 1, i);
      var (before, k) :- ReadGap(t, j);
      if !UnitAt(t, k, COLON) then Error(ExpectedColon, k)
      else
        var (after, n) :- ReadGap(t, k + 1);
        Ok(Property(name, before, after), n)
  }

  /** What precedes a list element's value: a property name in objects, nothing (but not a comma) in arrays. */
  function ReadHead(t: Text, i: nat, isObject: bool): (r: Read<Option<Property>>)
    requires i <= |t|
    ensures if r.Ok? then i <= r.next <= |t| else r.at <= |t|
  {
    if isObject then
      var (p, n) :- ReadProperty(t, i);
      Ok(Some(p), n)
    else if UnitAt(t, i, COMMA) then Error(MissingElement, i)
    else Ok(None, i)
  }

  /** One list element from just after the gap before it, up to a comma or a closing bracket. */
  function ReadElem(t: Text, i: nat, before: Gap, isObject: bool, depth: nat, maxDepth: nat): (r: Read<Elem>)
    requires i <= |t|
    ensures if r.Ok? then i < r.next < |t| && (t[r.next] == COMMA || t[r.next] == Closing(isObject)) else r.at <= |t|
    decreases |t| - i, 1
  {
    var (prop, k) :- ReadHead(t, i, isObject);
    var (v, m) :- ReadTree(t, k, depth, maxDepth);
    var (after, n) :- ReadGap(t, m);
    if UnitAt(t, n, COMMA) || UnitAt(t, n, Closing(isObject)) then Ok(Elem(before, prop, v, after), n)
    else Error(if isObject then ExpectedCommaOrBrace else ExpectedCommaOrBracket, n)
  }

  function ReadElems(t: Text, i: nat, isObject: bool, depth: nat, maxDepth: nat): (r: Read<Elems>)
    requires i <= |t|
    ensures if r.Ok? then i < r.next <= |t| else r.at <= |t|
    decreases |t| - i, 2
  {
    var (before, j) :- ReadGap(t, i);
    if UnitAt(t, j, Closing(isObject)) then Ok(Close(before), j + 1)
    else
      var (e, n) :- ReadElem(t, j, before, isObject, depth, maxDepth);
      if t[n] == COMMA then
        var (rest, o) :- ReadElems(t, n + 1, isObject, depth, maxDepth);
        Ok(More(e, rest), o)
      else Ok(Last(e), n + 1)
  }

  /** The index at which the document begins: after the mark, if there is one. */
  function Origin(t: Text): (i: nat)
    ensures i <= |t|
  {
    if UnitAt(t, 0, BOM) then 1 else 0
  }

  function ReadDocument(t: Text, maxDepth: nat): (r: Read<Document>)
    ensures if r.Ok? then r.next == |t| else r.at <= |t|
  {
    var (before, i) :- ReadGap(t, Origin(t));
    if i == |t| then Error(EmptyDocument, i)
    else
      var (root, j) :- ReadTree(t, i, 0, maxDepth);
      var (after, n) :- ReadGap(t, j);
      if n < |t| then Error(TrailingContent, n) else Ok(Document(before, root, after), n)
  }
}
