/** RFC 6901 JSON pointers: reference tokens, their escaping, and what a pointer resolves to. */
module Pointers {
  import opened Texts
  import opened Grammar
  import opened Json

  const TILDE: CodeUnit := 0x7e
  const ONE: CodeUnit := 0x31

  // ---- escaping ----

  /** s with every c replaced by r. */
  function ReplaceUnit(s: Text, c: CodeUnit, r: Text): Text {
    if s == [] then [] else (if s[0] == c then r else [s[0]]) + ReplaceUnit(s[1..], c, r)
  }

  /** s with every pair ~d replaced by c, scanning from the left. */
  function ReplacePair(s: Text, d: CodeUnit, c: CodeUnit): Text {
    if s == [] then []
    else if s[0] == TILDE && |s| > 1 && s[1] == d then [c] + ReplacePair(s[2..], d, c)
    else [s[0]] + ReplacePair(s[1..], d, c)
  }

  function Escape(token: Text): Text {
    ReplaceUnit(ReplaceUnit(token, TILDE, [TILDE, ZERO]), SLASH, [TILDE, ONE])
  }

  function Unescape(token: Text): Text {
    ReplacePair(ReplacePair(token, ONE, SLASH), ZERO, TILDE)
  }

  lemma ReplaceUnitStep(c: CodeUnit, s: Text, d: CodeUnit, r: Text)
    ensures ReplaceUnit([c] + s, d, r) == (if c == d then r else [c]) + ReplaceUnit(s, d, r)
  {
    assert ([c] + s)[1..] == s;
  }

  lemma ReplacePairStep(c: CodeUnit, s: Text, d: CodeUnit, x: CodeUnit)
    ensures c != TILDE ==> ReplacePair([c] + s, d, x) == [c] + ReplacePair(s, d, x)
    ensures s != [] && s[0] != d ==> ReplacePair([c] + s, d, x) == [c] + ReplacePair(s, d, x)
    ensures ReplacePair([TILDE, d] + s, d, x) == [x] + ReplacePair(s, d, x)
  {
    assert ([c] + s)[1..] == s;
    assert ([TILDE, d] + s)[2..] == s;
  }

  /** One unit of a token, escaped, stands before the escaped rest. */
  lemma EscapeStep(c: CodeUnit, s: Text)
    ensures Escape([c] + s)
         == (if c == TILDE then [TILDE, ZERO] else if c == SLASH then [TILDE, ONE] else [c]) + Escape(s)
  {
    var m := ReplaceUnit(s, TILDE, [TILDE, ZERO]);
    ReplaceUnitStep(c, s, TILDE, [TILDE, ZERO]);
    if c == TILDE {
      assert [TILDE, ZERO] + m == [TILDE] + ([ZERO] + m);
      ReplaceUnitStep(TILDE, [ZERO] + m, SLASH, [TILDE, ONE]);
      ReplaceUnitStep(ZERO, m, SLASH, [TILDE, ONE]);
    } else {
      ReplaceUnitStep(c, m, SLASH, [TILDE, ONE]);
    }
  }

  lemma {:induction false} UnescapeSlashes(s: Text)
    ensures ReplacePair(Escape(s), ONE, SLASH) == ReplaceUnit(s, TILDE, [TILDE, ZERO])
  {
    if s != [] {
      var c, rest := s[0], s[1..];
      assert s == [c] + rest;
      UnescapeSlashes(rest);
      EscapeStep(c, rest);
      ReplaceUnitStep(c, rest, TILDE, [TILDE, ZERO]);
      if c == TILDE {
        assert [TILDE, ZERO] + Escape(rest) == [TILDE] + ([ZERO] + Escape(rest));
        ReplacePairStep(TILDE, [ZERO] + Escape(rest), ONE, SLASH);
        ReplacePairStep(ZERO, Escape(rest), ONE, SLASH);
      } else {
        ReplacePairStep(c, Escape(rest), ONE, SLASH);
      }
    }
  }

  lemma {:induction false} UnescapeTildes(s: Text)
    ensures ReplacePair(ReplaceUnit(s, TILDE, [TILDE, ZERO]), ZERO, TILDE) == s
  {
    if s != [] {
      var c, rest := s[0], s[1..];
      assert s == [c] + rest;
      UnescapeTildes(rest);
      ReplaceUnitStep(c, rest, TILDE, [TILDE, ZERO]);
      ReplacePairStep(c, ReplaceUnit(rest, TILDE, [TILDE, ZERO]), ZERO, TILDE);
    }
  }

  /** Unescaping undoes escaping, for every property name. */
  lemma UnescapeEscape(s: Text)
    ensures Unescape(Escape(s)) == s
  {
    UnescapeSlashes(s);
    UnescapeTildes(s);
  }

  predicate SlashFree(s: Text) {
    forall k | 0 <= k < |s| :: s[k] != SLASH
  }

  lemma {:induction false} EscapeIsSlashFree(s: Text)
    ensures SlashFree(Escape(s))
  {
    if s != [] {
      assert s == [s[0]] + s[1..];
      EscapeStep(s[0], s[1..]);
      EscapeIsSlashFree(s[1..]);
    }
  }

  // ---- array indices ----

  /** The decimal text of an array index. */
  function Decimal(n: nat): (s: Text)
    ensures SlashFree(s) && s != [] && (|s| == 1 <==> n < 10)
  {
    if n < 10 then [ZERO + n] else Decimal(n / 10) + [ZERO + n % 10]
  }

  lemma {:induction false} DecimalInjective(m: nat, n: nat)
    requires Decimal(m) == Decimal(n)
    ensures m == n
  {
    var a, b := Decimal(m), Decimal(n);
    assert a[|a| - 1] == ZERO + m % 10 && b[|b| - 1] == ZERO + n % 10;
    if m >= 10 && n >= 10 {
      assert a[..|a| - 1] == Decimal(m / 10) && b[..|b| - 1] == Decimal(n / 10);
      DecimalInjective(m / 10, n / 10);
    }
  }

  // ---- paths and pointers ----

  datatype Step = Key(name: Text) | Index(n: nat)

  type Path = seq<Step>

  function Token(s: Step): (token: Text)
    ensures SlashFree(token)
  {
    match s
    case Key(name) => EscapeIsSlashFree(name); Escape(name)
    case Index(n) => Decimal(n)
  }

  function PointerTo(path: Path): Text {
    if path == [] then [] else [SLASH] + Token(path[0]) + PointerTo(path[1..])
  }

  /** The value one step below v. */
  function Below(v: Value, s: Step): Option<Value> {
    match s
    case Key(name) => if v.Obj? && name in v.members then Some(v.members[name]) else None
    case Index(n) => if v.Arr? && n < |v.items| then Some(v.items[n]) else None
  }

  /** The node of v at the end of a path, if v has one. */
  function NodeAt(v: Value, path: Path): Option<Value> {
    if path == [] then Some(v)
    else
      match Below(v, path[0])
      case None => None
      case Some(w) => NodeAt(w, path[1..])
  }

  /** The pieces of s between slashes. */
  function Split(s: Text): (pieces: seq<Text>)
    ensures pieces != []
  {
    if s == [] then [[]]
    else
      var rest := Split(s[1..]);
      if s[0] == SLASH then [[]] + rest else [[s[0]] + rest[0]] + rest[1..]
  }

  lemma {:induction false} SplitToken(token: Text, rest: Text)
    requires SlashFree(token)
    ensures Split(token + [SLASH] + rest) == [token] + Split(rest)
    ensures Split(token) == [token]
  {
    if token == [] {
      assert [] + [SLASH] + rest == [SLASH] + rest;
      assert ([SLASH] + rest)[1..] == rest;
    } else {
      SplitToken(token[1..], rest);
      assert (token + [SLASH] + rest)[1..] == token[1..] + [SLASH] + rest;
      assert [token[0]] + token[1..] == token;
      assert ([token[1..]] + Split(rest))[1..] == Split(rest);
    }
  }

  function TokensOf(path: Path): seq<Text> {
    if path == [] then [] else [Token(path[0])] + TokensOf(path[1..])
  }

  lemma SplitStep(token: Text, rest: Text, pieces: seq<Text>)
    requires SlashFree(token) && (rest == [] || rest[0] == SLASH) && Split(rest) == [[]] + pieces
    ensures Split([SLASH] + token + rest) == [[]] + ([token] + pieces)
  {
    assert ([SLASH] + token + rest)[1..] == token + rest;
    if rest == [] {
      assert token + rest == token && pieces == [];
      SplitToken(token, []);
    } else {
      assert token + rest == token + [SLASH] + rest[1..];
      SplitToken(token, rest[1..]);
      assert ([[]] + pieces)[1..] == pieces && ([[]] + Split(rest[1..]))[1..] == Split(rest[1..]);
    }
  }

  lemma {:induction false} SplitPointer(path: Path)
    ensures Split(PointerTo(path)) == [[]] + TokensOf(path)
  {
    hide Token, Split;
    if path == [] {
      SplitToken([], []);
    } else {
      SplitPointer(path[1..]);
      SplitStep(Token(path[0]), PointerTo(path[1..]), TokensOf(path[1..]));
    }
  }

  /** Two paths into the same value that have the same pointer are the same path. */
  lemma PointersAreDistinct(v: Value, p: Path, q: Path)
    requires NodeAt(v, p).Some? && NodeAt(v, q).Some? && PointerTo(p) == PointerTo(q)
    ensures p == q
  {
    SplitPointer(p);
    SplitPointer(q);
    assert Split(PointerTo(p))[1..] == TokensOf(p) && Split(PointerTo(q))[1..] == TokensOf(q);
    TokensAreDistinct(v, p, q);
  }

  lemma {:induction false} TokensAreDistinct(v: Value, p: Path, q: Path)
    requires NodeAt(v, p).Some? && NodeAt(v, q).Some? && TokensOf(p) == TokensOf(q)
    ensures p == q
  {
    if p != [] && q != [] {
      assert TokensOf(p)[0] == Token(p[0]) && TokensOf(q)[0] == Token(q[0]);
      assert TokensOf(p)[1..] == TokensOf(p[1..]) && TokensOf(q)[1..] == TokensOf(q[1..]);
      if v.Obj? {
        UnescapeEscape(p[0].name);
        UnescapeEscape(q[0].name);
      } else {
        DecimalInjective(p[0].n, q[0].n);
      }
      TokensAreDistinct(Below(v, p[0]).value, p[1..], q[1..]);
      assert p == [p[0]] + p[1..] && q == [q[0]] + q[1..];
    }
  }

  // ---- resolution ----

  /** JavaScript's Number on a token: the index it reads as, if that is a natural number. */
  type Numeric = Text -> Option<nat>

  /** Number reads the decimals below a bound. Other texts may read as numbers too. */
  ghost predicate ReadsDecimals(number: Numeric, bound: nat) {
    forall n: nat | n < bound :: number(Decimal(n)) == Some(n)
  }

  /** All that is asked of Number: it reads the indices of the arrays in root. */
  ghost predicate ReadsIndices(number: Numeric, root: Value) {
    forall path | IsArrayAt(root, path) :: ReadsDecimals(number, |NodeAt(root, path).value.items|)
  }

  predicate IsArrayAt(root: Value, path: Path) { NodeAt(root, path).Some? && NodeAt(root, path).value.Arr? }

  /** A JavaScript array has fewer than 2^32 items, and Number reads decimals exactly up to 2^53. */
  const ARRAY_LIMIT: nat := 0x1_0000_0000

  lemma ArraysAreRead(number: Numeric, root: Value)
    requires ReadsDecimals(number, ARRAY_LIMIT)
    requires forall path | IsArrayAt(root, path) :: |NodeAt(root, path).value.items| < ARRAY_LIMIT
    ensures ReadsIndices(number, root)
  {
    hide NodeAt;
  }

  lemma IndicesBelow(number: Numeric, root: Value, s: Step)
    requires ReadsIndices(number, root) && Below(root, s).Some?
    ensures ReadsIndices(number, Below(root, s).value)
    ensures root.Arr? ==> ReadsDecimals(number, |root.items|)
  {
    hide Below, ReadsDecimals;
    var v := Below(root, s).value;
    forall path | IsArrayAt(v, path) ensures ReadsDecimals(number, |NodeAt(v, path).value.items|) {
      assert ([s] + path)[1..] == path;
      assert NodeAt(root, [s] + path) == NodeAt(v, path) && IsArrayAt(root, [s] + path);
    }
    if root.Arr? { assert IsArrayAt(root, []); }
  }

  function StepBy(v: Value, token: Text, number: Numeric): Option<Value> {
    var key := Unescape(token);
    match v
    case Arr(items) =>
      (match number(key)
       case Some(n) => if n < |items| then Some(items[n]) else None
       case None => None)
    case Obj(members) => if key in members then Some(members[key]) else None
    case _ => None
  }

  function Walk(v: Value, tokens: seq<Text>, number: Numeric): Option<Value> {
    if tokens == [] then Some(v)
    else
      match StepBy(v, tokens[0], number)
      case None => None
      case Some(w) => Walk(w, tokens[1..], number)
  }

  /** What a pointer resolves to: its tokens, one step each. */
  function Resolve(root: Value, pointer: Text, number: Numeric): Option<Value> {
    if pointer == [] then Some(root) else Walk(root, Split(pointer)[1..], number)
  }

  /** The value at a pointer of root, or None. */
  method ValueAt(root: Value, pointer: Text, number: Numeric) returns (r: Option<Value>)
    ensures r == Resolve(root, pointer, number)
  {
    var current := root;
    if pointer == [] {
      return Some(current);
    }
    var tokens := Split(pointer)[1..];
    for i := 0 to |tokens|
      invariant Walk(current, tokens[i..], number) == Walk(root, tokens, number)
    {
      assert tokens[i..][1..] == tokens[i + 1..];
      match StepBy(current, tokens[i], number)
      case None => return None;
      case Some(w) => current := w;
    }
    return Some(current);
  }

  /** A decimal escapes to itself: it has no tilde. */
  lemma {:induction false} UnescapePlain(s: Text)
    requires forall k | 0 <= k < |s| :: s[k] != TILDE
    ensures forall d, x :: ReplacePair(s, d, x) == s
  {
    if s != [] {
      UnescapePlain(s[1..]);
    }
  }

  lemma {:induction false} DecimalHasNoTilde(n: nat)
    ensures forall k | 0 <= k < |Decimal(n)| :: Decimal(n)[k] != TILDE
  {
    if n >= 10 {
      DecimalHasNoTilde(n / 10);
    }
  }

  lemma TokenSteps(v: Value, s: Step, number: Numeric)
    requires Below(v, s).Some? && (v.Arr? ==> ReadsDecimals(number, |v.items|))
    ensures StepBy(v, Token(s), number) == Below(v, s)
  {
    match s
    case Key(name) => UnescapeEscape(name);
    case Index(n) =>
      DecimalHasNoTilde(n);
      UnescapePlain(Decimal(n));
  }

  /** Every pointer of a node resolves to that node. */
  lemma PointersResolve(root: Value, path: Path, number: Numeric)
    requires NodeAt(root, path).Some? && ReadsIndices(number, root)
    ensures Resolve(root, PointerTo(path), number) == NodeAt(root, path)
  {
    SplitPointer(path);
    assert Split(PointerTo(path))[1..] == TokensOf(path);
    TokensResolve(root, path, number);
  }

  lemma {:induction false} TokensResolve(root: Value, path: Path, number: Numeric)
    requires NodeAt(root, path).Some? && ReadsIndices(number, root)
    ensures Walk(root, TokensOf(path), number) == NodeAt(root, path)
    decreases |path|
  {
    hide Token, StepBy, Below, ReadsIndices, ReadsDecimals;
    if path != [] {
      assert TokensOf(path)[0] == Token(path[0]) && TokensOf(path)[1..] == TokensOf(path[1..]);
      IndicesBelow(number, root, path[0]);
      TokenSteps(root, path[0], number);
      TokensResolve(Below(root, path[0]).value, path[1..], number);
    }
  }

  lemma {:induction false} PointerSnoc(path: Path, s: Step)
    ensures PointerTo(path + [s]) == PointerTo(path) + [SLASH] + Token(s)
  {
    hide Token;
    if path == [] {
      assert [s][1..] == [] && PointerTo([s]) == [SLASH] + Token(s) + [];
    } else {
      assert (path + [s])[1..] == path[1..] + [s];
      PointerSnoc(path[1..], s);
    }
  }

  lemma {:induction false} WalkSnoc(v: Value, tokens: seq<Text>, last: Text, number: Numeric)
    ensures Walk(v, tokens + [last], number)
         == match Walk(v, tokens, number) case None => None case Some(w) => StepBy(w, last, number)
    decreases |tokens|
  {
    hide StepBy;
    if tokens == [] {
      assert [] + [last] == [last] && [last][0] == last && [last][1..] == [];
    } else {
      assert (tokens + [last])[0] == tokens[0] && (tokens + [last])[1..] == tokens[1..] + [last];
      match StepBy(v, tokens[0], number)
      case None =>
      case Some(w) => WalkSnoc(w, tokens[1..], last, number);
    }
  }

  lemma {:induction false} TokensSnoc(path: Path, s: Step)
    ensures TokensOf(path + [s]) == TokensOf(path) + [Token(s)]
  {
    hide Token;
    if path == [] {
      assert [] + [s] == [s] && [s][1..] == [];
    } else {
      assert (path + [s])[0] == path[0] && (path + [s])[1..] == path[1..] + [s];
      TokensSnoc(path[1..], s);
    }
  }

  /** The pointer of a member of an object node resolves to the member, or to nothing when it is missing. */
  lemma MemberResolves(root: Value, path: Path, name: Text, number: Numeric)
    requires ReadsIndices(number, root) && NodeAt(root, path).Some? && NodeAt(root, path).value.Obj?
    ensures Resolve(root, PointerTo(path + [Key(name)]), number) == Below(NodeAt(root, path).value, Key(name))
  {
    hide Token, Escape, Unescape, ReadsIndices;
    var q := path + [Key(name)];
    SplitPointer(q);
    assert Split(PointerTo(q))[1..] == TokensOf(q);
    TokensSnoc(path, Key(name));
    WalkSnoc(root, TokensOf(path), Token(Key(name)), number);
    TokensResolve(root, path, number);
    MemberToken(name);
  }

  lemma MemberToken(name: Text)
    ensures Unescape(Token(Key(name))) == name
  {
    UnescapeEscape(name);
  }

  /** A name without tildes and slashes is its own token. */
  lemma {:induction false} EscapePlain(s: Text)
    requires forall k | 0 <= k < |s| :: s[k] != TILDE && s[k] != SLASH
    ensures Escape(s) == s
  {
    if s != [] {
      EscapePlain(s[1..]);
      EscapeStep(s[0], s[1..]);
      assert s == [s[0]] + s[1..];
    }
  }
}
