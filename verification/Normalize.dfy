/** Permission rules: trimming, the trailing wildcard, and the canonical rule of an entry key. */
module Normalize {
  import opened Texts
  import Grammar

  const OPEN: CodeUnit := 0x28
  const CLOSE: CodeUnit := 0x29

  /** JavaScript's white space and line terminators: what trim removes and what \s matches. */
  predicate IsSpace(c: CodeUnit) {
    || 9 <= c <= 13 || c == 32 || c == 160 || c == 0x1680 || 0x2000 <= c <= 0x200a
    || c == 0x2028 || c == 0x2029 || c == 0x202f || c == 0x205f || c == 0x3000 || c == 0xfeff
  }

  predicate AllSpace(s: Text) { forall i | 0 <= i < |s| :: IsSpace(s[i]) }

  function TrimStart(s: Text): Text {
    if s != [] && IsSpace(s[0]) then TrimStart(s[1..]) else s
  }

  function TrimEnd(s: Text): Text {
    if s != [] && IsSpace(s[|s| - 1]) then TrimEnd(s[..|s| - 1]) else s
  }

  function Trim(s: Text): Text { TrimEnd(TrimStart(s)) }

  predicate StartsTight(s: Text) { s == [] || !IsSpace(s[0]) }
  predicate EndsTight(s: Text) { s == [] || !IsSpace(s[|s| - 1]) }
  predicate Tight(s: Text) { StartsTight(s) && EndsTight(s) }

  lemma {:induction false} TrimStartTight(s: Text)
    ensures StartsTight(TrimStart(s)) && |TrimStart(s)| <= |s|
    ensures TrimStart(s) == s[|s| - |TrimStart(s)|..] && AllSpace(s[..|s| - |TrimStart(s)|])
  {
    if s != [] && IsSpace(s[0]) {
      TrimStartTight(s[1..]);
      var n := |s| - |TrimStart(s)|;
      assert s[..n] == [s[0]] + s[1..][..n - 1];
    }
  }

  lemma {:induction false} TrimEndTight(s: Text)
    ensures EndsTight(TrimEnd(s)) && TrimEnd(s) <= s && AllSpace(s[|TrimEnd(s)|..])
    ensures StartsTight(s) ==> StartsTight(TrimEnd(s))
  {
    if s != [] && IsSpace(s[|s| - 1]) {
      TrimEndTight(s[..|s| - 1]);
      var n := |TrimEnd(s)|;
      assert s[n..] == s[..|s| - 1][n..] + [s[|s| - 1]];
    }
  }

  /** Trimming leaves no space at either end, and a text without is left alone. */
  lemma TrimIsTight(s: Text)
    ensures Tight(Trim(s)) && (Tight(s) ==> Trim(s) == s)
  {
    TrimStartTight(s);
    TrimEndTight(TrimStart(s));
  }

  /** Space at the end makes no difference to trimming the end. */
  lemma {:induction false} TrimEndIgnores(s: Text, spaces: Text)
    requires AllSpace(spaces)
    ensures TrimEnd(s + spaces) == TrimEnd(s)
    decreases |spaces|
  {
    if spaces == [] {
      assert s + spaces == s;
    } else {
      var t := s + spaces;
      assert t[..|t| - 1] == s + spaces[..|spaces| - 1];
      TrimEndIgnores(s, spaces[..|spaces| - 1]);
    }
  }

  lemma {:induction false} TrimStartConcat(s: Text, tail: Text)
    ensures TrimStart(s + tail) == if AllSpace(s) then TrimStart(tail) else TrimStart(s) + tail
  {
    if s == [] {
      assert s + tail == tail;
    } else if IsSpace(s[0]) {
      assert (s + tail)[1..] == s[1..] + tail;
      TrimStartConcat(s[1..], tail);
      assert AllSpace(s) <==> AllSpace(s[1..]) by { assert s == [s[0]] + s[1..]; }
    }
  }

  lemma {:induction false} AllSpaceTrims(s: Text)
    requires AllSpace(s)
    ensures TrimStart(s) == [] && Trim(s) == []
  {
    if s != [] { AllSpaceTrims(s[1..]); }
  }

  /** White space around a text makes no difference. */
  lemma TrimIgnores(a: Text, s: Text, b: Text)
    requires AllSpace(a) && AllSpace(b)
    ensures Trim(a + s + b) == Trim(s)
  {
    assert a + s + b == a + (s + b);
    TrimStartConcat(a, s + b);
    TrimStartConcat(s, b);
    if AllSpace(s) {
      AllSpaceTrims(s);
      AllSpaceTrims(b);
    } else {
      TrimEndIgnores(TrimStart(s), b);
    }
  }

  /** A text is its trimmed text between white space; so the trimmed text is the one without outer space. */
  lemma TrimKeepsInside(s: Text) returns (a: Text, b: Text)
    ensures AllSpace(a) && AllSpace(b) && s == a + Trim(s) + b
  {
    hide IsSpace, TrimStart, TrimEnd, AllSpace;
    TrimStartTight(s);
    var t := TrimStart(s);
    TrimEndTight(t);
    a, b := s[..|s| - |t|], t[|Trim(s)|..];
    TakeDrop(s, |s| - |t|);
    TakeDrop(t, |Trim(s)|);
    ConcatAssoc(a, Trim(s), b);
  }

  lemma TakeDrop(s: Text, n: nat)
    requires n <= |s|
    ensures s == s[..n] + s[n..]
  {
  }

  /** Only white space is trimmed away altogether. */
  lemma NothingStays(s: Text)
    ensures Trim(s) == [] ==> AllSpace(s)
  {
    hide Trim, IsSpace;
    var a, b := TrimKeepsInside(s);
    if Trim(s) == [] {
      assert s == a + b;
      forall i | 0 <= i < |s| ensures IsSpace(s[i]) { assert s[i] == if i < |a| then a[i] else b[i - |a|]; }
    }
  }

  // ---- specs ----

  datatype Wildcard = Whole | Trailing | Exact

  datatype Spec = Spec(spec: Text, wildcard: Wildcard)

  predicate EndsColonStar(s: Text) {
    |s| >= 2 && s[|s| - 2] == Grammar.COLON && s[|s| - 1] == Grammar.STAR
  }

  predicate EndsSpaceStar(s: Text) {
    |s| >= 2 && IsSpace(s[|s| - 2]) && s[|s| - 1] == Grammar.STAR
  }

  /** The text before a trailing wildcard, trimmed on the right; None without one. */
  function WildcardPrefix(trimmed: Text): Option<Text> {
    if EndsColonStar(trimmed) then Some(TrimEnd(trimmed[..|trimmed| - 2]))
    else if EndsSpaceStar(trimmed) then Some(TrimEnd(trimmed[..|trimmed| - 1]))
    else None
  }

  function NormalizeSpec(spec: Text): Spec {
    var trimmed := Trim(spec);
    if trimmed == [Grammar.STAR] then Spec([Grammar.STAR], Whole)
    else
      match WildcardPrefix(trimmed)
      case None => Spec(trimmed, Exact)
      case Some(prefix) =>
        if prefix == [] then Spec([Grammar.STAR], Whole) else Spec(prefix + [Grammar.SPACE, Grammar.STAR], Trailing)
  }

  /** A spec in canonical form, with its wildcard shape. */
  ghost predicate CanonicalSpec(s: Spec) {
    match s.wildcard
    case Whole => s.spec == [Grammar.STAR]
    case Trailing => exists prefix :: prefix != [] && Tight(prefix) && s.spec == prefix + [Grammar.SPACE, Grammar.STAR]
    case Exact => Tight(s.spec) && s.spec != [Grammar.STAR] && !EndsColonStar(s.spec) && !EndsSpaceStar(s.spec)
  }

  lemma PrefixIsTight(trimmed: Text)
    requires Tight(trimmed)
    ensures WildcardPrefix(trimmed).Some? ==> Tight(WildcardPrefix(trimmed).value)
  {
    if |trimmed| >= 2 {
      TrimEndTight(trimmed[..|trimmed| - 2]);
      TrimEndTight(trimmed[..|trimmed| - 1]);
    }
  }

  lemma TrailingIsKept(prefix: Text)
    requires prefix != [] && Tight(prefix)
    ensures NormalizeSpec(prefix + [Grammar.SPACE, Grammar.STAR]) == Spec(prefix + [Grammar.SPACE, Grammar.STAR], Trailing)
  {
    var s := prefix + [Grammar.SPACE, Grammar.STAR];
    TrimIsTight(s);
    TrimEndTight(prefix);
    assert s[..|s| - 1] == prefix + [Grammar.SPACE];
    TrimEndIgnores(prefix, [Grammar.SPACE]);
    assert TrimEnd(prefix) == prefix;
  }

  /** Normalizing gives a canonical form, and canonical forms are exactly what it leaves alone. */
  lemma SpecsAreCanonical(spec: Text, s: Spec)
    ensures CanonicalSpec(NormalizeSpec(spec))
    ensures CanonicalSpec(s) <==> NormalizeSpec(s.spec) == s
  {
    hide Trim, WildcardPrefix, IsSpace;
    NormalizedIsCanonical(spec);
    NormalizedIsCanonical(s.spec);
    if CanonicalSpec(s) { CanonicalIsKept(s); }
  }

  lemma NormalizedIsCanonical(spec: Text)
    ensures CanonicalSpec(NormalizeSpec(spec))
  {
    hide Trim, IsSpace;
    TrimIsTight(spec);
    PrefixIsTight(Trim(spec));
  }

  lemma CanonicalIsKept(s: Spec)
    requires CanonicalSpec(s)
    ensures NormalizeSpec(s.spec) == s
  {
    hide Trim;
    TrimIsTight(s.spec);
    if s.wildcard == Trailing {
      var prefix :| prefix != [] && Tight(prefix) && s.spec == prefix + [Grammar.SPACE, Grammar.STAR];
      TrailingIsKept(prefix);
    }
  }

  /** The two spellings of a trailing wildcard have one canonical form, after any prefix. */
  lemma WildcardSpellingsAgree(prefix: Text, spaces: Text)
    requires AllSpace(spaces) && spaces != []
    ensures NormalizeSpec(prefix + [Grammar.COLON, Grammar.STAR]) == NormalizeSpec(prefix + spaces + [Grammar.STAR])
  {
    hide TrimStart, TrimEnd;
    var a, b := prefix + [Grammar.COLON, Grammar.STAR], prefix + spaces + [Grammar.STAR];
    var p := TrimStart(prefix);
    assert b == prefix + (spaces + [Grammar.STAR]);
    TrimStartConcat(prefix, [Grammar.COLON, Grammar.STAR]);
    TrimStartConcat(prefix, spaces + [Grammar.STAR]);
    TrimStartConcat(spaces, [Grammar.STAR]);
    StarIsTight([Grammar.COLON, Grammar.STAR]);
    StarIsTight([Grammar.STAR]);
    if AllSpace(prefix) {
      ColonStarIsWhole();
    } else {
      StarIsTight(p + [Grammar.COLON, Grammar.STAR]);
      StarIsTight(p + (spaces + [Grammar.STAR]));
      WildcardsAfter(prefix, spaces);
    }
  }

  lemma ColonStarIsWhole()
    ensures WildcardPrefix([Grammar.COLON, Grammar.STAR]) == Some([])
  {
    assert [Grammar.COLON, Grammar.STAR][..0] == [];
  }

  lemma StarIsTight(s: Text)
    requires s != [] && s[|s| - 1] == Grammar.STAR
    ensures TrimEnd(s) == s && (StartsTight(s) ==> TrimStart(s) == s)
  {
  }

  lemma WildcardsAfter(prefix: Text, spaces: Text)
    requires AllSpace(spaces) && spaces != [] && !AllSpace(prefix)
    ensures var p := TrimStart(prefix);
            && p != []
            && WildcardPrefix(p + [Grammar.COLON, Grammar.STAR]) == Some(TrimEnd(p))
              == WildcardPrefix(p + (spaces + [Grammar.STAR]))
  {
    TrimStartTight(prefix);
    var p := TrimStart(prefix);
    var a, b := p + [Grammar.COLON, Grammar.STAR], p + (spaces + [Grammar.STAR]);
    assert prefix[..|prefix|] == prefix;
    assert a[..|a| - 2] == p && b[..|b| - 1] == p + spaces;
    TrimEndIgnores(p, spaces);
  }

  /** A spec and its trimmed text normalize alike, whatever white space stands around it. */
  lemma OuterSpaceIsIgnored(a: Text, spec: Text, b: Text)
    requires AllSpace(a) && AllSpace(b)
    ensures NormalizeSpec(a + spec + b) == NormalizeSpec(spec) == NormalizeSpec(Trim(spec))
  {
    hide Trim, WildcardPrefix, AllSpace, IsSpace;
    TrimIgnores(a, spec, b);
    TrimIsTight(spec);
    TrimIsTight(Trim(spec));
  }

  /** A spec without a trailing wildcard is only trimmed. */
  lemma ExactIsTrimmed(spec: Text)
    requires var s := Trim(spec); s != [Grammar.STAR] && !EndsColonStar(s) && !EndsSpaceStar(s)
    ensures NormalizeSpec(spec) == Spec(Trim(spec), Exact)
  {
  }

  /** A trailing wildcard follows the trimmed text before it after one space; without such a text it is all. */
  lemma WildcardFollowsPrefix(prefix: Text)
    ensures NormalizeSpec(prefix + [Grammar.COLON, Grammar.STAR])
         == if AllSpace(prefix) then Spec([Grammar.STAR], Whole)
            else Spec(Trim(prefix) + [Grammar.SPACE, Grammar.STAR], Trailing)
    ensures AllSpace(prefix) ==> NormalizeSpec(prefix + [Grammar.STAR]) == Spec([Grammar.STAR], Whole)
  {
    hide TrimStart, TrimEnd;
    var p := TrimStart(prefix);
    TrimStartConcat(prefix, [Grammar.COLON, Grammar.STAR]);
    TrimStartConcat(prefix, [Grammar.STAR]);
    StarIsTight([Grammar.COLON, Grammar.STAR]);
    StarIsTight([Grammar.STAR]);
    if AllSpace(prefix) {
      ColonStarIsWhole();
    } else {
      StarIsTight(p + [Grammar.COLON, Grammar.STAR]);
      WildcardsAfter(prefix, [Grammar.SPACE]);
      NothingStays(prefix);
      assert (p + [Grammar.COLON, Grammar.STAR])[|p|] == Grammar.COLON;
    }
  }

  // ---- rules ----

  datatype ParsedRule = ParsedRule(raw: Text, rule: Text, tool: Text, spec: Option<Text>, wildcard: Option<Wildcard>)

  /** The index of the first opening parenthesis, or the length. */
  function FirstOpen(s: Text): (n: nat)
    ensures n <= |s| && (n < |s| ==> s[n] == OPEN) && forall k | 0 <= k < n :: s[k] != OPEN
  {
    if s == [] || s[0] == OPEN then 0 else 1 + FirstOpen(s[1..])
  }

  predicate HasSpec(trimmed: Text) {
    0 < FirstOpen(trimmed) < |trimmed| && trimmed[|trimmed| - 1] == CLOSE
  }

  /** A canonical rule with a spec. */
  function Rule(tool: Text, spec: Text): Text { tool + [OPEN] + spec + [CLOSE] }

  function NormalizeRule(raw: Text): ParsedRule {
    var trimmed := Trim(raw);
    var open := FirstOpen(trimmed);
    if HasSpec(trimmed) then
      var tool := Trim(trimmed[..open]);
      var s := NormalizeSpec(trimmed[open + 1..|trimmed| - 1]);
      ParsedRule(raw, Rule(tool, s.spec), tool, Some(s.spec), Some(s.wildcard))
    else ParsedRule(raw, trimmed, trimmed, None, None)
  }

  predicate ToolName(tool: Text) {
    tool != [] && Tight(tool) && OPEN !in tool
  }

  lemma TrimmedTool(s: Text)
    requires StartsTight(s) && s != [] && OPEN !in s
    ensures ToolName(Trim(s))
  {
    TrimEndTight(s);
    assert TrimStart(s) == s;
    assert s[0..] == s;
  }

  /** A rule built from a tool name and a canonical spec reads back as those parts. */
  lemma RuleReadsBack(tool: Text, s: Spec)
    requires ToolName(tool) && CanonicalSpec(s)
    ensures NormalizeRule(Rule(tool, s.spec)) == ParsedRule(Rule(tool, s.spec), Rule(tool, s.spec), tool,
      Some(s.spec), Some(s.wildcard))
  {
    hide Trim, NormalizeSpec, CanonicalSpec, IsSpace;
    var r := Rule(tool, s.spec);
    RuleIsTight(tool, s.spec);
    TrimIsTight(r);
    TrimIsTight(tool);
    assert r[|tool|] == OPEN && forall k | 0 <= k < |tool| :: r[k] == tool[k];
    assert FirstOpen(r) == |tool|;
    assert r[..|tool|] == tool && r[|tool| + 1..|r| - 1] == s.spec;
    SpecsAreCanonical([], s);
  }

  lemma RuleIsTight(tool: Text, spec: Text)
    requires ToolName(tool)
    ensures Tight(Rule(tool, spec))
  {
  }

  /** The parts of a parsed rule: a tool name and a canonical spec, or a bare trimmed text without a spec. */
  lemma RuleParts(raw: Text)
    ensures var p := NormalizeRule(raw);
            if p.spec.Some? then
              && p.wildcard.Some? && ToolName(p.tool) && p.rule == Rule(p.tool, p.spec.value)
              && CanonicalSpec(Spec(p.spec.value, p.wildcard.value))
            else p.wildcard.None? && p.rule == p.tool && Tight(p.tool) && !HasSpec(p.tool)
  {
    hide Trim, NormalizeSpec, CanonicalSpec, IsSpace;
    var trimmed := Trim(raw);
    TrimIsTight(raw);
    if HasSpec(trimmed) {
      var open := FirstOpen(trimmed);
      assert OPEN !in trimmed[..open];
      TrimmedTool(trimmed[..open]);
      NormalizedIsCanonical(trimmed[open + 1..|trimmed| - 1]);
    }
  }

  /** A canonical rule parses to itself, with the same tool, spec and wildcard. */
  lemma NormalizingIsIdempotent(raw: Text)
    ensures var p := NormalizeRule(raw);
            NormalizeRule(p.rule) == p.(raw := p.rule)
  {
    hide NormalizeSpec, CanonicalSpec, IsSpace, ToolName, Trim;
    var p := NormalizeRule(raw);
    RuleParts(raw);
    if p.spec.Some? {
      RuleReadsBack(p.tool, Spec(p.spec.value, p.wildcard.value));
    } else {
      TrimIsTight(p.tool);
    }
  }

  /** Two raw rules with one canonical rule have the same tool, spec and wildcard. */
  lemma RuleDeterminesParts(a: Text, b: Text)
    requires NormalizeRule(a).rule == NormalizeRule(b).rule
    ensures NormalizeRule(a).(raw := []) == NormalizeRule(b).(raw := [])
  {
    hide NormalizeRule;
    NormalizingIsIdempotent(a);
    NormalizingIsIdempotent(b);
  }

  /**
   * A rule with parentheses has the trimmed text before the first one as its tool, and the normal form of what is
   * inside as its spec.
   */
  lemma RuleSplits(tool: Text, spec: Text)
    requires OPEN !in tool && !AllSpace(tool)
    ensures var s := NormalizeSpec(spec);
            NormalizeRule(Rule(tool, spec))
              == ParsedRule(Rule(tool, spec), Rule(Trim(tool), s.spec), Trim(tool), Some(s.spec), Some(s.wildcard))
  {
    hide NormalizeSpec, IsSpace, Trim, TrimStart, AllSpace;
    var p := TrimStart(tool);
    RuleTrims(tool, spec);
    OpensAfter(p, spec);
    assert Trim(p) == Trim(tool) by { TrimOfStart(tool); }
  }

  lemma RuleTrims(tool: Text, spec: Text)
    requires OPEN !in tool && !AllSpace(tool)
    ensures var p := TrimStart(tool); p != [] && OPEN !in p && Trim(Rule(tool, spec)) == Rule(p, spec)
  {
    hide IsSpace, TrimStart, TrimEnd, AllSpace;
    var p, inside := TrimStart(tool), [OPEN] + spec + [CLOSE];
    TrimStartConcat(tool, inside);
    TrimStartTight(tool);
    assert tool[..|tool|] == tool;
    assert Rule(tool, spec) == tool + inside && Rule(p, spec) == p + inside;
    ClosedIsTight(Rule(p, spec));
  }

  /** Where a rule's spec begins. */
  lemma OpensAfter(p: Text, spec: Text)
    requires p != [] && OPEN !in p
    ensures var r := Rule(p, spec);
            FirstOpen(r) == |p| && HasSpec(r) && r[..|p|] == p && r[|p| + 1..|r| - 1] == spec
  {
    var r := Rule(p, spec);
    assert r[|p|] == OPEN && forall k | 0 <= k < |p| :: r[k] == p[k];
  }

  lemma TrimOfStart(s: Text)
    ensures Trim(TrimStart(s)) == Trim(s)
  {
    TrimStartTight(s);
    TightStart(TrimStart(s));
  }

  lemma ClosedIsTight(s: Text)
    requires s != [] && s[|s| - 1] == CLOSE
    ensures TrimEnd(s) == s
  {
  }

  lemma TightStart(s: Text)
    requires StartsTight(s)
    ensures TrimStart(s) == s
  {
  }

  /** A text in which no opening parenthesis stands after something, or which is not closed, is a bare tool. */
  lemma BareRule(raw: Text)
    requires var s := Trim(raw); s == [] || s[0] == OPEN || OPEN !in s || s[|s| - 1] != CLOSE
    ensures NormalizeRule(raw) == ParsedRule(raw, Trim(raw), Trim(raw), None, None)
  {
    hide Trim;
    var s := Trim(raw);
    if FirstOpen(s) < |s| { assert s[FirstOpen(s)] in s; }
  }
}
