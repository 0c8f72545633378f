/** Redaction: the copy of a value without credential-like literals, and where they were. */
module Redact {
  import opened Texts
  import opened Grammar
  import opened Json
  import opened Pointers
  import opened Canonical
  import opened Walks

  const REDACTED: Text := Ascii("<redacted>")
  const OPAQUE_VALUE: Text := Ascii("opaque-value-under-sensitive-key")

  /** One literal pattern: whether a text has it, and the text with every match replaced. */
  datatype Literal = Literal(name: Text, found: Text -> bool, replaced: Text -> Text)

  /** The credential patterns; the regular expressions themselves are uninterpreted. */
  datatype Detector = Detector(literals: seq<Literal>, sensitive: Text -> bool, opaqueValue: Text -> bool)

  datatype Redacted = Redacted(text: Text, patterns: seq<Text>)

  /** One literal pattern applied to what the patterns before it left. */
  function Apply(r: Redacted, literal: Literal): Redacted {
    if literal.found(r.text) then Redacted(literal.replaced(r.text), r.patterns + [literal.name]) else r
  }

  function ApplyAll(r: Redacted, literals: seq<Literal>): Redacted
    decreases |literals|
  {
    if literals == [] then r else ApplyAll(Apply(r, literals[0]), literals[1..])
  }

  function OpaqueRule(r: Redacted, key: Option<Text>, d: Detector): Redacted {
    if key.Some? && d.sensitive(key.value) && d.opaqueValue(r.text) then Redacted(REDACTED, r.patterns + [OPAQUE_VALUE])
    else r
  }

  function Redaction(text: Text, key: Option<Text>, d: Detector): Redacted {
    OpaqueRule(ApplyAll(Redacted(text, []), d.literals), key, d)
  }

  /** redactString: the patterns in order, then the rule for opaque values under sensitive keys. */
  method RedactString(text: Text, key: Option<Text>, d: Detector) returns (r: Redacted)
    ensures r == Redaction(text, key, d)
  {
    var patterns := [];
    var out := text;
    for i := 0 to |d.literals|
      invariant ApplyAll(Redacted(out, patterns), d.literals[i..]) == ApplyAll(Redacted(text, []), d.literals)
    {
      var literal := d.literals[i];
      assert d.literals[i..][1..] == d.literals[i + 1..];
      if literal.found(out) {
        patterns := patterns + [literal.name];
        out := literal.replaced(out);
      }
    }
    if key.Some? && d.sensitive(key.value) {
      if d.opaqueValue(out) {
        patterns := patterns + [OPAQUE_VALUE];
        out := REDACTED;
      }
    }
    return Redacted(out, patterns);
  }

  lemma {:induction false} ApplyAllGrows(r: Redacted, literals: seq<Literal>)
    ensures |ApplyAll(r, literals).patterns| >= |r.patterns|
    ensures |ApplyAll(r, literals).patterns| == |r.patterns| ==> ApplyAll(r, literals) == r
    decreases |literals|
  {
    if literals != [] { ApplyAllGrows(Apply(r, literals[0]), literals[1..]); }
  }

  /** No pattern, no change. */
  lemma QuietTextIsKept(text: Text, key: Option<Text>, d: Detector)
    ensures Redaction(text, key, d).patterns == [] ==> Redaction(text, key, d).text == text
  {
    ApplyAllGrows(Redacted(text, []), d.literals);
  }

  // ---- trees ----

  /** The name that redaction sees one step down: a member's own, an item's from its array. */
  function KeyBelow(s: Step, key: Option<Text>): Option<Text> {
    if s.Key? then Some(s.name) else key
  }

  /** The name that holds the node at a path of a value held by key. */
  function KeyAt(path: Path, key: Option<Text>): Option<Text> {
    if path == [] then key else KeyAt(path[1..], KeyBelow(path[0], key))
  }

  function RedactTree(v: Value, key: Option<Text>, d: Detector): Value
    decreases v
  {
    match v
    case Str(s) => Str(Redaction(s, key, d).text)
    case Arr(items) => Arr(seq(|items|, i requires 0 <= i < |items| => RedactTree(items[i], key, d)))
    case Obj(members) => Obj(map name | name in members :: RedactTree(members[name], Some(name), d))
    case _ => v
  }

  /** The literals of v, depth first: where each is and its patterns. */
  function FindingsOf(v: Value, path: Path, key: Option<Text>, d: Detector): seq<Noted<seq<Text>>>
    decreases v
  {
    if v.Str? then
      var r := Redaction(v.s, key, d);
      if r.patterns == [] then [] else [Noted(path, r.patterns)]
    else
      var steps := StepsOf(v);
      Flatten(seq(|steps|, i requires 0 <= i < |steps| =>
                FindingsOf(Below(v, steps[i]).value, path + [steps[i]], KeyBelow(steps[i], key), d)))
  }

  /** The parts of a value's findings, one for each of its steps. */
  function FindingParts(v: Value, path: Path, key: Option<Text>, d: Detector): (parts: seq<seq<Noted<seq<Text>>>>)
    ensures |parts| == |StepsOf(v)|
    ensures forall i | 0 <= i < |parts| ::
              parts[i] == FindingsOf(Below(v, StepsOf(v)[i]).value, path + [StepsOf(v)[i]],
                KeyBelow(StepsOf(v)[i], key), d)
    ensures !v.Str? ==> FindingsOf(v, path, key, d) == Flatten(parts)
  {
    var steps := StepsOf(v);
    seq(|steps|, i requires 0 <= i < |steps| =>
          FindingsOf(Below(v, steps[i]).value, path + [steps[i]], KeyBelow(steps[i], key), d))
  }

  /** The copy's child at a step is the copy of the child. */
  lemma RedactedBelow(v: Value, key: Option<Text>, d: Detector, s: Step)
    ensures var w := Below(v, s);
            Below(RedactTree(v, key, d), s)
            == if w.None? then None else Some(RedactTree(w.value, KeyBelow(s, key), d))
  {
  }

  /** The copy has the same shape: a node at the same paths, each the copy of the node there. */
  lemma {:induction false} RedactedNodes(v: Value, key: Option<Text>, d: Detector, path: Path)
    ensures var w := NodeAt(v, path);
            NodeAt(RedactTree(v, key, d), path)
            == if w.None? then None else Some(RedactTree(w.value, KeyAt(path, key), d))
    decreases |path|
  {
    hide RedactTree, Below;
    if path != [] {
      RedactedBelow(v, key, d, path[0]);
      if Below(v, path[0]).Some? { RedactedNodes(Below(v, path[0]).value, KeyBelow(path[0], key), d, path[1..]); }
    }
  }

  /** The same kind of value. */
  predicate SameType(v: Value, w: Value) {
    && (v.Null? <==> w.Null?) && (v.Bool? <==> w.Bool?) && (v.Num? <==> w.Num?) && (v.Str? <==> w.Str?)
    && (v.Arr? <==> w.Arr?) && (v.Obj? <==> w.Obj?)
  }

  /** Redaction changes strings only: same paths, same types, and everything but the strings as it was. */
  lemma RedactionKeepsShape(v: Value, d: Detector, path: Path)
    ensures var copy := RedactTree(v, None, d);
            && (NodeAt(copy, path).Some? <==> NodeAt(v, path).Some?)
            && (NodeAt(v, path).Some? ==>
                  && SameType(NodeAt(v, path).value, NodeAt(copy, path).value)
                  && StepsOf(NodeAt(v, path).value) == StepsOf(NodeAt(copy, path).value))
  {
    RedactedNodes(v, None, d, path);
    if NodeAt(v, path).Some? { StepsKept(NodeAt(v, path).value, KeyAt(path, None), d); }
  }

  lemma StepsKept(v: Value, key: Option<Text>, d: Detector)
    ensures StepsOf(RedactTree(v, key, d)) == StepsOf(v)
  {
    var copy := RedactTree(v, key, d);
    if v.Obj? { assert copy.members.Keys == v.members.Keys; }
  }

  // ---- findings ----

  lemma {:induction false} FindingsUnder(v: Value, path: Path, key: Option<Text>, d: Detector)
    ensures Under(FindingsOf(v, path, key, d), path)
    decreases v
  {
    hide Redaction;
    if !v.Str? {
      var steps, parts := StepsOf(v), FindingParts(v, path, key, d);
      forall i | 0 <= i < |steps| ensures Under(parts[i], path + [steps[i]]) {
        assert steps[i] in steps;
        FindingsUnder(Below(v, steps[i]).value, path + [steps[i]], KeyBelow(steps[i], key), d);
      }
      BranchesUnder(parts, path, steps);
    }
  }

  /** What redacting finds at a path below v, if anything. */
  function FoundAt(v: Value, key: Option<Text>, d: Detector, path: Path): seq<Text> {
    match NodeAt(v, path)
    case Some(Str(s)) => Redaction(s, KeyAt(path, key), d).patterns
    case _ => []
  }

  lemma FoundBelow(v: Value, key: Option<Text>, d: Detector, path: Path)
    requires path != []
    ensures FoundAt(v, key, d, path)
         == match Below(v, path[0])
            case Some(w) => FoundAt(w, KeyBelow(path[0], key), d, path[1..])
            case None => []
  {
  }

  lemma AppendPath(base: Path, path: Path)
    requires path != []
    ensures base + path == (base + [path[0]]) + path[1..]
  {
  }

  /** Exactly the strings with a pattern are found, each once, with its patterns. */
  lemma {:induction false} FindingsAreExact(v: Value, base: Path, key: Option<Text>, d: Detector, path: Path)
    ensures var found := FindingsOf(v, base, key, d);
            && Count(found, base + path) == (if FoundAt(v, key, d, path) == [] then 0 else 1)
            && (FoundAt(v, key, d, path) != [] ==> Noted(base + path, FoundAt(v, key, d, path)) in found)
    decreases v
  {
    hide Redaction, FoundAt;
    var steps, parts := StepsOf(v), FindingParts(v, base, key, d);
    if path == [] || v.Str? {
      FindingsHere(v, base, key, d, path);
    } else {
      FindingBranches(v, base, key, d);
      AppendPath(base, path);
      FoundBelow(v, key, d, path);
      if path[0] in steps {
        var i :| 0 <= i < |steps| && steps[i] == path[0];
        FindingsAreExact(Below(v, path[0]).value, base + [path[0]], KeyBelow(path[0], key), d, path[1..]);
        CountBranch(parts, base, steps, i, base + path);
        FlattenMembers(parts, Noted(base + path, FoundAt(v, key, d, path)));
      } else {
        forall j | 0 <= j < |steps| ensures !(base + [steps[j]] <= base + path) {
          assert steps[j] in steps;
          StepOnPath(base, steps[j], base + path);
        }
        CountOff(parts, base, steps, base + path);
      }
    }
  }

  lemma FindingBranches(v: Value, base: Path, key: Option<Text>, d: Detector)
    ensures Branches(FindingParts(v, base, key, d), base, StepsOf(v))
  {
    hide FindingsOf;
    var steps, parts := StepsOf(v), FindingParts(v, base, key, d);
    forall j | 0 <= j < |parts| ensures Under(parts[j], base + [steps[j]]) {
      FindingsUnder(Below(v, steps[j]).value, base + [steps[j]], KeyBelow(steps[j], key), d);
    }
  }

  lemma FindingsHere(v: Value, base: Path, key: Option<Text>, d: Detector, path: Path)
    requires path == [] || v.Str?
    ensures var found := FindingsOf(v, base, key, d);
            && Count(found, base + path) == (if FoundAt(v, key, d, path) == [] then 0 else 1)
            && (FoundAt(v, key, d, path) != [] ==> Noted(base + path, FoundAt(v, key, d, path)) in found)
  {
    hide Redaction;
    assert base + [] == base;
    if v.Str? {
      assert path != [] ==> |base + path| > |base|;
    } else {
      var steps := StepsOf(v);
      FindingBranches(v, base, key, d);
      CountOff(FindingParts(v, base, key, d), base, steps, base);
    }
  }

  // ---- what redaction keeps ----

  ghost predicate Injective(sha: Text -> Text) {
    forall s, t :: sha(s) == sha(t) ==> s == t
  }

  /** The pointers of the findings. */
  function FindingPointers(v: Value, d: Detector): set<Text> {
    set f | f in FindingsOf(v, [], None, d) :: PointerTo(f.path)
  }

  /** For each finding, the hash of what its pointer resolves to in the value that was redacted. */
  function DigestsOf(v: Value, d: Detector, sha: Text -> Text, number: Numeric): map<Text, Option<Text>> {
    map pointer | pointer in FindingPointers(v, d) ::
      match Resolve(v, pointer, number)
      case Some(Str(s)) => Some(sha(s))
      case _ => None
  }

  /** A found string's pointer is in the digests, with the string's digest. */
  lemma DigestOfFound(v: Value, d: Detector, sha: Text -> Text, number: Numeric, path: Path)
    requires ReadsIndices(number, v) && FoundAt(v, None, d, path) != []
    ensures var digests := DigestsOf(v, d, sha, number);
            && PointerTo(path) in digests
            && digests[PointerTo(path)] == Some(sha(NodeAt(v, path).value.s))
  {
    hide Redaction, FindingsOf, Resolve, PointerTo, ReadsIndices;
    FindingsAreExact(v, [], None, d, path);
    assert [] + path == path;
    PointersResolve(v, path, number);
  }

  /** A finding's pointer is a node's pointer only where that node's text was redacted. */
  lemma FoundFromDigest(v: Value, d: Detector, sha: Text -> Text, number: Numeric, path: Path)
    requires PointerTo(path) in DigestsOf(v, d, sha, number) && NodeAt(v, path).Some?
    ensures FoundAt(v, None, d, path) != []
  {
    hide Redaction, FindingsOf, Resolve, PointerTo, FoundAt;
    var f :| f in FindingsOf(v, [], None, d) && PointerTo(f.path) == PointerTo(path);
    FoundWhereFound(v, d, f);
    PointersAreDistinct(v, f.path, path);
  }

  lemma FoundWhereFound(v: Value, d: Detector, f: Noted<seq<Text>>)
    requires f in FindingsOf(v, [], None, d)
    ensures NodeAt(v, f.path).Some? && FoundAt(v, None, d, f.path) != []
  {
    hide Redaction, FindingsOf;
    assert [] + f.path == f.path;
    FindingsAreExact(v, [], None, d, f.path);
    CountPositive(FindingsOf(v, [], None, d), f);
  }

  /** Two values with equal copies and equal strings at every path are equal. */
  lemma {:induction false} SameStringsSameValue(a: Value, b: Value, key: Option<Text>, d: Detector)
    requires RedactTree(a, key, d) == RedactTree(b, key, d)
    requires forall path | NodeAt(a, path).Some? && NodeAt(a, path).value.Str? :: NodeAt(a, path) == NodeAt(b, path)
    ensures a == b
    decreases a
  {
    hide Redaction;
    match a
    case Str(s) => assert NodeAt(a, []) == NodeAt(b, []);
    case Arr(items) =>
      assert |items| == |b.items|;
      forall i | 0 <= i < |items| ensures items[i] == b.items[i] {
        assert RedactTree(a, key, d).items[i] == RedactTree(b, key, d).items[i];
        StringsBelow(a, b, Index(i));
        SameStringsSameValue(items[i], b.items[i], key, d);
      }
    case Obj(members) =>
      assert members.Keys == RedactTree(a, key, d).members.Keys == b.members.Keys;
      forall name | name in members ensures members[name] == b.members[name] {
        assert RedactTree(a, key, d).members[name] == RedactTree(b, key, d).members[name];
        StringsBelow(a, b, Key(name));
        SameStringsSameValue(members[name], b.members[name], Some(name), d);
      }
    case _ =>
  }

  lemma StringsBelow(a: Value, b: Value, s: Step)
    requires Below(a, s).Some? && Below(b, s).Some?
    requires forall path | NodeAt(a, path).Some? && NodeAt(a, path).value.Str? :: NodeAt(a, path) == NodeAt(b, path)
    ensures var v, w := Below(a, s).value, Below(b, s).value;
            forall path | NodeAt(v, path).Some? && NodeAt(v, path).value.Str? :: NodeAt(v, path) == NodeAt(w, path)
  {
    var v, w := Below(a, s).value, Below(b, s).value;
    forall path | NodeAt(v, path).Some? && NodeAt(v, path).value.Str? ensures NodeAt(v, path) == NodeAt(w, path) {
      assert ([s] + path)[1..] == path;
      assert NodeAt(a, [s] + path) == NodeAt(v, path) && NodeAt(b, [s] + path) == NodeAt(w, path);
    }
  }

  /** With an injective hash, the copy and the digests of the findings determine the raw value. */
  lemma RedactionLosesNothing(a: Value, b: Value, d: Detector, sha: Text -> Text, number: Numeric)
    requires Injective(sha) && ReadsIndices(number, a) && ReadsIndices(number, b)
    ensures a == b
       <==> && RedactTree(a, None, d) == RedactTree(b, None, d)
            && DigestsOf(a, d, sha, number) == DigestsOf(b, d, sha, number)
  {
    hide Redaction, RedactTree, DigestsOf, ReadsIndices;
    if RedactTree(a, None, d) == RedactTree(b, None, d) && DigestsOf(a, d, sha, number)
      == DigestsOf(b, d, sha, number) {
      forall path | NodeAt(a, path).Some? && NodeAt(a, path).value.Str? ensures NodeAt(a, path) == NodeAt(b, path) {
        SameStringAt(a, b, d, sha, number, path);
      }
      SameStringsSameValue(a, b, None, d);
    }
  }

  lemma SameStringAt(a: Value, b: Value, d: Detector, sha: Text -> Text, number: Numeric, path: Path)
    requires Injective(sha) && ReadsIndices(number, a) && ReadsIndices(number, b)
    requires NodeAt(a, path).Some? && NodeAt(a, path).value.Str?
    requires RedactTree(a, None, d) == RedactTree(b, None, d) && DigestsOf(a, d, sha, number)
      == DigestsOf(b, d, sha, number)
    ensures NodeAt(a, path) == NodeAt(b, path)
  {
    hide Redaction, RedactTree, DigestsOf, NodeAt, PointerTo, ReadsIndices;
    RedactedNodes(a, None, d, path);
    RedactedNodes(b, None, d, path);
    var v, w := NodeAt(a, path).value, NodeAt(b, path).value;
    CopyOfString(v, w, KeyAt(path, None), d);
    if FoundAt(a, None, d, path) != [] {
      DigestOfFound(a, d, sha, number, path);
      FoundFromDigest(b, d, sha, number, path);
      DigestOfFound(b, d, sha, number, path);
    } else if FoundAt(b, None, d, path) != [] {
      DigestOfFound(b, d, sha, number, path);
      FoundFromDigest(a, d, sha, number, path);
    }
  }

  lemma CopyOfString(v: Value, w: Value, key: Option<Text>, d: Detector)
    requires v.Str? && RedactTree(v, key, d) == RedactTree(w, key, d)
    ensures w.Str? && Redaction(v.s, key, d).text == Redaction(w.s, key, d).text
    ensures Redaction(v.s, key, d).patterns == [] == Redaction(w.s, key, d).patterns ==> v == w
  {
    QuietTextIsKept(v.s, key, d);
    if w.Str? { QuietTextIsKept(w.s, key, d); }
  }

  // ---- the walk itself ----

  datatype CredentialFinding = CredentialFinding(pointer: Text, patterns: seq<Text>)

  function Report(found: seq<Noted<seq<Text>>>): seq<CredentialFinding> {
    if found == [] then [] else [CredentialFinding(PointerTo(found[0].path), found[0].what)] + Report(found[1..])
  }

  lemma {:induction false} ReportConcat(a: seq<Noted<seq<Text>>>, b: seq<Noted<seq<Text>>>)
    ensures Report(a + b) == Report(a) + Report(b)
  {
    if a == [] {
      assert a + b == b;
    } else {
      ReportConcat(a[1..], b);
      assert (a + b)[1..] == a[1..] + b;
    }
  }

  /** What has been reported once the first n children of v are copied. */
  ghost function SoFar(v: Value, path: Path, key: Option<Text>, d: Detector, n: nat): seq<CredentialFinding>
    requires n <= |StepsOf(v)|
  {
    Report(Flatten(FindingParts(v, path, key, d)[..n]))
  }

  lemma SoFarNext(v: Value, path: Path, key: Option<Text>, d: Detector, n: nat)
    requires n < |StepsOf(v)|
    ensures var s := StepsOf(v)[n];
            SoFar(v, path, key, d, n + 1) == SoFar(v, path, key, d, n)
              + Report(FindingsOf(Below(v, s).value, path + [s], KeyBelow(s, key), d))
  {
    hide FindingsOf, StepsOf;
    var parts := FindingParts(v, path, key, d);
    assert parts[..n + 1] == parts[..n] + [parts[n]];
    FlattenSnoc(parts[..n], parts[n]);
    ReportConcat(Flatten(parts[..n]), parts[n]);
  }

  lemma SoFarAll(v: Value, path: Path, key: Option<Text>, d: Detector)
    requires !v.Str?
    ensures SoFar(v, path, key, d, 0) == []
    ensures SoFar(v, path, key, d, |StepsOf(v)|) == Report(FindingsOf(v, path, key, d))
  {
    hide FindingsOf, StepsOf;
    var parts := FindingParts(v, path, key, d);
    assert parts[..|parts|] == parts && parts[..0] == [];
  }

  lemma ItemSteps(v: Value)
    requires v.Arr?
    ensures |StepsOf(v)| == |v.items| && forall i | 0 <= i < |v.items| :: StepsOf(v)[i] == Index(i)
  {
  }

  lemma KeySteps(v: Value)
    requires v.Obj?
    ensures var keys := KeysOf(v.members);
            |StepsOf(v)| == |keys| && forall i | 0 <= i < |keys| :: StepsOf(v)[i] == Key(keys[i])
  {
  }

  /** One redaction of a tree, with the findings that its walk shares. */
  class Redactor {
    const detector: Detector
    var findings: seq<CredentialFinding>

    constructor (detector: Detector)
      ensures this.detector == detector && findings == []
    {
      this.detector := detector;
      findings := [];
    }

    /** A deep copy of v, appending what is found on the way; pointer is where v is. */
    method Walk(v: Value, pointer: Text, key: Option<Text>, ghost path: Path) returns (copy: Value)
      requires pointer == PointerTo(path)
      modifies this
      ensures copy == RedactTree(v, key, detector)
      ensures findings == old(findings) + Report(FindingsOf(v, path, key, detector))
      decreases v, 1
    {
      match v
      case Str(s) =>
        var redacted := RedactString(s, key, detector);
        if redacted.patterns != [] {
          findings := findings + [CredentialFinding(pointer, redacted.patterns)];
        }
        return Str(redacted.text);
      case Arr(items) =>
        var copies := WalkItems(v, pointer, key, path);
        return Arr(copies);
      case Obj(members) =>
        var out := WalkMembers(v, pointer, key, path);
        return Obj(out);
      case _ => return v;
    }

    method WalkItems(v: Value, pointer: Text, key: Option<Text>, ghost path: Path) returns (copies: seq<Value>)
      requires v.Arr? && pointer == PointerTo(path)
      modifies this
      ensures Arr(copies) == RedactTree(v, key, detector)
      ensures findings == old(findings) + Report(FindingsOf(v, path, key, detector))
      decreases v, 0
    {
      hide Redaction, FindingsOf, RedactTree, PointerTo, StepsOf, SoFar, Report;
      copies := [];
      ItemSteps(v);
      SoFarAll(v, path, key, detector);
      for i := 0 to |v.items|
        invariant |copies| == i && forall j | 0 <= j < i :: copies[j] == RedactTree(v.items[j], key, detector)
        invariant findings == old(findings) + SoFar(v, path, key, detector, i)
      {
        PointerSnoc(path, Index(i));
        SoFarNext(v, path, key, detector, i);
        var copy := Walk(v.items[i], pointer + [SLASH] + Decimal(i), key, path + [Index(i)]);
        copies := copies + [copy];
      }
      RedactedItems(v, key, detector, copies);
    }

    method WalkMembers(v: Value, pointer: Text, key: Option<Text>, ghost path: Path) returns (out: map<Text, Value>)
      requires v.Obj? && pointer == PointerTo(path)
      modifies this
      ensures Obj(out) == RedactTree(v, key, detector)
      ensures findings == old(findings) + Report(FindingsOf(v, path, key, detector))
      decreases v, 0
    {
      hide Redaction, FindingsOf, RedactTree, PointerTo, StepsOf, SoFar, Report, KeysOf;
      out := map[];
      var keys := KeysOf(v.members);
      KeySteps(v);
      SoFarAll(v, path, key, detector);
      for i := 0 to |keys|
        invariant forall name :: name in out <==> name in keys[..i]
        invariant forall name | name in out :: name in v.members && out[name] == RedactTree(v.members[name], Some(name), detector)
        invariant findings == old(findings) + SoFar(v, path, key, detector, i)
      {
        var name := keys[i];
        assert name in keys && keys[..i + 1] == keys[..i] + [name];
        PointerSnoc(path, Key(name));
        SoFarNext(v, path, key, detector, i);
        var copy := Walk(v.members[name], pointer + [SLASH] + Escape(name), Some(name), path + [Key(name)]);
        out := out[name := copy];
      }
      assert keys[..|keys|] == keys;
      RedactedMembers(v, key, detector, out);
    }
  }

  lemma RedactedItems(v: Value, key: Option<Text>, d: Detector, copies: seq<Value>)
    requires v.Arr? && |copies| == |v.items|
    requires forall j | 0 <= j < |copies| :: copies[j] == RedactTree(v.items[j], key, d)
    ensures Arr(copies) == RedactTree(v, key, d)
  {
  }

  lemma RedactedMembers(v: Value, key: Option<Text>, d: Detector, out: map<Text, Value>)
    requires v.Obj? && out.Keys == v.members.Keys
    requires forall name | name in out :: out[name] == RedactTree(v.members[name], Some(name), d)
    ensures Obj(out) == RedactTree(v, key, d)
  {
  }
}
