/** What redaction leaves of a text: what a literal and an opaque value become, and that nothing else changes. */
module RedactionTheorems {
  import opened Texts
  import opened Json
  import opened Pointers
  import opened Walks
  import opened Redact

  // ---- which name holds a node ----

  /** The name of the last member on a path: items of arrays belong to the member that holds the array. */
  function Holder(path: Path): Option<Text> {
    if path == [] then None
    else
      match path[|path| - 1]
      case Key(name) => Some(name)
      case Index(_) => Holder(path[..|path| - 1])
  }

  predicate HeldSensitively(path: Path, d: Detector) {
    Holder(path).Some? && d.sensitive(Holder(path).value)
  }

  lemma {:induction false} KeyAtSnoc(path: Path, s: Step, key: Option<Text>)
    ensures KeyAt(path + [s], key) == KeyBelow(s, KeyAt(path, key))
  {
    if path == [] {
      assert [s][1..] == [] && [] + [s] == [s];
    } else {
      assert (path + [s])[0] == path[0] && (path + [s])[1..] == path[1..] + [s];
      KeyAtSnoc(path[1..], s, KeyBelow(path[0], key));
    }
  }

  /** The name that redaction uses for a node is that of its holder. */
  lemma {:induction false} HolderIsKey(path: Path)
    ensures KeyAt(path, None) == Holder(path)
    decreases |path|
  {
    if path != [] {
      var init, last := path[..|path| - 1], path[|path| - 1];
      assert path == init + [last];
      KeyAtSnoc(init, last, None);
      HolderIsKey(init);
    }
  }

  // ---- one text ----

  /** ts are the texts between the patterns: each pattern replaces what it finds in the text before it. */
  ghost predicate IsRun(ts: seq<Text>, s: Text, literals: seq<Literal>) {
    && |ts| == |literals| + 1 && ts[0] == s
    && forall k | 0 <= k < |literals| ::
         ts[k + 1] == if literals[k].found(ts[k]) then literals[k].replaced(ts[k]) else ts[k]
  }

  /** The names of the patterns found on the way. */
  function NamesFound(ts: seq<Text>, literals: seq<Literal>): seq<Text>
    requires |ts| == |literals| + 1
    decreases |literals|
  {
    if literals == [] then []
    else
      var n := |literals| - 1;
      NamesFound(ts[..n + 1], literals[..n]) + (if literals[n].found(ts[n]) then [literals[n].name] else [])
  }

  lemma {:induction false} ApplyAllSnoc(r: Redacted, literals: seq<Literal>, last: Literal)
    ensures ApplyAll(r, literals + [last]) == Apply(ApplyAll(r, literals), last)
    decreases |literals|
  {
    if literals == [] {
      assert [last][1..] == [] && [] + [last] == [last];
    } else {
      assert (literals + [last])[0] == literals[0] && (literals + [last])[1..] == literals[1..] + [last];
      ApplyAllSnoc(Apply(r, literals[0]), literals[1..], last);
    }
  }

  lemma {:induction false} RunIsApplied(ts: seq<Text>, s: Text, literals: seq<Literal>)
    requires IsRun(ts, s, literals)
    ensures ApplyAll(Redacted(s, []), literals) == Redacted(ts[|literals|], NamesFound(ts, literals))
    decreases |literals|
  {
    if literals != [] {
      var n := |literals| - 1;
      assert literals == literals[..n] + [literals[n]];
      assert IsRun(ts[..n + 1], s, literals[..n]);
      RunIsApplied(ts[..n + 1], s, literals[..n]);
      ApplyAllSnoc(Redacted(s, []), literals[..n], literals[n]);
    }
  }

  /** What the last rule does to a node's text: where its name is sensitive, opaque text is hidden as a whole. */
  function Hidden(r: Redacted, path: Path, d: Detector): Redacted {
    if HeldSensitively(path, d) && d.opaqueValue(r.text) then
      Redacted(Ascii("<redacted>"), r.patterns + [Ascii("opaque-value-under-sensitive-key")])
    else r
  }

  /** In the copy of v, the string at a path has become r.text, and r.patterns are reported of it. */
  ghost predicate Becomes(v: Value, d: Detector, path: Path, r: Redacted) {
    && NodeAt(RedactTree(v, None, d), path) == Some(Str(r.text))
    && FoundAt(v, None, d, path) == r.patterns
  }

  lemma RedactedString(v: Value, d: Detector, path: Path, s: Text)
    requires NodeAt(v, path) == Some(Str(s))
    ensures Becomes(v, d, path, Hidden(ApplyAll(Redacted(s, []), d.literals), path, d))
  {
    hide ApplyAll, Ascii;
    RedactedNodes(v, None, d, path);
    HolderIsKey(path);
  }

  /** Every string of the copy is the end of its run through the patterns, or hidden. */
  lemma StringsRunThroughPatterns(v: Value, d: Detector, path: Path, s: Text, ts: seq<Text>)
    requires NodeAt(v, path) == Some(Str(s)) && IsRun(ts, s, d.literals)
    ensures Becomes(v, d, path, Hidden(Redacted(ts[|d.literals|], NamesFound(ts, d.literals)), path, d))
  {
    hide ApplyAll, Becomes, IsRun, Hidden;
    RedactedString(v, d, path, s);
    RunIsApplied(ts, s, d.literals);
    RunLength(ts, s, d.literals);
  }

  lemma RunLength(ts: seq<Text>, s: Text, literals: seq<Literal>)
    requires IsRun(ts, s, literals)
    ensures |ts| == |literals| + 1
  {
  }

  // ---- one literal, or none ----

  ghost predicate NoneFound(s: Text, literals: seq<Literal>) {
    forall i | 0 <= i < |literals| :: !literals[i].found(s)
  }

  lemma {:induction false} QuietNames(ts: seq<Text>, literals: seq<Literal>)
    requires |ts| == |literals| + 1 && forall k | 0 <= k < |literals| :: !literals[k].found(ts[k])
    ensures NamesFound(ts, literals) == []
    decreases |literals|
  {
    if literals != [] {
      var n := |literals| - 1;
      QuietNames(ts[..n + 1], literals[..n]);
    }
  }

  lemma {:induction false} OneName(ts: seq<Text>, literals: seq<Literal>, i: nat)
    requires |ts| == |literals| + 1 && i < |literals|
    requires forall k | 0 <= k < |literals| :: literals[k].found(ts[k]) <==> k == i
    ensures NamesFound(ts, literals) == [literals[i].name]
    decreases |literals|
  {
    var n := |literals| - 1;
    if i < n {
      OneName(ts[..n + 1], literals[..n], i);
    } else {
      QuietNames(ts[..n + 1], literals[..n]);
    }
  }

  /** The one pattern that s has is replaced, and its name reported; the holder's name may hide the rest. */
  lemma LiteralIsReplaced(v: Value, d: Detector, path: Path, s: Text, i: nat)
    requires NodeAt(v, path) == Some(Str(s)) && i < |d.literals| && d.literals[i].found(s)
    requires forall k | 0 <= k < |d.literals| && k != i ::
               !d.literals[k].found(s) && !d.literals[k].found(d.literals[i].replaced(s))
    ensures Becomes(v, d, path, Hidden(Redacted(d.literals[i].replaced(s), [d.literals[i].name]), path, d))
    ensures !HeldSensitively(path, d) ==>
              NodeAt(RedactTree(v, None, d), path) == Some(Str(d.literals[i].replaced(s)))
  {
    hide RedactTree, FoundAt, NodeAt, Ascii;
    var n, t := |d.literals|, d.literals[i].replaced(s);
    var ts := seq(n + 1, k requires 0 <= k <= n => if k <= i then s else t);
    assert IsRun(ts, s, d.literals);
    StringsRunThroughPatterns(v, d, path, s, ts);
    OneName(ts, d.literals, i);
  }

  /** A string without patterns stays as it is, unless it is opaque and a sensitive name holds it. */
  lemma QuietStrings(v: Value, d: Detector, path: Path, s: Text)
    requires NodeAt(v, path) == Some(Str(s)) && NoneFound(s, d.literals)
    ensures if HeldSensitively(path, d) && d.opaqueValue(s) then
              Becomes(v, d, path, Redacted(Ascii("<redacted>"), [Ascii("opaque-value-under-sensitive-key")]))
            else Becomes(v, d, path, Redacted(s, []))
  {
    hide RedactTree, FoundAt, NodeAt, Ascii;
    var n := |d.literals|;
    var ts := seq(n + 1, k => s);
    assert IsRun(ts, s, d.literals);
    StringsRunThroughPatterns(v, d, path, s, ts);
    QuietNames(ts, d.literals);
  }

  // ---- nothing is left ----

  /** A replacement has no literal of its own pattern, and of the others only what was there; the mark has none. */
  ghost predicate ReplacesCleanly(d: Detector) {
    && (forall l, s | l in d.literals :: !l.found(l.replaced(s)))
    && (forall l, m, s | l in d.literals && m in d.literals && m.found(l.replaced(s)) :: m.found(s))
    && NoneFound(Ascii("<redacted>"), d.literals)
  }

  lemma {:induction false} CleanRun(s: Text, d: Detector, n: nat)
    requires ReplacesCleanly(d) && n <= |d.literals|
    ensures NoneFound(ApplyAll(Redacted(s, []), d.literals[..n]).text, d.literals[..n])
  {
    if n > 0 {
      var init, l := d.literals[..n - 1], d.literals[n - 1];
      assert d.literals[..n] == init + [l];
      CleanRun(s, d, n - 1);
      ApplyAllSnoc(Redacted(s, []), init, l);
      var t := ApplyAll(Redacted(s, []), init).text;
      assert l in d.literals;
      forall i | 0 <= i < n ensures !d.literals[..n][i].found(ApplyAll(Redacted(s, []), d.literals[..n]).text) {
        assert d.literals[i] in d.literals;
        if i < n - 1 { assert !init[i].found(t); }
      }
    }
  }

  /** With such replacements, no string of the copy has any of the patterns. */
  lemma NothingIsLeft(v: Value, d: Detector, path: Path, t: Text)
    requires ReplacesCleanly(d) && NodeAt(RedactTree(v, None, d), path) == Some(Str(t))
    ensures NoneFound(t, d.literals)
  {
    hide ApplyAll, Ascii, ReplacesCleanly;
    RedactedNodes(v, None, d, path);
    var s := NodeAt(v, path).value.s;
    RedactedString(v, d, path, s);
    CleanRun(s, d, |d.literals|);
    assert d.literals[..|d.literals|] == d.literals;
    MarkIsClean(d);
  }

  lemma MarkIsClean(d: Detector)
    requires ReplacesCleanly(d)
    ensures NoneFound(Ascii("<redacted>"), d.literals)
  {
  }
}
