/** The two texts by which a comparison decides: what equality of the texts says about the entries. */
module Signatures {
  import opened Texts
  import opened Json
  import opened Sorting
  import opened Stable
  import opened Canonical
  import opened RoundTrip
  import opened Entries

  const KIND: Text := Ascii("kind")
  const KEY: Text := Ascii("key")
  const FILE: Text := Ascii("file")
  const VALUE: Text := Ascii("value")

  /** The projection as the JSON object that is printed; without its file when only values are compared. */
  function ProjectionJson(s: Semantic, withFile: bool): Value {
    var rest := map[KIND := Str(KindName(s.kind)), KEY := Str(s.key), VALUE := s.value];
    Obj(if withFile then rest[FILE := Str(s.file)] else rest)
  }

  function Projections(group: seq<Entry>, withFile: bool): seq<Value> {
    seq(|group|, i requires 0 <= i < |group| => ProjectionJson(SemanticEntry(group[i]), withFile))
  }

  /** A text that printable groups share exactly when they look the same, file by file. */
  function Signature(group: seq<Entry>): Text {
    CanonicalJson(Arr(Projections(group, true)))
  }

  function SortTexts(s: seq<Text>): seq<Text> {
    SortBy(s, Less)
  }

  function Concat(s: seq<Text>): Text {
    if s == [] then [] else s[0] + Concat(s[1..])
  }

  function CanonicalTexts(vs: seq<Value>): (ts: seq<Text>)
    ensures |ts| == |vs|
  {
    seq(|vs|, i requires 0 <= i < |vs| => CanonicalJson(vs[i]))
  }

  /** Shared by printable groups exactly when they look the same up to files and order; joined without separators. */
  function ValueSignature(group: seq<Entry>): Text {
    Concat(SortTexts(CanonicalTexts(Projections(group, false))))
  }

  // ---- what the texts decide ----

  /** A comparison cannot see __proto__ members; this is what it does see of an entry. */
  function Visible(e: Entry): Semantic {
    var s := SemanticEntry(e);
    s.(value := DropProto(s.value))
  }

  function VisibleAll(group: seq<Entry>): seq<Semantic> {
    seq(|group|, i requires 0 <= i < |group| => Visible(group[i]))
  }

  function Unplaced(s: Semantic): (Kind, Text, Value) {
    (s.kind, s.key, s.value)
  }

  /** What is seen of a group when files are ignored. */
  function VisibleValues(group: seq<Entry>): seq<(Kind, Text, Value)> {
    seq(|group|, i requires 0 <= i < |group| => Unplaced(Visible(group[i])))
  }

  ghost predicate PrintableGroup(group: seq<Entry>) {
    forall i | 0 <= i < |group| :: Printable(group[i].value)
  }

  lemma FieldsDiffer()
    ensures KIND != KEY && KIND != FILE && KIND != VALUE && KEY != FILE && KEY != VALUE && FILE != VALUE
    ensures PROTO !in {KIND, KEY, FILE, VALUE}
  {
    assert KIND[0] == Unit('k') && FILE[0] == Unit('f');
  }

  lemma ProjectionPrintable(e: Entry, withFile: bool)
    requires Printable(e.value)
    ensures Printable(ProjectionJson(SemanticEntry(e), withFile))
  {
    assert Printable(WithoutRaw(e.value));
    var m := ProjectionJson(SemanticEntry(e), withFile).members;
    forall k | k in m ensures Printable(m[k]) {
    }
  }

  lemma ProjectionFields(s: Semantic, withFile: bool)
    ensures var m := DropProto(ProjectionJson(s, withFile)).members;
            && m.Keys == (if withFile then {KIND, KEY, FILE, VALUE} else {KIND, KEY, VALUE})
            && m[KIND] == Str(KindName(s.kind)) && m[KEY] == Str(s.key) && m[VALUE] == DropProto(s.value)
            && (withFile ==> m[FILE] == Str(s.file))
  {
    hide Ascii, KindName;
    FieldsDiffer();
    var p, m := ProjectionJson(s, withFile).members, DropProto(ProjectionJson(s, withFile)).members;
    assert p[KIND] == Str(KindName(s.kind)) && p[KEY] == Str(s.key) && p[VALUE] == s.value;
    assert DropProto(Str(KindName(s.kind))) == Str(KindName(s.kind)) && DropProto(Str(s.key)) == Str(s.key);
    assert DropProto(Str(s.file)) == Str(s.file);
    assert forall k | k in m :: m[k] == DropProto(p[k]);
    assert forall k :: k in m <==> k in p && k != PROTO;
  }

  lemma ProjectionDecides(a: Semantic, b: Semantic, withFile: bool)
    ensures DropProto(ProjectionJson(a, withFile)) == DropProto(ProjectionJson(b, withFile))
       <==> && a.kind == b.kind && a.key == b.key && DropProto(a.value) == DropProto(b.value)
            && (withFile ==> a.file == b.file)
  {
    hide Ascii, KindName;
    ProjectionFields(a, withFile);
    ProjectionFields(b, withFile);
    if KindName(a.kind) == KindName(b.kind) { KindNamesDiffer(a.kind, b.kind); }
    var m, n := DropProto(ProjectionJson(a, withFile)).members, DropProto(ProjectionJson(b, withFile)).members;
    if m[KIND] == n[KIND] && m[KEY] == n[KEY] && m[VALUE] == n[VALUE] && (withFile ==> m[FILE] == n[FILE]) {
      assert forall k | k in m :: m[k] == n[k];
      assert m == n;
    }
  }

  /** Two groups have one signature exactly when they look the same, entry by entry. */
  lemma SignatureDecides(a: seq<Entry>, b: seq<Entry>)
    requires PrintableGroup(a) && PrintableGroup(b)
    ensures Signature(a) == Signature(b) <==> VisibleAll(a) == VisibleAll(b)
  {
    hide CanonicalJson, Printable, ProjectionJson, SemanticEntry;
    var p, q := Projections(a, true), Projections(b, true);
    forall i | 0 <= i < |a| ensures Printable(p[i]) { ProjectionPrintable(a[i], true); }
    forall i | 0 <= i < |b| ensures Printable(q[i]) { ProjectionPrintable(b[i], true); }
    ListPrintable(p);
    ListPrintable(q);
    CanonicalJsonInjective(Arr(p), Arr(q));
    var x, y := DropProto(Arr(p)).items, DropProto(Arr(q)).items;
    assert Signature(a) == Signature(b) <==> x == y;
    if |a| == |b| {
      forall i | 0 <= i < |a| ensures x[i] == y[i] <==> Visible(a[i]) == Visible(b[i]) {
        ProjectionDecides(SemanticEntry(a[i]), SemanticEntry(b[i]), true);
      }
      if VisibleAll(a) == VisibleAll(b) {
        forall i | 0 <= i < |a| ensures x[i] == y[i] { assert VisibleAll(a)[i] == VisibleAll(b)[i]; }
        assert x == y;
      }
    } else {
      assert |x| == |a| && |y| == |b|;
      assert |VisibleAll(a)| == |a| && |VisibleAll(b)| == |b|;
    }
  }

  lemma ListPrintable(items: seq<Value>)
    requires forall i | 0 <= i < |items| :: Printable(items[i])
    ensures Printable(Arr(items))
  {
  }

  // ---- the joined texts ----

  /** A text that some value of vs prints as. */
  ghost predicate IsCanonical(t: Text) {
    exists v :: Printable(v) && t == CanonicalJson(v)
  }

  /** Joined canonical texts can be told apart again, because no one of them starts another. */
  lemma {:induction false} ConcatDecodes(a: seq<Text>, b: seq<Text>)
    requires (forall i | 0 <= i < |a| :: IsCanonical(a[i])) && (forall i | 0 <= i < |b| :: IsCanonical(b[i]))
    requires Concat(a) == Concat(b)
    ensures a == b
    decreases |a|
  {
    hide CanonicalJson, Printable;
    if a == [] {
      if b != [] { CanonicalNonempty(b[0]); }
    } else if b == [] {
      CanonicalNonempty(a[0]);
    } else {
      var v :| Printable(v) && a[0] == CanonicalJson(v);
      var w :| Printable(w) && b[0] == CanonicalJson(w);
      CanonicalJsonPrefixFree(v, w, Concat(a[1..]), Concat(b[1..]));
      CanonicalJsonInjective(v, w);
      ConcatDecodes(a[1..], b[1..]);
      assert a == [a[0]] + a[1..] && b == [b[0]] + b[1..];
    }
  }

  lemma CanonicalNonempty(t: Text)
    requires IsCanonical(t)
    ensures t != []
  {
    hide Print, DropProto;
  }

  /** A sorted arrangement depends on the multiset alone. */
  lemma {:induction false} SortedUnique(a: seq<Text>, b: seq<Text>)
    requires Sorted(a, Less) && Sorted(b, Less) && multiset(a) == multiset(b)
    ensures a == b
    decreases |a|
  {
    hide Less, Without;
    assert |a| == |multiset(a)| == |multiset(b)| == |b|;
    if a != [] {
      SameHead(a, b);
      HeadTail(a);
      HeadTail(b);
      SortedUnique(a[1..], b[1..]);
    }
  }

  lemma HeadTail<T>(s: seq<T>)
    requires s != []
    ensures s == [s[0]] + s[1..] && multiset(s[1..]) == multiset(s) - multiset{s[0]}
  {
    assert s == [s[0]] + s[1..];
  }

  lemma SameHead(a: seq<Text>, b: seq<Text>)
    requires Sorted(a, Less) && Sorted(b, Less) && multiset(a) == multiset(b) && a != [] && b != []
    ensures a[0] == b[0]
  {
    hide Less;
    LessIsStrictTotal();
    assert a[0] in multiset(b) && b[0] in multiset(a);
    var i :| 0 <= i < |b| && b[i] == a[0];
    var j :| 0 <= j < |a| && a[j] == b[0];
  }

  function Without<T>(s: seq<T>, i: nat): seq<T>
    requires i < |s|
  {
    s[..i] + s[i + 1..]
  }

  lemma MultisetWithout<T>(s: seq<T>, i: nat)
    requires i < |s|
    ensures multiset(s) == multiset(Without(s, i)) + multiset{s[i]}
    ensures multiset(Without(s, i)) == multiset(s) - multiset{s[i]}
  {
    assert s == s[..i] + [s[i]] + s[i + 1..];
  }

  /** The elements of one pair of sequences are equal where those of the other pair are. */
  ghost predicate Aligned<S, T>(a: seq<S>, b: seq<S>, p: seq<T>, q: seq<T>) {
    && |a| == |p| && |b| == |q|
    && forall i, j | 0 <= i < |a| && 0 <= j < |b| :: a[i] == b[j] <==> p[i] == q[j]
  }

  lemma AlignedWithout<S, T>(a: seq<S>, b: seq<S>, p: seq<T>, q: seq<T>, j: nat)
    requires Aligned(a, b, p, q) && a != [] && j < |b|
    ensures Aligned(Without(a, 0), Without(b, j), Without(p, 0), Without(q, j))
  {
    var b', q' := Without(b, j), Without(q, j);
    forall k | 0 <= k < |b'| ensures b'[k] == b[if k < j then k else k + 1] && q'[k] == q[if k < j then k else k + 1] {
    }
  }

  /** So equal multisets on one side are equal multisets on the other. */
  lemma {:induction false} MultisetImage<S, T>(a: seq<S>, b: seq<S>, p: seq<T>, q: seq<T>)
    requires Aligned(a, b, p, q)
    ensures multiset(a) == multiset(b) ==> multiset(p) == multiset(q)
    decreases |a|
  {
    if multiset(a) == multiset(b) {
      assert |a| == |multiset(a)| == |multiset(b)| == |b|;
      if a != [] {
        assert a[0] in multiset(b);
        var j :| 0 <= j < |b| && b[j] == a[0];
        MultisetWithout(a, 0);
        MultisetWithout(b, j);
        MultisetWithout(p, 0);
        MultisetWithout(q, j);
        AlignedWithout(a, b, p, q, j);
        assert p[0] == q[j];
        hide Aligned, Without;
        MultisetImage(Without(a, 0), Without(b, j), Without(p, 0), Without(q, j));
      } else {
        assert p == [] && q == [];
      }
    }
  }

  lemma ValueTexts(group: seq<Entry>)
    requires PrintableGroup(group)
    ensures var ts := CanonicalTexts(Projections(group, false));
            && |ts| == |group| && (forall i | 0 <= i < |ts| :: IsCanonical(ts[i]))
            && (forall i | 0 <= i < |ts| :: ts[i] == CanonicalJson(ProjectionJson(SemanticEntry(group[i]), false)))
  {
    hide CanonicalJson, Printable, ProjectionJson, SemanticEntry;
    forall i | 0 <= i < |group| ensures Printable(ProjectionJson(SemanticEntry(group[i]), false)) {
      ProjectionPrintable(group[i], false);
    }
  }

  lemma ValueTextDecides(a: Entry, b: Entry)
    requires Printable(a.value) && Printable(b.value)
    ensures CanonicalJson(ProjectionJson(SemanticEntry(a), false)) == CanonicalJson(ProjectionJson(SemanticEntry(b), false))
       <==> Unplaced(Visible(a)) == Unplaced(Visible(b))
  {
    hide CanonicalJson, Printable, ProjectionJson, SemanticEntry;
    ProjectionPrintable(a, false);
    ProjectionPrintable(b, false);
    CanonicalJsonInjective(ProjectionJson(SemanticEntry(a), false), ProjectionJson(SemanticEntry(b), false));
    ProjectionDecides(SemanticEntry(a), SemanticEntry(b), false);
  }

  /** Two groups have one value signature exactly when the multisets of what is seen of them, files aside, are equal. */
  lemma ValueSignatureDecides(a: seq<Entry>, b: seq<Entry>)
    requires PrintableGroup(a) && PrintableGroup(b)
    ensures ValueSignature(a) == ValueSignature(b) <==> multiset(VisibleValues(a)) == multiset(VisibleValues(b))
  {
    hide CanonicalJson, Printable, ProjectionJson, SemanticEntry, Visible, Unplaced, CanonicalTexts, Projections;
    var s, t := CanonicalTexts(Projections(a, false)), CanonicalTexts(Projections(b, false));
    var x, y := VisibleValues(a), VisibleValues(b);
    ValueTexts(a);
    ValueTexts(b);
    forall i, j | 0 <= i < |s| && 0 <= j < |t| ensures s[i] == t[j] <==> x[i] == y[j] {
      ValueTextDecides(a[i], b[j]);
    }
    assert Aligned(s, t, x, y) && Aligned(x, y, s, t);
    MultisetImage(s, t, x, y);
    MultisetImage(x, y, s, t);
    LessIsWeak();
    SortBySorts(s, Less);
    SortBySorts(t, Less);
    hide SortBy, WeakOrder, Sorted, Less;
    if multiset(s) == multiset(t) {
      SortedUnique(SortTexts(s), SortTexts(t));
    }
    if Concat(SortTexts(s)) == Concat(SortTexts(t)) {
      SortedCanonical(s);
      SortedCanonical(t);
      ConcatDecodes(SortTexts(s), SortTexts(t));
    }
  }

  lemma SortedCanonical(s: seq<Text>)
    requires forall i | 0 <= i < |s| :: IsCanonical(s[i])
    ensures forall i | 0 <= i < |SortTexts(s)| :: IsCanonical(SortTexts(s)[i])
  {
    hide IsCanonical, Less;
    LessIsWeak();
    SortBySorts(s, Less);
    forall i | 0 <= i < |SortTexts(s)| ensures IsCanonical(SortTexts(s)[i]) {
      assert SortTexts(s)[i] in SortTexts(s);
      assert SortTexts(s)[i] in s;
    }
  }
}
