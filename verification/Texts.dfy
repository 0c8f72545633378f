/** JavaScript strings: sequences of 16-bit code units, compared unit by unit. */
module Texts {
  type CodeUnit = c: int | 0 <= c < 0x1_0000
  type Text = seq<CodeUnit>

  datatype Option<+T> = None | Some(value: T)

  lemma ConcatAssoc<T>(a: seq<T>, b: seq<T>, c: seq<T>)
    ensures (a + b) + c == a + (b + c)
  {
  }

  /** What stands before and after the first element of a list with one element more. */
  lemma SnocTail<T>(s: seq<T>, x: T)
    requires s != []
    ensures (s + [x])[0] == s[0] && (s + [x])[1..] == s[1..] + [x]
  {
  }

  /** The text y stands at index i of t. */
  predicate Occurs(t: Text, i: nat, y: Text) {
    i + |y| <= |t| && forall k {:trigger SameUnit(t, i, y, k)} | 0 <= k < |y| :: SameUnit(t, i, y, k)
  }

  predicate SameUnit(t: Text, i: nat, y: Text, k: nat)
    requires i + |y| <= |t| && k < |y|
  {
    t[i + k] == y[k]
  }

  lemma OccursAt(t: Text, i: nat, y: Text, k: nat)
    requires Occurs(t, i, y) && k < |y|
    ensures t[i + k] == y[k]
  {
    assert SameUnit(t, i, y, k);
  }

  lemma OccursWithin(t: Text, i: nat, y: Text)
    requires Occurs(t, i, y)
    ensures i + |y| <= |t|
  {
  }

  lemma OccursNothing(t: Text, i: nat)
    requires i <= |t|
    ensures Occurs(t, i, [])
  {
  }

  lemma OccursConcat(t: Text, i: nat, a: Text, b: Text)
    ensures Occurs(t, i, a + b) <==> Occurs(t, i, a) && Occurs(t, i + |a|, b)
  {
    var j, ab := i + |a|, a + b;
    if Occurs(t, i, ab) {
      forall k | 0 <= k < |a| ensures SameUnit(t, i, a, k) { assert SameUnit(t, i, ab, k); }
      forall k | 0 <= k < |b| ensures SameUnit(t, j, b, k) { assert SameUnit(t, i, ab, |a| + k); }
    } else if Occurs(t, i, a) && Occurs(t, j, b) {
      forall k | 0 <= k < |ab| ensures SameUnit(t, i, ab, k) {
        if k < |a| { OccursAt(t, i, a, k); } else { OccursAt(t, j, b, k - |a|); }
      }
    }
  }

  lemma OccursUnit(t: Text, i: nat, c: CodeUnit)
    ensures Occurs(t, i, [c]) <==> i < |t| && t[i] == c
  {
    assert i < |t| ==> (SameUnit(t, i, [c], 0) <==> t[i] == c);
  }

  lemma OccursCons(t: Text, i: nat, c: CodeUnit, b: Text)
    ensures Occurs(t, i, [c] + b) <==> i < |t| && t[i] == c && Occurs(t, i + 1, b)
  {
    OccursConcat(t, i, [c], b);
    OccursUnit(t, i, c);
  }

  lemma OccursPair(t: Text, i: nat, c: CodeUnit, d: CodeUnit, b: Text)
    ensures Occurs(t, i, [c, d] + b) <==> i + 1 < |t| && t[i] == c && t[i + 1] == d && Occurs(t, i + 2, b)
  {
    assert [c, d] + b == [c] + ([d] + b);
    OccursCons(t, i, c, [d] + b);
    OccursCons(t, i + 1, d, b);
  }

  lemma OccursTagged(t: Text, i: nat, c: CodeUnit, d: CodeUnit, a: Text, b: Text)
    ensures Occurs(t, i, [c, d] + (a + b))
       <==> i + 1 < |t| && t[i] == c && t[i + 1] == d && Occurs(t, i + 2, a) && Occurs(t, i + 2 + |a|, b)
  {
    OccursPair(t, i, c, d, a + b);
    OccursConcat(t, i + 2, a, b);
  }

  /** Occurring is being the slice that starts there. */
  lemma OccursSlice(t: Text, i: nat, y: Text)
    requires i + |y| <= |t|
    ensures Occurs(t, i, y) <==> t[i..i + |y|] == y
  {
    if Occurs(t, i, y) {
      forall k | 0 <= k < |y| ensures t[i + k] == y[k] { OccursAt(t, i, y, k); }
    }
    if t[i..i + |y|] == y {
      forall k | 0 <= k < |y| ensures SameUnit(t, i, y, k) { assert t[i..i + |y|][k] == y[k]; }
    }
  }

  /** a starts s, so it occurs at index 0 of s followed by anything. */
  lemma OccursFirst(a: Text, b: Text)
    ensures Occurs(a + b, 0, a)
  {
    OccursSlice(a + b, 0, a);
  }

  /** Strict code-unit order: the order of `<` on JavaScript strings. */
  predicate Less(a: Text, b: Text) {
    b != [] && (a == [] || a[0] < b[0] || (a[0] == b[0] && Less(a[1..], b[1..])))
  }

  /** The code unit of a character of the basic multilingual plane. */
  function Unit(c: char): CodeUnit {
    if c as int < 0x1_0000 then c as int else 0xfffd
  }

  /** A literal of the source as code units. */
  function Ascii(s: string): (t: Text)
    ensures |t| == |s| && forall i | 0 <= i < |s| :: t[i] == Unit(s[i])
  {
    seq(|s|, i requires 0 <= i < |s| => Unit(s[i]))
  }
}
