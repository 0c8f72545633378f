/** Sorting texts: a set by any strict total order, and the two orders JavaScript uses. */
module Sorting {
  import opened Texts
  import opened Grammar
  import opened Pointers
  import opened Stable

  type Order = (Text, Text) -> bool

  ghost predicate StrictTotal(less: Order) {
    && (forall a :: !less(a, a))
    && (forall a, b :: a != b ==> less(a, b) || less(b, a))
    && (forall a, b, c :: less(a, b) && less(b, c) ==> less(a, c))
  }

  ghost predicate Increasing(s: seq<Text>, less: Order) {
    forall i, j | 0 <= i < j < |s| :: less(s[i], s[j])
  }

  predicate Least(x: Text, s: set<Text>, less: Order) {
    x in s && forall y | y in s && y != x :: less(x, y)
  }

  lemma {:induction false} LeastExists(s: set<Text>, less: Order)
    requires s != {} && StrictTotal(less)
    ensures exists x :: Least(x, s, less)
    decreases |s|
  {
    var x :| x in s;
    if s == {x} {
      assert Least(x, s, less);
    } else {
      LeastExists(s - {x}, less);
      var y :| Least(y, s - {x}, less);
      if less(x, y) {
        forall z | z in s && z != x ensures less(x, z) { assert z in s - {x}; }
        assert Least(x, s, less);
      } else {
        forall z | z in s && z != y ensures less(y, z) { assert z != x ==> z in s - {x}; }
        assert Least(y, s, less);
      }
    }
  }

  /** The elements of s in increasing order. */
  function SortSet(s: set<Text>, less: Order): (r: seq<Text>)
    requires StrictTotal(less)
    ensures Increasing(r, less) && (forall x :: x in r <==> x in s)
    decreases |s|
  {
    if s == {} then []
    else
      LeastExists(s, less);
      var x :| x in s && Least(x, s, less);
      [x] + SortSet(s - {x}, less)
  }

  // ---- code-unit order ----

  lemma {:induction false} LessTransitive(a: Text, b: Text, c: Text)
    requires Less(a, b) && Less(b, c)
    ensures Less(a, c)
  {
    if a != [] && a[0] == b[0] == c[0] {
      LessTransitive(a[1..], b[1..], c[1..]);
    }
  }

  lemma {:induction false} LessIrreflexive(a: Text)
    ensures !Less(a, a)
  {
    if a != [] { LessIrreflexive(a[1..]); }
  }

  lemma {:induction false} LessTotal(a: Text, b: Text)
    requires a != b
    ensures Less(a, b) || Less(b, a)
  {
    if a != [] && b != [] && a[0] == b[0] {
      assert a == [a[0]] + a[1..] && b == [b[0]] + b[1..];
      LessTotal(a[1..], b[1..]);
    }
  }

  lemma LessIsStrictTotal()
    ensures StrictTotal(Less)
  {
    forall a ensures !Less(a, a) { LessIrreflexive(a); }
    forall a, b | a != b ensures Less(a, b) || Less(b, a) { LessTotal(a, b); }
    forall a, b, c | Less(a, b) && Less(b, c) ensures Less(a, c) { LessTransitive(a, b, c); }
  }

  lemma LessIsWeak()
    ensures WeakOrder(Less)
  {
    hide Less;
    LessIsStrictTotal();
    forall a, b, c | Less(a, b) ensures Less(a, c) || Less(c, b) {
      assert a != c ==> Less(a, c) || Less(c, a);
    }
  }

  /** The first n units agree, and then a ends or has the lower unit. */
  predicate ComesFirst(a: Text, b: Text, n: nat) {
    n <= |a| && n < |b| && a[..n] == b[..n] && (n == |a| || a[n] < b[n])
  }

  /** The order compares the first place at which two texts differ. */
  lemma {:induction false} LessAtDifference(a: Text, b: Text)
    ensures Less(a, b) <==> exists n :: ComesFirst(a, b, n)
  {
    if a != [] && b != [] && a[0] == b[0] {
      LessAtDifference(a[1..], b[1..]);
      if n: nat :| ComesFirst(a[1..], b[1..], n) {
        assert a[..n + 1] == [a[0]] + a[1..][..n] && b[..n + 1] == [b[0]] + b[1..][..n];
        assert ComesFirst(a, b, n + 1);
      }
      if n: nat :| ComesFirst(a, b, n) {
        assert n > 0;
        assert a[1..][..n - 1] == a[..n][1..] && b[1..][..n - 1] == b[..n][1..];
        assert ComesFirst(a[1..], b[1..], n - 1);
      }
    } else {
      assert ComesFirst(a, b, 0) <==> Less(a, b);
      if n: nat :| ComesFirst(a, b, n) {
        FirstAgree(a, b, n);
      }
    }
  }

  lemma FirstAgree(a: Text, b: Text, n: nat)
    requires ComesFirst(a, b, n)
    ensures n > 0 ==> a != [] && b != [] && a[0] == b[0]
  {
    if n > 0 { assert a[..n][0] == a[0] && b[..n][0] == b[0]; }
  }

  // ---- the order in which an object enumerates its keys ----

  /** The number that digits spell in decimal. */
  function DigitsValue(k: Text): nat
    requires AllDigits(k)
  {
    if k == [] then 0 else DigitsValue(k[..|k| - 1]) * 10 + (k[|k| - 1] - ZERO)
  }

  /** A key that is an array index: the decimal of a number below 2^32 - 1. */
  predicate IsIndex(k: Text) {
    k != [] && AllDigits(k) && (k[0] == ZERO ==> |k| == 1) && DigitsValue(k) < 0xffff_ffff
  }

  lemma {:induction false} IndexIsDecimal(k: Text)
    requires k != [] && AllDigits(k) && (k[0] == ZERO ==> |k| == 1)
    ensures Decimal(DigitsValue(k)) == k && (k[0] != ZERO ==> DigitsValue(k) > 0)
    decreases |k|
  {
    var init, last := k[..|k| - 1], k[|k| - 1];
    assert k == init + [last];
    if init == [] {
      assert DigitsValue(init) == 0;
    } else {
      IndexIsDecimal(init);
      assert DigitsValue(k) / 10 == DigitsValue(init) && DigitsValue(k) % 10 == last - ZERO;
    }
  }

  /** Array indices come first, in ascending order; the other keys follow in the order they were inserted. */
  predicate EnumeratedBefore(a: Text, b: Text) {
    if IsIndex(a) && IsIndex(b) then DigitsValue(a) < DigitsValue(b)
    else if IsIndex(a) != IsIndex(b) then IsIndex(a)
    else Less(a, b)
  }

  /** Keys inserted in code-unit order are enumerated in this order. */
  lemma EnumerationIsStrictTotal()
    ensures StrictTotal(EnumeratedBefore)
  {
    LessIsStrictTotal();
    forall a, b | a != b ensures EnumeratedBefore(a, b) || EnumeratedBefore(b, a) {
      if IsIndex(a) && IsIndex(b) {
        IndexIsDecimal(a);
        IndexIsDecimal(b);
      }
    }
  }

  /** The decimal of a number is digits that spell it, without leading zeros. */
  lemma {:induction false} DecimalSpells(n: nat)
    ensures AllDigits(Decimal(n)) && DigitsValue(Decimal(n)) == n && (Decimal(n)[0] == ZERO ==> n == 0)
  {
    var d := Decimal(n);
    if n < 10 {
      assert d[..0] == [] && DigitsValue([]) == 0;
    } else {
      DecimalSpells(n / 10);
      assert d[..|d| - 1] == Decimal(n / 10);
    }
  }

  /** Array indices are the decimals of the numbers below 2^32 - 1. */
  lemma IndicesAreDecimals(k: Text)
    ensures IsIndex(k) <==> exists n: nat :: n < 0xffff_ffff && k == Decimal(n)
  {
    if IsIndex(k) { IndexIsDecimal(k); }
    if n: nat :| n < 0xffff_ffff && k == Decimal(n) { DecimalSpells(n); }
  }

  /** What comes first: the lower of two array indices, an index before any other key, the lesser of two other keys. */
  lemma EnumerationOrder(a: Text, b: Text)
    ensures forall m: nat, n: nat | a == Decimal(m) && b == Decimal(n) && m < 0xffff_ffff && n < 0xffff_ffff ::
              EnumeratedBefore(a, b) <==> m < n
    ensures IsIndex(a) && !IsIndex(b) ==> EnumeratedBefore(a, b) && !EnumeratedBefore(b, a)
    ensures !IsIndex(a) && !IsIndex(b) ==> (EnumeratedBefore(a, b) <==> Less(a, b))
  {
    hide Less;
    forall m: nat, n: nat | a == Decimal(m) && b == Decimal(n) && m < 0xffff_ffff && n < 0xffff_ffff
      ensures EnumeratedBefore(a, b) <==> m < n
    {
      IndicesAreDecimals(a);
      IndicesAreDecimals(b);
      DecimalSpells(m);
      DecimalSpells(n);
    }
  }
}
