/** Walking a value: its steps in enumeration order, and things noted at paths on the way. */
module Walks {
  import opened Texts
  import opened Json
  import opened Pointers
  import opened Sorting
  import opened Canonical

  /** Something noted at a path. */
  datatype Noted<T> = Noted(path: Path, what: T)

  lemma KeysOfDistinct(members: map<Text, Value>)
    ensures forall i, j | 0 <= i < j < |KeysOf(members)| :: KeysOf(members)[i] != KeysOf(members)[j]
  {
    hide EnumeratedBefore;
    EnumerationIsStrictTotal();
    var keys := SortSet(members.Keys, EnumeratedBefore);
    forall i, j | 0 <= i < j < |keys| ensures keys[i] != keys[j] { assert EnumeratedBefore(keys[i], keys[j]); }
  }

  /** The steps down from a value: the indices of an array, the keys of an object. */
  function StepsOf(v: Value): (steps: seq<Step>)
    ensures forall s :: s in steps <==> Below(v, s).Some?
    ensures forall i, j | 0 <= i < j < |steps| :: steps[i] != steps[j]
    ensures forall s | s in steps :: Below(v, s).value < v
  {
    match v
    case Arr(items) =>
      var steps := seq(|items|, i requires 0 <= i < |items| => Index(i));
      assert forall n: nat | n < |items| :: steps[n] == Index(n);
      steps
    case Obj(members) =>
      KeysOfDistinct(members);
      var keys := KeysOf(members);
      var steps := seq(|keys|, i requires 0 <= i < |keys| => Key(keys[i]));
      assert forall name | name in keys :: Key(name) in steps by {
        forall name | name in keys ensures Key(name) in steps {
          var i :| 0 <= i < |keys| && keys[i] == name;
          assert steps[i] == Key(name);
        }
      }
      steps
    case _ => []
  }

  lemma {:induction false} NodeJoin(v: Value, path: Path, rest: Path)
    requires NodeAt(v, path).Some?
    ensures NodeAt(v, path + rest) == NodeAt(NodeAt(v, path).value, rest)
    decreases |path|
  {
    hide Below;
    if path == [] {
      assert [] + rest == rest;
    } else {
      assert (path + rest)[0] == path[0] && (path + rest)[1..] == path[1..] + rest;
      NodeJoin(Below(v, path[0]).value, path[1..], rest);
    }
  }

  lemma OneStep(v: Value, s: Step)
    ensures NodeAt(v, [s]) == Below(v, s)
  {
    assert [s][1..] == [];
  }

  lemma NodeSnoc(v: Value, path: Path, s: Step)
    requires NodeAt(v, path).Some?
    ensures NodeAt(v, path + [s]) == Below(NodeAt(v, path).value, s)
  {
    NodeJoin(v, path, [s]);
    OneStep(NodeAt(v, path).value, s);
  }

  function Flatten<T>(parts: seq<seq<T>>): seq<T> {
    if parts == [] then [] else parts[0] + Flatten(parts[1..])
  }

  lemma {:induction false} FlattenMembers<T>(parts: seq<seq<T>>, x: T)
    ensures x in Flatten(parts) <==> exists i :: 0 <= i < |parts| && x in parts[i]
  {
    if parts != [] {
      FlattenMembers(parts[1..], x);
      if i :| 0 <= i < |parts| && x in parts[i] {
        assert i == 0 || x in parts[1..][i - 1];
      }
    }
  }

  lemma {:induction false} FlattenSnoc<T>(parts: seq<seq<T>>, last: seq<T>)
    ensures Flatten(parts + [last]) == Flatten(parts) + last
  {
    if parts == [] {
      assert [last][1..] == [] && [] + [last] == [last];
    } else {
      FlattenSnoc(parts[1..], last);
      assert (parts + [last])[1..] == parts[1..] + [last];
    }
  }

  /** How many things are noted at a path. */
  function Count<T>(items: seq<Noted<T>>, path: Path): nat {
    if items == [] then 0 else (if items[0].path == path then 1 else 0) + Count(items[1..], path)
  }

  lemma {:induction false} CountConcat<T>(a: seq<Noted<T>>, b: seq<Noted<T>>, path: Path)
    ensures Count(a + b, path) == Count(a, path) + Count(b, path)
  {
    if a == [] {
      assert a + b == b;
    } else {
      CountConcat(a[1..], b, path);
      assert (a + b)[1..] == a[1..] + b;
    }
  }

  lemma {:induction false} CountPositive<T>(items: seq<Noted<T>>, x: Noted<T>)
    requires x in items
    ensures Count(items, x.path) > 0
  {
    if items[0] != x { CountPositive(items[1..], x); }
  }

  lemma {:induction false} CountTwice<T>(items: seq<Noted<T>>, j: nat, k: nat)
    requires j < k < |items| && items[j].path == items[k].path
    ensures Count(items, items[j].path) >= 2
  {
    if j == 0 {
      assert items[1..][k - 1] == items[k];
      CountPositive(items[1..], items[k]);
    } else {
      CountTwice(items[1..], j - 1, k - 1);
    }
  }

  /** What is noted once at a path is the only thing noted there. */
  lemma OnlyOne<T>(items: seq<Noted<T>>, x: Noted<T>, y: Noted<T>)
    requires x in items && y in items && x.path == y.path && Count(items, x.path) <= 1
    ensures x == y
  {
    var j :| 0 <= j < |items| && items[j] == x;
    var k :| 0 <= k < |items| && items[k] == y;
    if j < k { CountTwice(items, j, k); }
    if k < j { CountTwice(items, k, j); }
  }

  /** Everything is noted at the base or below it. */
  ghost predicate Under<T>(items: seq<Noted<T>>, base: Path) {
    forall x | x in items :: base <= x.path
  }

  lemma {:induction false} CountElsewhere<T>(items: seq<Noted<T>>, base: Path, path: Path)
    requires Under(items, base) && !(base <= path)
    ensures Count(items, path) == 0
  {
    if items != [] {
      assert items[0] in items;
      CountElsewhere(items[1..], base, path);
    }
  }

  /** Part j stands under the base's j-th step. */
  ghost predicate Branches<T>(parts: seq<seq<Noted<T>>>, base: Path, steps: seq<Step>) {
    |parts| == |steps| && forall j | 0 <= j < |parts| :: Under(parts[j], base + [steps[j]])
  }

  lemma {:induction false} CountOff<T>(parts: seq<seq<Noted<T>>>, base: Path, steps: seq<Step>, path: Path)
    requires Branches(parts, base, steps) && forall j | 0 <= j < |steps| :: !(base + [steps[j]] <= path)
    ensures Count(Flatten(parts), path) == 0
  {
    if parts != [] {
      CountElsewhere(parts[0], base + [steps[0]], path);
      CountConcat(parts[0], Flatten(parts[1..]), path);
      CountOff(parts[1..], base, steps[1..], path);
    }
  }

  lemma StepOnPath(base: Path, s: Step, path: Path)
    ensures base + [s] <= path <==> |base| < |path| && base <= path && path[|base|] == s
  {
    if |base| < |path| && base <= path && path[|base|] == s {
      assert forall k | 0 <= k < |base| :: path[k] == base[k];
    }
  }

  /** Below one of distinct steps, only that step's part counts. */
  lemma {:induction false} CountBranch<T>(
    parts: seq<seq<Noted<T>>>, base: Path, steps: seq<Step>, i: nat, path: Path)
    requires Branches(parts, base, steps) && i < |steps| && base + [steps[i]] <= path
    requires forall j, k | 0 <= j < k < |steps| :: steps[j] != steps[k]
    ensures Count(Flatten(parts), path) == Count(parts[i], path)
  {
    forall j | 0 <= j < |steps| && j != i ensures !(base + [steps[j]] <= path) {
      StepOnPath(base, steps[i], path);
      StepOnPath(base, steps[j], path);
    }
    CountConcat(parts[0], Flatten(parts[1..]), path);
    if i == 0 {
      CountOff(parts[1..], base, steps[1..], path);
    } else {
      CountElsewhere(parts[0], base + [steps[0]], path);
      CountBranch(parts[1..], base, steps[1..], i - 1, path);
    }
  }

  lemma BranchesUnder<T>(parts: seq<seq<Noted<T>>>, base: Path, steps: seq<Step>)
    requires Branches(parts, base, steps)
    ensures Under(Flatten(parts), base)
  {
    forall x | x in Flatten(parts) ensures base <= x.path {
      FlattenMembers(parts, x);
      var i :| 0 <= i < |parts| && x in parts[i];
      StepOnPath(base, steps[i], x.path);
    }
  }
}
