/**
 * A repeated property name changes no value: at every depth, each repeated occurrence leaves
 * exactly one record, naming the line of the first occurrence and its own.
 */
module Repeats {
  import opened Texts
  import opened Grammar
  import opened Reader
  import opened Language
  import opened Json
  import opened Pointers
  import opened Denotation
  import opened Places

  /** The names of one object, in order. */
  function Names(es: Elems): seq<Text>
    requires ValidElems(es, true)
    decreases es
  {
    match es
    case Close(_) => []
    case Last(e) => [Name(e)]
    case More(e, rest) => [Name(e)] + Names(rest)
  }

  /** The indices at which they stand when the list is read at i. */
  function Sites(i: nat, es: Elems): seq<nat>
    decreases es
  {
    match es
    case Close(_) => []
    case Last(e) => [HeadIndex(i, e)]
    case More(e, rest) => [HeadIndex(i, e)] + Sites(i + |YieldElem(e)| + 1, rest)
  }

  /** The first occurrence of a name; past the end when there is none. */
  function First(names: seq<Text>, name: Text): (j: nat)
    ensures j < |names| ==> names[j] == name
    ensures forall k | 0 <= k < j && k < |names| :: names[k] != name
    ensures j <= |names|
  {
    if names == [] || names[0] == name then 0 else 1 + First(names[1..], name)
  }

  lemma {:induction false} FirstAppend(names: seq<Text>, more: seq<Text>, name: Text)
    ensures First(names + more, name)
         == if First(names, name) < |names| then First(names, name) else |names| + First(more, name)
  {
    if names == [] {
      assert names + more == more;
    } else {
      assert (names + more)[1..] == names[1..] + more;
      FirstAppend(names[1..], more, name);
    }
  }

  /** The occurrence at k repeats an earlier one. */
  predicate Repeating(names: seq<Text>, k: nat)
    requires k < |names|
  {
    First(names, names[k]) < k
  }

  /** Sites of names in the text t. */
  predicate Sited(t: Text, names: seq<Text>, sites: seq<nat>) {
    |names| == |sites| && forall j | 0 <= j < |sites| :: sites[j] <= |t|
  }

  /** The record that a repeated occurrence owes: its name, its pointer, the first line and its own. */
  function Owed(t: Text, names: seq<Text>, sites: seq<nat>, k: nat, ptr: Option<Text>): Duplicate
    requires k < |names| && Sited(t, names, sites)
  {
    Duplicate(names[k], Child(ptr, Escape(names[k])), LineAt(t, sites[First(names, names[k])]), LineAt(t, sites[k]))
  }

  lemma {:induction false} ListSited(t: Text, i: nat, es: Elems)
    requires ValidElems(es, true) && i + |YieldElems(es, true)| <= |t|
    ensures Sited(t, Names(es), Sites(i, es))
    decreases es
  {
    hide YieldElem, Name, ValidElem;
    match es
    case Close(_) =>
    case Last(e) => SpliceElem(t, i, e);
    case More(e, rest) =>
      SpliceElem(t, i, e);
      ListSited(t, i + |YieldElem(e)| + 1, rest);
  }

  /** seen holds the line of the first occurrence of exactly the names so far. */
  ghost predicate Summarizes(t: Text, seen: map<Text, nat>, names: seq<Text>, sites: seq<nat>)
    requires Sited(t, names, sites)
  {
    && (forall name :: name in seen <==> First(names, name) < |names|)
    && (forall name | name in seen :: seen[name] == LineAt(t, sites[First(names, name)]))
  }

  lemma SeenSummarizes(t: Text, i: nat, e: Elem, seen: map<Text, nat>, names: seq<Text>, sites: seq<nat>)
    requires ValidElem(e, true) && i + |YieldElem(e)| <= |t| && Sited(t, names, sites)
      && Summarizes(t, seen, names, sites)
    ensures Sited(t, names + [Name(e)], sites + [HeadIndex(i, e)])
    ensures Summarizes(t, See(t, i, e, true, seen), names + [Name(e)], sites + [HeadIndex(i, e)])
  {
    hide YieldElem, LineAt, Name, ValidElem;
    SpliceElem(t, i, e);
    forall name
      ensures First(names + [Name(e)], name)
           == if First(names, name) < |names| then First(names, name) else if Name(e)
             == name then |names| else |names| + 1
    {
      FirstAppend(names, [Name(e)], name);
      assert [Name(e)][1..] == [];
    }
  }

  // ---- how many ----

  /** The repeated occurrences of one object from m on. */
  function RepeatsFrom(names: seq<Text>, m: nat): set<nat> {
    set k: nat | m <= k < |names| && Repeating(names, k)
  }

  /** All repeated occurrences in a value, at every depth, inside repeated names too. */
  function RepeatCount(v: Tree): nat
    requires ValidTree(v)
    decreases v, 1
  {
    if v.List? then (if v.isObject then |RepeatsFrom(Names(v.elems), 0)| else 0)
      + RepeatCountIn(v.elems, v.isObject) else 0
  }

  function RepeatCountIn(es: Elems, isObject: bool): nat
    requires ValidElems(es, isObject)
    decreases es, 0
  {
    match es
    case Close(_) => 0
    case Last(e) => RepeatCountAt(e, isObject)
    case More(e, rest) => RepeatCountAt(e, isObject) + RepeatCountIn(rest, isObject)
  }

  function RepeatCountAt(e: Elem, isObject: bool): nat
    requires ValidElem(e, isObject)
    decreases e, 2
  {
    RepeatCount(e.tree)
  }

  /** No object in the value has two members of one name. */
  ghost predicate NamesDistinct(v: Tree)
    requires ValidTree(v)
    decreases v, 1
  {
    v.List? ==>
      && NamesDistinctIn(v.elems, v.isObject)
      && (v.isObject ==> var names := Names(v.elems); forall j, k | 0 <= j < k < |names| :: names[j] != names[k])
  }

  ghost predicate NamesDistinctIn(es: Elems, isObject: bool)
    requires ValidElems(es, isObject)
    decreases es, 0
  {
    match es
    case Close(_) => true
    case Last(e) => NamesDistinctAt(e, isObject)
    case More(e, rest) => NamesDistinctAt(e, isObject) && NamesDistinctIn(rest, isObject)
  }

  ghost predicate NamesDistinctAt(e: Elem, isObject: bool)
    requires ValidElem(e, isObject)
    decreases e, 2
  {
    NamesDistinct(e.tree)
  }

  lemma {:induction false} DistinctIffNoRepeats(v: Tree)
    requires ValidTree(v)
    ensures NamesDistinct(v) <==> RepeatCount(v) == 0
    decreases v, 1
  {
    hide Names;
    match v
    case List(isObject, es) =>
      DistinctIffNoRepeatsIn(es, isObject);
      if isObject {
        var names := Names(es);
        if RepeatsFrom(names, 0) == {} {
          forall j, k | 0 <= j < k < |names| ensures names[j] != names[k] {
            assert k !in RepeatsFrom(names, 0);
          }
        } else {
          var k :| k in RepeatsFrom(names, 0);
          assert names[First(names, names[k])] == names[k];
        }
      }
    case _ =>
  }

  lemma {:induction false} DistinctIffNoRepeatsIn(es: Elems, isObject: bool)
    requires ValidElems(es, isObject)
    ensures NamesDistinctIn(es, isObject) <==> RepeatCountIn(es, isObject) == 0
    decreases es, 0
  {
    match es
    case Close(_) =>
    case Last(e) => DistinctIffNoRepeats(e.tree);
    case More(e, rest) =>
      DistinctIffNoRepeats(e.tree);
      DistinctIffNoRepeatsIn(rest, isObject);
  }

  lemma RepeatsStep(names: seq<Text>, m: nat)
    requires m < |names|
    ensures |RepeatsFrom(names, m)| == (if Repeating(names, m) then 1 else 0) + |RepeatsFrom(names, m + 1)|
  {
    var rest := RepeatsFrom(names, m + 1);
    assert RepeatsFrom(names, m) == (if Repeating(names, m) then {m} else {}) + rest;
  }

  /** As many records are added as there are repeated occurrences. */
  lemma {:induction false} TreeRecordCount(t: Text, i: nat, v: Tree, ptr: Option<Text>, notes: Notes)
    requires ValidTree(v) && i + |YieldTree(v)| <= |t|
    ensures |NoteTree(t, i, v, ptr, notes).duplicates| == |notes.duplicates| + RepeatCount(v)
    decreases v
  {
    hide YieldTree, YieldElems, NoteElems, PositionAt, RepeatCountIn, RepeatsFrom, Names;
    match v
    case List(isObject, es) =>
      InsideOccurs(t, i, es, isObject);
      ElemsRecordCount(t, i + 1, es, isObject, ptr, map[], [], [], 0, notes);
      if isObject { assert [] + Names(es) == Names(es); }
    case _ =>
  }

  lemma {:induction false} ElemsRecordCount(
    t: Text, i: nat, es: Elems, isObject: bool, ptr: Option<Text>, seen: map<Text, nat>,
    names: seq<Text>, sites: seq<nat>, index: nat, notes: Notes)
    requires ValidElems(es, isObject) && i + |YieldElems(es, isObject)| <= |t|
    requires Sited(t, names, sites) && Summarizes(t, seen, names, sites)
    ensures |NoteElems(t, i, es, isObject, ptr, seen, index, notes).duplicates|
         == |notes.duplicates| + RepeatCountIn(es, isObject)
            + (if isObject then |RepeatsFrom(names + Names(es), |names|)| else 0)
    decreases es
  {
    hide YieldElem, NoteElem, LineAt, Name, See, RepeatsFrom, RepeatCountAt;
    match es
    case Close(_) =>
      NoRepeats(names);
      assert names + [] == names;
    case Last(e) =>
      ElemRecordCount(t, i, e, isObject, ptr, seen, names, sites, index, notes);
      if isObject {
        assert Names(es) == [Name(e)] == [Name(e)] + [];
        RepeatsAt(names, Name(e), []);
        NoRepeats(names + [Name(e)]);
        assert names + [Name(e)] == names + [Name(e)] + [];
      }
    case More(e, rest) =>
      var n := NoteElem(t, i, e, isObject, ptr, seen, index, notes);
      var k := i + |YieldElem(e)| + 1;
      ElemRecordCount(t, i, e, isObject, ptr, seen, names, sites, index, notes);
      if isObject {
        RepeatsAt(names, Name(e), Names(rest));
        SeenSummarizes(t, i, e, seen, names, sites);
        ElemsRecordCount(
          t, k, rest, isObject, ptr, See(t, i, e, isObject, seen), names + [Name(e)], sites + [HeadIndex(i, e)],
            index + 1, n);
        assert names + ([Name(e)] + Names(rest)) == names + [Name(e)] + Names(rest);
      } else {
        assert See(t, i, e, isObject, seen) == seen by { NothingSeen(t, i, e, seen); }
        ElemsRecordCount(t, k, rest, isObject, ptr, seen, names, sites, index + 1, n);
      }
  }

  lemma NothingSeen(t: Text, i: nat, e: Elem, seen: map<Text, nat>)
    requires ValidElem(e, false) && i + |YieldElem(e)| <= |t|
    ensures See(t, i, e, false, seen) == seen
  {
  }

  lemma NoRepeats(names: seq<Text>)
    ensures RepeatsFrom(names, |names|) == {}
  {
  }

  lemma RepeatsAt(names: seq<Text>, name: Text, rest: seq<Text>)
    ensures |RepeatsFrom(names + ([name] + rest), |names|)|
         == (if First(names, name) < |names| then 1 else 0) + |RepeatsFrom(names + [name] + rest, |names| + 1)|
  {
    var all := names + ([name] + rest);
    assert all == names + [name] + rest && all[|names|] == name;
    FirstAppend(names, [name] + rest, name);
    RepeatsStep(all, |names|);
  }

  lemma {:induction false} ElemRecordCount(
    t: Text, i: nat, e: Elem, isObject: bool, ptr: Option<Text>, seen: map<Text, nat>,
    names: seq<Text>, sites: seq<nat>, index: nat, notes: Notes)
    requires ValidElem(e, isObject) && i + |YieldElem(e)| <= |t|
    requires Sited(t, names, sites) && Summarizes(t, seen, names, sites)
    ensures |NoteElem(t, i, e, isObject, ptr, seen, index, notes).duplicates|
         == |notes.duplicates| + RepeatCountAt(e, isObject)
            + (if isObject && First(names, Name(e)) < |names| then 1 else 0)
    decreases e
  {
    hide YieldElem, YieldTree, NoteTree, LineAt, Name, Escape, RepeatCount;
    SpliceElem(t, i, e);
    var k := ValueIndex(i, e);
    TreeRecordCount(t, k, e.tree, None, notes);
    TreeRecordCount(t, k, e.tree, Child(ptr, Decimal(index)), notes);
    if isObject { TreeRecordCount(t, k, e.tree, Child(ptr, Escape(Name(e))), notes); }
  }

  // ---- which ones ----

  /** Every repeated occurrence in v, read at i, has the record it owes. */
  ghost predicate AllRecorded(t: Text, i: nat, v: Tree, ptr: Option<Text>, records: seq<Duplicate>)
    requires ValidTree(v) && i + |YieldTree(v)| <= |t|
    decreases v, 0
  {
    v.List? ==>
      && AllRecordedIn(t, i + 1, v.elems, v.isObject, ptr, [], 0, records)
      && (v.isObject ==> OwnRecorded(t, i + 1, v.elems, ptr, records))
  }

  ghost predicate OwnRecorded(t: Text, i: nat, es: Elems, ptr: Option<Text>, records: seq<Duplicate>)
    requires ValidElems(es, true) && i + |YieldElems(es, true)| <= |t|
  {
    ListSited(t, i, es);
    forall k: nat | k < |Names(es)| && Repeating(Names(es), k) :: Owed(t, Names(es), Sites(i, es), k, ptr) in records
  }

  /** The pointer below which an element's own records stand: None under a repeated name. */
  function ElemPointer(e: Elem, isObject: bool, ptr: Option<Text>, names: seq<Text>, index: nat): Option<Text>
    requires ValidElem(e, isObject)
  {
    if !isObject then Child(ptr, Decimal(index))
    else if First(names, Name(e)) < |names| then None
    else Child(ptr, Escape(Name(e)))
  }

  ghost predicate AllRecordedIn(
    t: Text, i: nat, es: Elems, isObject: bool, ptr: Option<Text>, names: seq<Text>, index: nat,
      records: seq<Duplicate>)
    requires ValidElems(es, isObject) && i + |YieldElems(es, isObject)| <= |t|
    decreases es, 1
  {
    match es
    case Close(_) => true
    case Last(e) => AllRecordedAt(t, i, e, isObject, ptr, names, index, records)
    case More(e, rest) =>
      && AllRecordedAt(t, i, e, isObject, ptr, names, index, records)
      && AllRecordedIn(
           t, i + |YieldElem(e)| + 1, rest, isObject, ptr, if isObject then names + [Name(e)] else names, index + 1,
             records)
  }

  ghost predicate AllRecordedAt(
    t: Text, i: nat, e: Elem, isObject: bool, ptr: Option<Text>, names: seq<Text>, index: nat, records: seq<Duplicate>)
    requires ValidElem(e, isObject) && i + |YieldElem(e)| <= |t|
    decreases e, 2
  {
    AllRecorded(t, ValueIndex(i, e), e.tree, ElemPointer(e, isObject, ptr, names, index), records)
  }

  ghost predicate Includes(some: seq<Duplicate>, all: seq<Duplicate>) {
    forall d | d in some :: d in all
  }

  lemma {:induction false} TreeRecordsStay(t: Text, i: nat, v: Tree, ptr: Option<Text>, notes: Notes)
    requires ValidTree(v) && i + |YieldTree(v)| <= |t|
    ensures Includes(notes.duplicates, NoteTree(t, i, v, ptr, notes).duplicates)
    decreases v
  {
    hide YieldTree, YieldElems, NoteElems, PositionAt;
    match v
    case List(isObject, es) =>
      InsideOccurs(t, i, es, isObject);
      ElemsRecordsStay(t, i + 1, es, isObject, ptr, map[], 0, notes);
    case _ =>
  }

  lemma {:induction false} ElemRecordsStay(
    t: Text, i: nat, e: Elem, isObject: bool, ptr: Option<Text>, seen: map<Text, nat>, index: nat, notes: Notes)
    requires ValidElem(e, isObject) && i + |YieldElem(e)| <= |t|
    ensures Includes(notes.duplicates, NoteElem(t, i, e, isObject, ptr, seen, index, notes).duplicates)
    decreases e
  {
    hide YieldElem, YieldTree, NoteTree, LineAt, Name, Escape;
    SpliceElem(t, i, e);
    var k := ValueIndex(i, e);
    TreeRecordsStay(t, k, e.tree, None, notes);
    TreeRecordsStay(t, k, e.tree, Child(ptr, Decimal(index)), notes);
    if isObject { TreeRecordsStay(t, k, e.tree, Child(ptr, Escape(Name(e))), notes); }
  }

  lemma {:induction false} ElemsRecordsStay(
    t: Text, i: nat, es: Elems, isObject: bool, ptr: Option<Text>, seen: map<Text, nat>, index: nat, notes: Notes)
    requires ValidElems(es, isObject) && i + |YieldElems(es, isObject)| <= |t|
    ensures Includes(notes.duplicates, NoteElems(t, i, es, isObject, ptr, seen, index, notes).duplicates)
    decreases es
  {
    hide YieldElem, NoteElem, LineAt, ValidElem;
    match es
    case Close(_) =>
    case Last(e) => ElemRecordsStay(t, i, e, isObject, ptr, seen, index, notes);
    case More(e, rest) =>
      ElemRecordsStay(t, i, e, isObject, ptr, seen, index, notes);
      ElemsRecordsStay(
        t, i + |YieldElem(e)| + 1, rest, isObject, ptr, See(t, i, e, isObject, seen), index + 1,
        NoteElem(t, i, e, isObject, ptr, seen, index, notes));
  }

  /** Every repeated occurrence has the record it owes, in any list that includes the notes taken. */
  lemma {:induction false} TreeRecorded(
    t: Text, i: nat, v: Tree, ptr: Option<Text>, notes: Notes, records: seq<Duplicate>)
    requires ValidTree(v) && i + |YieldTree(v)| <= |t|
    requires Includes(NoteTree(t, i, v, ptr, notes).duplicates, records)
    ensures AllRecorded(t, i, v, ptr, records)
    decreases v
  {
    hide YieldTree, YieldElems, NoteElems, PositionAt, Names, Sites, Owed, AllRecordedIn, Repeating;
    match v
    case List(isObject, es) =>
      InsideOccurs(t, i, es, isObject);
      ElemsRecorded(t, i + 1, es, isObject, ptr, map[], [], [], 0, notes, records);
      if isObject {
        ListSited(t, i + 1, es);
        assert [] + Names(es) == Names(es) && [] + Sites(i + 1, es) == Sites(i + 1, es);
      }
    case _ =>
  }

  /** The occurrences from m on have the records they owe. */
  ghost predicate OwedFrom(
    t: Text, names: seq<Text>, sites: seq<nat>, m: nat, ptr: Option<Text>, records: seq<Duplicate>)
    requires Sited(t, names, sites)
  {
    forall k: nat | m <= k < |names| && Repeating(names, k) :: Owed(t, names, sites, k, ptr) in records
  }

  lemma {:induction false} ElemsRecorded(
    t: Text, i: nat, es: Elems, isObject: bool, ptr: Option<Text>, seen: map<Text, nat>,
    names: seq<Text>, sites: seq<nat>, index: nat, notes: Notes, records: seq<Duplicate>)
    requires ValidElems(es, isObject) && i + |YieldElems(es, isObject)| <= |t|
    requires Sited(t, names, sites) && Summarizes(t, seen, names, sites)
    requires Includes(NoteElems(t, i, es, isObject, ptr, seen, index, notes).duplicates, records)
    ensures AllRecordedIn(t, i, es, isObject, ptr, names, index, records)
    ensures isObject ==>
              && Sited(t, names + Names(es), sites + Sites(i, es))
              && OwedFrom(t, names + Names(es), sites + Sites(i, es), |names|, ptr, records)
    decreases es
  {
    hide YieldElem, NoteElem, LineAt, Name, See, AllRecordedAt, Owed, HeadIndex, Repeating;
    if isObject { ListSited(t, i, es); }
    match es
    case Close(_) =>
    case Last(e) =>
      ElemRecorded(t, i, e, isObject, ptr, seen, names, sites, index, notes, records);
      if isObject {
        FirstOwed(t, i, e, ptr, seen, names, sites, [], [], index, notes, records);
        assert [Name(e)] == [Name(e)] + [] && [HeadIndex(i, e)] == [HeadIndex(i, e)] + [];
      }
    case More(e, rest) =>
      var n := NoteElem(t, i, e, isObject, ptr, seen, index, notes);
      var k := i + |YieldElem(e)| + 1;
      ElemsRecordsStay(t, k, rest, isObject, ptr, See(t, i, e, isObject, seen), index + 1, n);
      ElemRecorded(t, i, e, isObject, ptr, seen, names, sites, index, notes, records);
      if isObject {
        SeenSummarizes(t, i, e, seen, names, sites);
        ElemsRecorded(
          t, k, rest, isObject, ptr, See(t, i, e, isObject, seen), names + [Name(e)], sites + [HeadIndex(i, e)],
          index + 1, n, records);
        FirstOwed(t, i, e, ptr, seen, names, sites, Names(rest), Sites(k, rest), index, notes, records);
        assert names + ([Name(e)] + Names(rest)) == names + [Name(e)] + Names(rest);
        assert sites + ([HeadIndex(i, e)] + Sites(k, rest)) == sites + [HeadIndex(i, e)] + Sites(k, rest);
      } else {
        NothingSeen(t, i, e, seen);
        ElemsRecorded(t, k, rest, isObject, ptr, seen, names, sites, index + 1, n, records);
      }
  }

  lemma FirstOwed(
    t: Text, i: nat, e: Elem, ptr: Option<Text>, seen: map<Text, nat>, names: seq<Text>, sites: seq<nat>,
    moreNames: seq<Text>, moreSites: seq<nat>, index: nat, notes: Notes, records: seq<Duplicate>)
    requires ValidElem(e, true) && i + |YieldElem(e)| <= |t|
    requires Sited(t, names, sites) && Summarizes(t, seen, names, sites)
    requires Sited(t, names + ([Name(e)] + moreNames), sites + ([HeadIndex(i, e)] + moreSites))
    requires Includes(NoteElem(t, i, e, true, ptr, seen, index, notes).duplicates, records)
    ensures var all := names + ([Name(e)] + moreNames);
            Repeating(all, |names|) ==> Owed(t, all, sites + ([HeadIndex(i, e)] + moreSites), |names|, ptr) in records
  {
    hide YieldElem, LineAt, Name, NoteTree, Escape;
    var all, at := names + ([Name(e)] + moreNames), sites + ([HeadIndex(i, e)] + moreSites);
    FirstAppend(names, [Name(e)] + moreNames, Name(e));
    assert all[|names|] == Name(e);
    if Repeating(all, |names|) {
      var ds := NoteElem(t, i, e, true, ptr, seen, index, notes).duplicates;
      assert at[First(all, Name(e))] == sites[First(names, Name(e))] && at[|names|] == HeadIndex(i, e);
      assert ds[|ds| - 1] == Owed(t, all, at, |names|, ptr);
    }
  }

  lemma {:induction false} ElemRecorded(
    t: Text, i: nat, e: Elem, isObject: bool, ptr: Option<Text>, seen: map<Text, nat>,
    names: seq<Text>, sites: seq<nat>, index: nat, notes: Notes, records: seq<Duplicate>)
    requires ValidElem(e, isObject) && i + |YieldElem(e)| <= |t|
    requires Sited(t, names, sites) && Summarizes(t, seen, names, sites)
    requires Includes(NoteElem(t, i, e, isObject, ptr, seen, index, notes).duplicates, records)
    ensures AllRecordedAt(t, i, e, isObject, ptr, names, index, records)
    decreases e
  {
    hide YieldElem, YieldTree, NoteTree, LineAt, Name, Escape, AllRecorded;
    SpliceElem(t, i, e);
    TreeRecorded(t, ValueIndex(i, e), e.tree, ElemPointer(e, isObject, ptr, names, index), notes, records);
  }

  // ---- the whole list ----

  /** The record that e owes if its name is among the names before it. */
  function OwedHere(t: Text, i: nat, e: Elem, isObject: bool, ptr: Option<Text>, names: seq<Text>, sites: seq<nat>)
    : seq<Duplicate>
    requires ValidElem(e, isObject) && i + |YieldElem(e)| <= |t| && Sited(t, names, sites)
  {
    if isObject && First(names, Name(e)) < |names| then
      SpliceElem(t, i, e);
      var first := LineAt(t, sites[First(names, Name(e))]);
      [Duplicate(Name(e), Child(ptr, Escape(Name(e))), first, LineAt(t, HeadIndex(i, e)))]
    else []
  }

  /** The records that the repeated occurrences in v, read at i, owe: one each, in the order in which they end. */
  function OwedIn(t: Text, i: nat, v: Tree, ptr: Option<Text>): seq<Duplicate>
    requires ValidTree(v) && i + |YieldTree(v)| <= |t|
    decreases v
  {
    if v.List? then OwedBy(t, i + 1, v.elems, v.isObject, ptr, [], [], 0) else []
  }

  /** The same for a list, of which the names before stand at the sites. */
  function OwedBy(
    t: Text, i: nat, es: Elems, isObject: bool, ptr: Option<Text>, names: seq<Text>, sites: seq<nat>, index: nat)
    : seq<Duplicate>
    requires ValidElems(es, isObject) && i + |YieldElems(es, isObject)| <= |t| && Sited(t, names, sites)
    decreases es
  {
    match es
    case Close(_) => []
    case Last(e) => OwedAt(t, i, e, isObject, ptr, names, sites, index)
    case More(e, rest) =>
      OwedAt(t, i, e, isObject, ptr, names, sites, index)
      + if isObject then
          SpliceElem(t, i, e);
          OwedBy(t, i + |YieldElem(e)| + 1, rest, true, ptr, names + [Name(e)], sites + [HeadIndex(i, e)], index + 1)
        else OwedBy(t, i + |YieldElem(e)| + 1, rest, false, ptr, names, sites, index + 1)
  }

  /** What is inside an element's value, and then the element itself. */
  function OwedAt(
    t: Text, i: nat, e: Elem, isObject: bool, ptr: Option<Text>, names: seq<Text>, sites: seq<nat>, index: nat)
    : seq<Duplicate>
    requires ValidElem(e, isObject) && i + |YieldElem(e)| <= |t| && Sited(t, names, sites)
    decreases e
  {
    OwedIn(t, ValueIndex(i, e), e.tree, ElemPointer(e, isObject, ptr, names, index))
    + OwedHere(t, i, e, isObject, ptr, names, sites)
  }

  /** Reading v adds exactly the records owed, in order. */
  lemma {:induction false} RecordsAreOwed(t: Text, i: nat, v: Tree, ptr: Option<Text>, notes: Notes)
    requires ValidTree(v) && i + |YieldTree(v)| <= |t|
    ensures NoteTree(t, i, v, ptr, notes).duplicates == notes.duplicates + OwedIn(t, i, v, ptr)
    decreases v
  {
    hide YieldTree, YieldElems, NoteElems, PositionAt, OwedBy;
    match v
    case List(isObject, es) =>
      InsideOccurs(t, i, es, isObject);
      RecordsAreOwedBy(t, i + 1, es, isObject, ptr, map[], [], [], 0, notes);
    case _ =>
  }

  lemma {:induction false} RecordsAreOwedBy(
    t: Text, i: nat, es: Elems, isObject: bool, ptr: Option<Text>, seen: map<Text, nat>,
    names: seq<Text>, sites: seq<nat>, index: nat, notes: Notes)
    requires ValidElems(es, isObject) && i + |YieldElems(es, isObject)| <= |t|
    requires Sited(t, names, sites) && Summarizes(t, seen, names, sites)
    ensures NoteElems(t, i, es, isObject, ptr, seen, index, notes).duplicates
         == notes.duplicates + OwedBy(t, i, es, isObject, ptr, names, sites, index)
    decreases es
  {
    hide YieldElem, NoteElem, LineAt, Name, See, OwedAt, HeadIndex;
    match es
    case Close(_) =>
    case Last(e) => RecordsAreOwedAt(t, i, e, isObject, ptr, seen, names, sites, index, notes);
    case More(e, rest) =>
      var n := NoteElem(t, i, e, isObject, ptr, seen, index, notes);
      var k, first := i + |YieldElem(e)| + 1, OwedAt(t, i, e, isObject, ptr, names, sites, index);
      RecordsAreOwedAt(t, i, e, isObject, ptr, seen, names, sites, index, notes);
      if isObject {
        var names', sites' := names + [Name(e)], sites + [HeadIndex(i, e)];
        SeenSummarizes(t, i, e, seen, names, sites);
        RecordsAreOwedBy(t, k, rest, isObject, ptr, See(t, i, e, isObject, seen), names', sites', index + 1, n);
        ConcatAssoc(notes.duplicates, first, OwedBy(t, k, rest, isObject, ptr, names', sites', index + 1));
      } else {
        NothingSeen(t, i, e, seen);
        RecordsAreOwedBy(t, k, rest, isObject, ptr, seen, names, sites, index + 1, n);
        ConcatAssoc(notes.duplicates, first, OwedBy(t, k, rest, isObject, ptr, names, sites, index + 1));
      }
  }

  lemma {:induction false} RecordsAreOwedAt(
    t: Text, i: nat, e: Elem, isObject: bool, ptr: Option<Text>, seen: map<Text, nat>,
    names: seq<Text>, sites: seq<nat>, index: nat, notes: Notes)
    requires ValidElem(e, isObject) && i + |YieldElem(e)| <= |t|
    requires Sited(t, names, sites) && Summarizes(t, seen, names, sites)
    ensures NoteElem(t, i, e, isObject, ptr, seen, index, notes).duplicates
         == notes.duplicates + OwedAt(t, i, e, isObject, ptr, names, sites, index)
    decreases e
  {
    hide YieldElem, YieldTree, NoteTree, LineAt, Name, Escape, OwedIn;
    SpliceElem(t, i, e);
    var below := ElemPointer(e, isObject, ptr, names, index);
    RecordsAreOwed(t, ValueIndex(i, e), e.tree, below, notes);
    var inside, own := OwedIn(t, ValueIndex(i, e), e.tree, below), OwedHere(t, i, e, isObject, ptr, names, sites);
    ConcatAssoc(notes.duplicates, inside, own);
  }

  /** A record names the line of the first occurrence before, or on, its own. */
  ghost predicate InOrder(records: seq<Duplicate>) {
    forall r | r in records :: 1 <= r.firstLine <= r.line
  }

  lemma {:induction false} OwedInOrder(t: Text, i: nat, v: Tree, ptr: Option<Text>)
    requires ValidTree(v) && i + |YieldTree(v)| <= |t|
    ensures InOrder(OwedIn(t, i, v, ptr))
    decreases v
  {
    hide YieldTree, YieldElems, OwedBy;
    match v
    case List(isObject, es) =>
      InsideOccurs(t, i, es, isObject);
      OwedByInOrder(t, i + 1, es, isObject, ptr, [], [], 0);
    case _ =>
  }

  /** All sites come no later than i. */
  ghost predicate UpTo(sites: seq<nat>, i: nat) {
    forall j | 0 <= j < |sites| :: sites[j] <= i
  }

  lemma {:induction false} OwedByInOrder(
    t: Text, i: nat, es: Elems, isObject: bool, ptr: Option<Text>, names: seq<Text>, sites: seq<nat>, index: nat)
    requires ValidElems(es, isObject) && i + |YieldElems(es, isObject)| <= |t|
    requires Sited(t, names, sites) && UpTo(sites, i)
    ensures InOrder(OwedBy(t, i, es, isObject, ptr, names, sites, index))
    decreases es
  {
    hide YieldElem, LineAt, Name, OwedAt, HeadIndex, ValidElem, Sited, UpTo, InOrder;
    match es
    case Close(_) => assert InOrder([]) by { NoneOutOfOrder(); }
    case Last(e) => OwedAtInOrder(t, i, e, isObject, ptr, names, sites, index);
    case More(e, rest) =>
      var k, first := i + |YieldElem(e)| + 1, OwedAt(t, i, e, isObject, ptr, names, sites, index);
      OwedAtInOrder(t, i, e, isObject, ptr, names, sites, index);
      SitesAdvance(t, i, e, names, sites, isObject);
      if isObject {
        var names', sites' := names + [Name(e)], sites + [HeadIndex(i, e)];
        OwedByInOrder(t, k, rest, isObject, ptr, names', sites', index + 1);
        OrderedConcat(first, OwedBy(t, k, rest, isObject, ptr, names', sites', index + 1));
      } else {
        OwedByInOrder(t, k, rest, isObject, ptr, names, sites, index + 1);
        OrderedConcat(first, OwedBy(t, k, rest, isObject, ptr, names, sites, index + 1));
      }
  }

  lemma NoneOutOfOrder()
    ensures InOrder([])
  {
  }

  lemma OrderedConcat(a: seq<Duplicate>, b: seq<Duplicate>)
    requires InOrder(a) && InOrder(b)
    ensures InOrder(a + b)
  {
  }

  lemma SitesAdvance(t: Text, i: nat, e: Elem, names: seq<Text>, sites: seq<nat>, isObject: bool)
    requires ValidElem(e, isObject) && i + |YieldElem(e)| <= |t| && Sited(t, names, sites) && UpTo(sites, i)
    ensures UpTo(sites, i + |YieldElem(e)| + 1) && UpTo(sites + [HeadIndex(i, e)], i + |YieldElem(e)| + 1)
    ensures isObject ==> Sited(t, names + [Name(e)], sites + [HeadIndex(i, e)])
  {
    hide YieldElem, Name, ValidElem;
    SpliceElem(t, i, e);
  }

  lemma {:induction false} OwedAtInOrder(
    t: Text, i: nat, e: Elem, isObject: bool, ptr: Option<Text>, names: seq<Text>, sites: seq<nat>, index: nat)
    requires ValidElem(e, isObject) && i + |YieldElem(e)| <= |t|
    requires Sited(t, names, sites) && UpTo(sites, i)
    ensures InOrder(OwedAt(t, i, e, isObject, ptr, names, sites, index))
    decreases e
  {
    hide YieldElem, YieldTree, LineAt, Name, Escape, OwedIn;
    SpliceElem(t, i, e);
    OwedInOrder(t, ValueIndex(i, e), e.tree, ElemPointer(e, isObject, ptr, names, index));
    if isObject && First(names, Name(e)) < |names| {
      LinesGrow(t, sites[First(names, Name(e))], HeadIndex(i, e));
    }
  }
}
