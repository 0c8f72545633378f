/**
 * The pointers a parse records are exactly those of the nodes of its value, each written once, with the
 * place at which the text of its node begins; of members with one name, the first is the node.
 */
module Places {
  import opened Texts
  import opened Grammar
  import opened Reader
  import opened Language
  import opened Json
  import opened Pointers
  import opened Denotation
  import opened Walks

  lemma InsideOccurs(t: Text, i: nat, es: Elems, isObject: bool)
    ensures Occurs(t, i, YieldTree(List(isObject, es))) ==> Occurs(t, i + 1, YieldElems(es, isObject))
    ensures |YieldTree(List(isObject, es))| == 1 + |YieldElems(es, isObject)|
  {
    OccursCons(t, i, Opening(isObject), YieldElems(es, isObject));
  }

  lemma ChildPointer(base: Path, s: Step)
    ensures Child(Some(PointerTo(base)), Token(s)) == Some(PointerTo(base + [s]))
  {
    PointerSnoc(base, s);
  }

  function ElemStep(e: Elem, isObject: bool, index: nat): Step
    requires ValidElem(e, isObject)
  {
    if isObject then Key(Name(e)) else Index(index)
  }

  // ---- the subtree at a path ----

  /** A subtree and the index at which its text begins. */
  datatype Site = Site(at: nat, tree: Tree)

  /** The subtree at a path of a tree read at i. */
  function SiteOf(i: nat, v: Tree, p: Path): Option<Site>
    requires ValidTree(v)
    decreases v
  {
    if p == [] then Some(Site(i, v))
    else if v.List? then SiteIn(i + 1, v.elems, v.isObject, 0, p[0], p[1..])
    else None
  }

  /** The same in a list: below its first element that stands under the step s. */
  function SiteIn(i: nat, es: Elems, isObject: bool, index: nat, s: Step, p: Path): Option<Site>
    requires ValidElems(es, isObject)
    decreases es
  {
    match es
    case Close(_) => None
    case Last(e) => if s == ElemStep(e, isObject, index) then SiteOf(ValueIndex(i, e), e.tree, p) else None
    case More(e, rest) =>
      if s == ElemStep(e, isObject, index) then SiteOf(ValueIndex(i, e), e.tree, p)
      else SiteIn(i + |YieldElem(e)| + 1, rest, isObject, index + 1, s, p)
  }

  lemma {:induction false} MembersKeep(es: Elems, obj: map<Text, Value>)
    requires ValidElems(es, true)
    ensures forall name | name in obj :: name in Members(es, obj) && Members(es, obj)[name] == obj[name]
    decreases es
  {
    match es
    case Close(_) =>
    case Last(e) =>
    case More(e, rest) => MembersKeep(rest, Join(obj, e));
  }

  /** The value that es adds to a list under the step s, if it adds one. */
  function Added(es: Elems, isObject: bool, obj: map<Text, Value>, index: nat, s: Step): Option<Value>
    requires ValidElems(es, isObject)
  {
    match s
    case Key(name) =>
      if isObject && name !in obj && name in Members(es, obj) then Some(Members(es, obj)[name]) else None
    case Index(k) =>
      if !isObject && index <= k < index + |Items(es)| then Some(Items(es)[k - index]) else None
  }

  /** An element gives its list a value: always in an array, in an object if its name is new. */
  predicate IsNew(e: Elem, isObject: bool, names: set<Text>)
    requires ValidElem(e, isObject)
  {
    isObject ==> Name(e) !in names
  }

  function Joined(e: Elem, isObject: bool, obj: map<Text, Value>): map<Text, Value>
    requires ValidElem(e, isObject)
  {
    if isObject then Join(obj, e) else obj
  }

  /** What a list adds under a step is the first element's value or what the rest adds there. */
  lemma AddedFirst(es: Elems, isObject: bool, obj: map<Text, Value>, index: nat, s: Step)
    requires ValidElems(es, isObject)
    ensures Added(es, isObject, obj, index, s)
         == match es
            case Close(_) => None
            case Last(e) =>
              if s == ElemStep(e, isObject, index) && IsNew(e, isObject, obj.Keys) then Some(ElemValue(e, isObject))
              else None
            case More(e, rest) =>
              if s == ElemStep(e, isObject, index) && IsNew(e, isObject, obj.Keys) then Some(ElemValue(e, isObject))
              else Added(rest, isObject, Joined(e, isObject, obj), index + 1, s)
  {
    hide Name, ElemValue;
    match es
    case Close(_) =>
    case Last(e) =>
      assert if isObject then Members(es, obj) == Join(obj, e) else Items(es) == [ElemValue(e, false)];
    case More(e, rest) =>
      if isObject {
        MembersKeep(rest, Join(obj, e));
        assert Name(e) in Join(obj, e) && Members(es, obj) == Members(rest, Join(obj, e));
      } else {
        assert Items(es) == [ElemValue(e, false)] + Items(rest);
      }
  }

  lemma ListBelow(es: Elems, isObject: bool, s: Step)
    requires ValidElems(es, isObject)
    ensures Below(TreeValue(List(isObject, es)), s) == Added(es, isObject, map[], 0, s)
  {
  }

  lemma NodeBelow(v: Value, p: Path)
    requires p != []
    ensures NodeAt(v, p) == match Below(v, p[0]) case None => None case Some(w) => NodeAt(w, p[1..])
  {
  }

  /** A site of a node: the text of its tree stands there, and the tree means the node. */
  ghost predicate StandsFor(t: Text, site: Option<Site>, node: Option<Value>, occurs: bool) {
    && (site.Some? <==> node.Some?)
    && (site.Some? ==>
          && ValidTree(site.value.tree) && node == Some(TreeValue(site.value.tree))
          && (occurs ==> Occurs(t, site.value.at, YieldTree(site.value.tree))))
  }

  /** A tree has a site at precisely the paths of its value's nodes, and the text there means the node. */
  lemma {:induction false} SitesAreNodes(t: Text, i: nat, v: Tree, p: Path)
    requires ValidTree(v)
    ensures StandsFor(t, SiteOf(i, v, p), NodeAt(TreeValue(v), p), Occurs(t, i, YieldTree(v)))
    decreases v
  {
    hide YieldTree, YieldElems, Added, Occurs, Below;
    if p != [] {
      NodeBelow(TreeValue(v), p);
      match v
      case List(isObject, es) =>
        InsideOccurs(t, i, es, isObject);
        ListBelow(es, isObject, p[0]);
        hide TreeValue;
        SitesAreNodesIn(t, i + 1, es, isObject, map[], 0, p[0], p[1..]);
      case _ => NothingBelow(v, p[0]);
    }
  }

  lemma NothingBelow(v: Tree, s: Step)
    requires ValidTree(v) && !v.List?
    ensures Below(TreeValue(v), s).None?
  {
  }

  /** The node at a path below a child, if there is the child. */
  function NodeUnder(child: Option<Value>, p: Path): Option<Value> {
    if child.None? then None else NodeAt(child.value, p)
  }

  lemma {:induction false} SitesAreNodesIn(
    t: Text, i: nat, es: Elems, isObject: bool, obj: map<Text, Value>, index: nat, s: Step, p: Path)
    requires ValidElems(es, isObject) && (s.Key? ==> s.name !in obj)
    ensures StandsFor(t, SiteIn(i, es, isObject, index, s, p), NodeUnder(Added(es, isObject, obj, index, s), p),
                   Occurs(t, i, YieldElems(es, isObject)))
    decreases es
  {
    hide YieldElem, YieldElems, Added, Occurs, Name, NodeAt, ValidElem, StandsFor, SiteOf, IsNew, Joined;
    AddedFirst(es, isObject, obj, index, s);
    FirstIsFree(es, isObject, obj, index, s);
    match es
    case Close(_) => NothingStands(t, Occurs(t, i, YieldElems(es, isObject)));
    case Last(e) =>
      PartsOccur(t, i, es, isObject);
      if s == ElemStep(e, isObject, index) {
        SitesAreNodesAt(t, i, e, isObject, p, Occurs(t, i, YieldElems(es, isObject)));
      } else {
        NothingStands(t, Occurs(t, i, YieldElems(es, isObject)));
      }
    case More(e, rest) =>
      PartsOccur(t, i, es, isObject);
      if s == ElemStep(e, isObject, index) {
        SitesAreNodesAt(t, i, e, isObject, p, Occurs(t, i, YieldElems(es, isObject)));
      } else {
        var k, obj' := i + |YieldElem(e)| + 1, Joined(e, isObject, obj);
        JoinedNames(e, isObject, obj, s);
        SitesAreNodesIn(t, k, rest, isObject, obj', index + 1, s, p);
        StandsStill(t, SiteIn(k, rest, isObject, index + 1, s, p),
                    NodeUnder(Added(rest, isObject, obj', index + 1, s), p),
                    Occurs(t, k, YieldElems(rest, isObject)), Occurs(t, i, YieldElems(es, isObject)));
      }
  }

  /** If the step is the first element's, its name is new. */
  lemma FirstIsFree(es: Elems, isObject: bool, obj: map<Text, Value>, index: nat, s: Step)
    requires ValidElems(es, isObject) && (s.Key? ==> s.name !in obj)
    ensures !es.Close? && s == ElemStep(es.elem, isObject, index) ==> IsNew(es.elem, isObject, obj.Keys)
  {
    hide Name;
  }

  /** Where a list stands, its first element and its rest stand. */
  lemma PartsOccur(t: Text, i: nat, es: Elems, isObject: bool)
    requires ValidElems(es, isObject) && !es.Close?
    ensures Occurs(t, i, YieldElems(es, isObject)) ==>
              && Occurs(t, i, YieldElem(es.elem))
              && (es.More? ==> Occurs(t, i + |YieldElem(es.elem)| + 1, YieldElems(es.rest, isObject)))
  {
    hide YieldElem, Occurs, ValidElem;
    match es
    case Last(e) => SpliceLast(t, i, e, isObject);
    case More(e, rest) => SpliceMore(t, i, e, rest, isObject);
  }

  lemma {:induction false} SitesAreNodesAt(t: Text, i: nat, e: Elem, isObject: bool, p: Path, occurs: bool)
    requires ValidElem(e, isObject) && (occurs ==> Occurs(t, i, YieldElem(e)))
    ensures StandsFor(t, SiteOf(ValueIndex(i, e), e.tree, p), NodeAt(ElemValue(e, isObject), p), occurs)
    decreases e
  {
    hide YieldElem, YieldTree, Occurs, NodeAt, SiteOf, TreeValue, StandsFor;
    SpliceElem(t, i, e);
    ElemTree(e, isObject);
    SitesAreNodes(t, ValueIndex(i, e), e.tree, p);
    StandsStill(t, SiteOf(ValueIndex(i, e), e.tree, p), NodeAt(TreeValue(e.tree), p),
                Occurs(t, ValueIndex(i, e), YieldTree(e.tree)), occurs);
  }

  lemma NothingStands(t: Text, occurs: bool)
    ensures StandsFor(t, None, None, occurs)
  {
  }

  lemma StandsStill(t: Text, site: Option<Site>, node: Option<Value>, occurs: bool, more: bool)
    requires StandsFor(t, site, node, occurs) && (more ==> occurs)
    ensures StandsFor(t, site, node, more)
  {
    hide TreeValue, ValidTree, Occurs, YieldTree;
  }

  lemma ElemTree(e: Elem, isObject: bool)
    requires ValidElem(e, isObject)
    ensures ValidTree(e.tree) && ElemValue(e, isObject) == TreeValue(e.tree)
  {
    hide ValidTree;
  }

  lemma JoinedNames(e: Elem, isObject: bool, obj: map<Text, Value>, s: Step)
    requires ValidElem(e, isObject)
    ensures Joined(e, isObject, obj).Keys == obj.Keys + (if isObject then {Name(e)} else {})
    ensures forall index | s != ElemStep(e, isObject, index) && s.Key? && s.name !in obj ::
              s.name !in Joined(e, isObject, obj)
  {
    hide Name, ElemValue;
  }

  // ---- what is written, in order ----

  /** What reading v at i writes: below the base, each node's path and the index at which it stands, children first. */
  function Marks(i: nat, v: Tree, base: Path): seq<Noted<nat>>
    requires ValidTree(v)
    decreases v, 1
  {
    MarksInside(i, v, base) + [Noted(base, i)]
  }

  function MarksInside(i: nat, v: Tree, base: Path): seq<Noted<nat>>
    requires ValidTree(v)
    decreases v, 0
  {
    if v.List? then MarksIn(i + 1, v.elems, v.isObject, base, {}, 0) else []
  }

  function MarksIn(i: nat, es: Elems, isObject: bool, base: Path, names: set<Text>, index: nat): seq<Noted<nat>>
    requires ValidElems(es, isObject)
    decreases es
  {
    match es
    case Close(_) => []
    case Last(e) => MarksAt(i, e, isObject, base, names, index)
    case More(e, rest) =>
      MarksAt(i, e, isObject, base, names, index)
      + MarksIn(i + |YieldElem(e)| + 1, rest, isObject, base, if isObject then names + {Name(e)} else names, index + 1)
  }

  /** Nothing inside a repeated name is written. */
  function MarksAt(i: nat, e: Elem, isObject: bool, base: Path, names: set<Text>, index: nat): seq<Noted<nat>>
    requires ValidElem(e, isObject)
    decreases e
  {
    if IsNew(e, isObject, names) then Marks(ValueIndex(i, e), e.tree, base + [ElemStep(e, isObject, index)]) else []
  }

  ghost predicate Within(t: Text, marks: seq<Noted<nat>>) {
    forall k | 0 <= k < |marks| :: marks[k].what <= |t|
  }

  /** A pointer map after the marks are written to it, one after the other. */
  function WriteAll(t: Text, pointers: map<Text, Position>, marks: seq<Noted<nat>>): map<Text, Position>
    requires Within(t, marks)
  {
    if marks == [] then pointers
    else
      var last := marks[|marks| - 1];
      WriteAll(t, pointers, marks[..|marks| - 1])[PointerTo(last.path) := PositionAt(t, last.what)]
  }

  lemma {:induction false} WriteConcat(
    t: Text, pointers: map<Text, Position>, a: seq<Noted<nat>>, b: seq<Noted<nat>>)
    requires Within(t, a) && Within(t, b)
    ensures Within(t, a + b) && WriteAll(t, pointers, a + b) == WriteAll(t, WriteAll(t, pointers, a), b)
    decreases |b|
  {
    hide PositionAt, PointerTo;
    if b == [] {
      assert a + b == a;
    } else {
      var n := |b| - 1;
      assert (a + b)[..|a + b| - 1] == a + b[..n];
      WriteConcat(t, pointers, a, b[..n]);
    }
  }

  /** Nothing inside a repeated name gets a pointer. */
  lemma {:induction false} RepeatedTreeUnmarked(t: Text, i: nat, v: Tree, notes: Notes)
    requires ValidTree(v) && i + |YieldTree(v)| <= |t|
    ensures NoteTree(t, i, v, None, notes).pointers == notes.pointers
    decreases v
  {
    hide YieldTree, YieldElems, NoteElems;
    match v
    case List(isObject, es) =>
      InsideOccurs(t, i, es, isObject);
      RepeatedElemsUnmarked(t, i + 1, es, isObject, map[], 0, notes);
    case _ =>
  }

  lemma RepeatedElemUnmarked(
    t: Text, i: nat, e: Elem, isObject: bool, seen: map<Text, nat>, index: nat, notes: Notes)
    requires ValidElem(e, isObject) && i + |YieldElem(e)| <= |t|
    ensures NoteElem(t, i, e, isObject, None, seen, index, notes).pointers == notes.pointers
    decreases e
  {
    hide YieldElem, YieldTree, NoteTree, LineAt, Name;
    SpliceElem(t, i, e);
    RepeatedTreeUnmarked(t, ValueIndex(i, e), e.tree, notes);
  }

  lemma {:induction false} RepeatedElemsUnmarked(
    t: Text, i: nat, es: Elems, isObject: bool, seen: map<Text, nat>, index: nat, notes: Notes)
    requires ValidElems(es, isObject) && i + |YieldElems(es, isObject)| <= |t|
    ensures NoteElems(t, i, es, isObject, None, seen, index, notes).pointers == notes.pointers
    decreases es
  {
    hide YieldElem, NoteElem, LineAt, ValidElem, See;
    match es
    case Close(_) =>
    case Last(e) => RepeatedElemUnmarked(t, i, e, isObject, seen, index, notes);
    case More(e, rest) =>
      RepeatedElemUnmarked(t, i, e, isObject, seen, index, notes);
      RepeatedElemsUnmarked(
        t, i + |YieldElem(e)| + 1, rest, isObject, See(t, i, e, isObject, seen), index + 1,
        NoteElem(t, i, e, isObject, None, seen, index, notes));
  }

  /** The notes' pointers are those before with the marks written. */
  lemma {:induction false} NotesAreMarks(t: Text, i: nat, v: Tree, base: Path, notes: Notes)
    requires ValidTree(v) && i + |YieldTree(v)| <= |t|
    ensures Within(t, Marks(i, v, base))
    ensures NoteTree(t, i, v, Some(PointerTo(base)), notes).pointers == WriteAll(t, notes.pointers, Marks(i, v, base))
    decreases v, 1
  {
    hide YieldTree, NoteInside, PositionAt, PointerTo, MarksInside, WriteAll, Within;
    NotesAreMarksInside(t, i, v, base, notes);
    WriteLast(t, notes.pointers, MarksInside(i, v, base), base, i);
  }

  lemma WriteLast(t: Text, pointers: map<Text, Position>, marks: seq<Noted<nat>>, path: Path, at: nat)
    requires Within(t, marks) && at <= |t|
    ensures Within(t, marks + [Noted(path, at)])
    ensures WriteAll(t, pointers, marks + [Noted(path, at)])
         == WriteAll(t, pointers, marks)[PointerTo(path) := PositionAt(t, at)]
  {
    hide PositionAt, PointerTo;
    assert (marks + [Noted(path, at)])[..|marks|] == marks;
  }

  lemma {:induction false} NotesAreMarksInside(t: Text, i: nat, v: Tree, base: Path, notes: Notes)
    requires ValidTree(v) && i + |YieldTree(v)| <= |t|
    ensures Within(t, MarksInside(i, v, base))
    ensures NoteInside(t, i, v, Some(PointerTo(base)), notes).pointers
         == WriteAll(t, notes.pointers, MarksInside(i, v, base))
    decreases v, 0
  {
    hide YieldTree, YieldElems, NoteElems, PositionAt, PointerTo, MarksIn;
    match v
    case List(isObject, es) =>
      InsideOccurs(t, i, es, isObject);
      var none: map<Text, nat> := map[];
      assert none.Keys == {};
      hide WriteAll, Within;
      NotesAreMarksIn(t, i + 1, es, isObject, base, none, 0, notes);
    case _ =>
  }

  lemma {:induction false} NotesAreMarksAt(
    t: Text, i: nat, e: Elem, isObject: bool, base: Path, seen: map<Text, nat>, index: nat, notes: Notes)
    requires ValidElem(e, isObject) && i + |YieldElem(e)| <= |t|
    ensures Within(t, MarksAt(i, e, isObject, base, seen.Keys, index))
    ensures NoteElem(t, i, e, isObject, Some(PointerTo(base)), seen, index, notes).pointers
         == WriteAll(t, notes.pointers, MarksAt(i, e, isObject, base, seen.Keys, index))
    decreases e
  {
    hide YieldElem, YieldTree, NoteTree, LineAt, Marks, Name, PointerTo;
    SpliceElem(t, i, e);
    var k, s := ValueIndex(i, e), ElemStep(e, isObject, index);
    ChildPointer(base, s);
    if IsNew(e, isObject, seen.Keys) {
      NotesAreMarks(t, k, e.tree, base + [s], notes);
    } else {
      RepeatedTreeUnmarked(t, k, e.tree, notes);
    }
  }

  lemma {:induction false} NotesAreMarksIn(
    t: Text, i: nat, es: Elems, isObject: bool, base: Path, seen: map<Text, nat>, index: nat, notes: Notes)
    requires ValidElems(es, isObject) && i + |YieldElems(es, isObject)| <= |t|
    ensures Within(t, MarksIn(i, es, isObject, base, seen.Keys, index))
    ensures NoteElems(t, i, es, isObject, Some(PointerTo(base)), seen, index, notes).pointers
         == WriteAll(t, notes.pointers, MarksIn(i, es, isObject, base, seen.Keys, index))
    decreases es
  {
    hide YieldElem, NoteElem, LineAt, Name, MarksAt, ValidElem, PointerTo;
    match es
    case Close(_) =>
    case Last(e) => NotesAreMarksAt(t, i, e, isObject, base, seen, index, notes);
    case More(e, rest) =>
      var n := NoteElem(t, i, e, isObject, Some(PointerTo(base)), seen, index, notes);
      var k, seen' := i + |YieldElem(e)| + 1, See(t, i, e, isObject, seen);
      var names := if isObject then seen.Keys + {Name(e)} else seen.Keys;
      assert seen'.Keys == names by { SeenNames(t, i, e, isObject, seen); }
      hide See, WriteAll;
      NotesAreMarksAt(t, i, e, isObject, base, seen, index, notes);
      NotesAreMarksIn(t, k, rest, isObject, base, seen', index + 1, n);
      WriteConcat(t, notes.pointers, MarksAt(i, e, isObject, base, seen.Keys, index),
                  MarksIn(k, rest, isObject, base, names, index + 1));
  }

  lemma SeenNames(t: Text, i: nat, e: Elem, isObject: bool, seen: map<Text, nat>)
    requires ValidElem(e, isObject) && i + |YieldElem(e)| <= |t|
    ensures See(t, i, e, isObject, seen).Keys == if isObject then seen.Keys + {Name(e)} else seen.Keys
  {
    hide LineAt, Name, YieldElem, ValidElem;
  }

  // ---- each node once ----

  lemma {:induction false} MarksUnder(i: nat, v: Tree, base: Path)
    requires ValidTree(v)
    ensures Under(Marks(i, v, base), base)
    decreases v
  {
    hide MarksIn;
    match v
    case List(isObject, es) => MarksUnderIn(i + 1, es, isObject, base, {}, 0);
    case _ =>
  }

  lemma {:induction false} MarksUnderAt(i: nat, e: Elem, isObject: bool, base: Path, names: set<Text>, index: nat)
    requires ValidElem(e, isObject)
    ensures Under(MarksAt(i, e, isObject, base, names, index), base + [ElemStep(e, isObject, index)])
    decreases e
  {
    hide Marks, Name, IsNew;
    ElemTree(e, isObject);
    MarksUnder(ValueIndex(i, e), e.tree, base + [ElemStep(e, isObject, index)]);
  }

  lemma {:induction false} MarksUnderIn(i: nat, es: Elems, isObject: bool, base: Path, names: set<Text>, index: nat)
    requires ValidElems(es, isObject)
    ensures Under(MarksIn(i, es, isObject, base, names, index), base)
    ensures Count(MarksIn(i, es, isObject, base, names, index), base) == 0
    decreases es
  {
    hide MarksAt, Name, YieldElem, ValidElem;
    if !es.Close? {
      var e, s := es.elem, ElemStep(es.elem, isObject, index);
      var first := MarksAt(i, e, isObject, base, names, index);
      MarksUnderAt(i, e, isObject, base, names, index);
      assert !(base + [s] <= base);
      CountElsewhere(first, base + [s], base);
      forall x | x in first ensures base <= x.path { StepOnPath(base, s, x.path); }
      if es.More? {
        var names' := if isObject then names + {Name(e)} else names;
        MarksUnderIn(i + |YieldElem(e)| + 1, es.rest, isObject, base, names', index + 1);
        CountConcat(first, MarksIn(i + |YieldElem(e)| + 1, es.rest, isObject, base, names', index + 1), base);
      }
    }
  }

  function One(b: bool): nat { if b then 1 else 0 }

  /** Each node of the value is written once, with its site, and nothing else is. */
  lemma {:induction false} NodesAreMarkedOnce(i: nat, v: Tree, base: Path, p: Path)
    requires ValidTree(v)
    ensures var marks := Marks(i, v, base);
            && Count(marks, base + p) == One(NodeAt(TreeValue(v), p).Some?)
            && (NodeAt(TreeValue(v), p).Some? ==>
                  SiteOf(i, v, p).Some? && Noted(base + p, SiteOf(i, v, p).value.at) in marks)
    decreases v
  {
    hide MarksIn, Added, TreeValue, Below;
    var inside: seq<Noted<nat>> := if v.List? then MarksIn(i + 1, v.elems, v.isObject, base, {}, 0) else [];
    CountConcat(inside, [Noted(base, i)], base + p);
    CountLast(base, i, p);
    if p == [] {
      assert base + p == base;
      if v.List? { MarksUnderIn(i + 1, v.elems, v.isObject, base, {}, 0); }
    } else {
      NodeBelow(TreeValue(v), p);
      match v
      case List(isObject, es) =>
        ListBelow(es, isObject, p[0]);
        AppendStep(base, p);
        var none: map<Text, Value> := map[];
        assert none.Keys == {};
        NodesAreMarkedOnceIn(i + 1, es, isObject, base, none, 0, p[0], p[1..]);
      case _ => NothingBelow(v, p[0]);
    }
  }

  lemma CountLast(base: Path, i: nat, p: Path)
    ensures Count([Noted(base, i)], base + p) == One(p == [])
  {
    assert [Noted(base, i)][1..] == [];
    assert p != [] ==> |base + p| > |base|;
  }

  lemma AppendStep(base: Path, p: Path)
    requires p != []
    ensures base + p == (base + [p[0]]) + p[1..]
  {
  }

  lemma {:induction false} NodesAreMarkedOnceIn(
    i: nat, es: Elems, isObject: bool, base: Path, obj: map<Text, Value>, index: nat, s: Step, p: Path)
    requires ValidElems(es, isObject)
    ensures var marks := MarksIn(i, es, isObject, base, obj.Keys, index);
            var node := NodeUnder(Added(es, isObject, obj, index, s), p);
            && Count(marks, (base + [s]) + p) == One(node.Some?)
            && (node.Some? ==>
                  && SiteIn(i, es, isObject, index, s, p).Some?
                  && Noted((base + [s]) + p, SiteIn(i, es, isObject, index, s, p).value.at) in marks)
    decreases es
  {
    hide MarksAt, Added, Name, NodeAt, YieldElem, ValidElem, ElemValue, SiteOf, IsNew, Joined;
    AddedFirst(es, isObject, obj, index, s);
    match es
    case Close(_) =>
    case Last(e) => NodesAreMarkedOnceAt(i, e, isObject, base, obj.Keys, index, s, p);
    case More(e, rest) =>
      var k, obj' := i + |YieldElem(e)| + 1, Joined(e, isObject, obj);
      var names := if isObject then obj.Keys + {Name(e)} else obj.Keys;
      JoinedNames(e, isObject, obj, s);
      assert obj'.Keys == names;
      NodesAreMarkedOnceAt(i, e, isObject, base, obj.Keys, index, s, p);
      NodesAreMarkedOnceIn(k, rest, isObject, base, obj', index + 1, s, p);
      TakenIsNotAdded(e, rest, isObject, obj, index);
      CountConcat(MarksAt(i, e, isObject, base, obj.Keys, index), MarksIn(k, rest, isObject, base, names, index + 1),
                  (base + [s]) + p);
  }

  /** The rest of a list adds nothing under the step of an element before it. */
  lemma TakenIsNotAdded(e: Elem, rest: Elems, isObject: bool, obj: map<Text, Value>, index: nat)
    requires ValidElem(e, isObject) && ValidElems(rest, isObject)
    ensures Added(rest, isObject, Joined(e, isObject, obj), index + 1, ElemStep(e, isObject, index)).None?
  {
    hide Name, ElemValue, Members, Items;
  }

  lemma {:induction false} NodesAreMarkedOnceAt(
    i: nat, e: Elem, isObject: bool, base: Path, names: set<Text>, index: nat, s: Step, p: Path)
    requires ValidElem(e, isObject)
    ensures var marks := MarksAt(i, e, isObject, base, names, index);
            var here := s == ElemStep(e, isObject, index) && IsNew(e, isObject, names);
            && Count(marks, (base + [s]) + p) == One(here && NodeAt(ElemValue(e, isObject), p).Some?)
            && (here && NodeAt(ElemValue(e, isObject), p).Some? ==>
                  SiteOf(ValueIndex(i, e), e.tree, p).Some?
                  && Noted((base + [s]) + p, SiteOf(ValueIndex(i, e), e.tree, p).value.at) in marks)
    decreases e
  {
    hide Marks, Name, NodeAt, IsNew, SiteOf, ValidTree, TreeValue;
    ElemTree(e, isObject);
    var own := ElemStep(e, isObject, index);
    if s == own {
      NodesAreMarkedOnce(ValueIndex(i, e), e.tree, base + [s], p);
    } else {
      MarksUnderAt(i, e, isObject, base, names, index);
      assert ((base + [s]) + p)[|base|] == s;
      StepOnPath(base, own, (base + [s]) + p);
      CountElsewhere(MarksAt(i, e, isObject, base, names, index), base + [own], (base + [s]) + p);
    }
  }

  // ---- the pointer map ----

  /** Everything written is a node of the value, with its site. */
  lemma MarksAreNodes(i: nat, v: Tree, base: Path, x: Noted<nat>) returns (p: Path)
    requires ValidTree(v) && x in Marks(i, v, base)
    ensures x.path == base + p && NodeAt(TreeValue(v), p).Some?
    ensures SiteOf(i, v, p).Some? && SiteOf(i, v, p).value.at == x.what
  {
    hide Marks, TreeValue, NodeAt, SiteOf;
    MarksUnder(i, v, base);
    p := x.path[|base|..];
    assert x.path == base + p;
    NodesAreMarkedOnce(i, v, base, p);
    CountPositive(Marks(i, v, base), x);
    OnlyOne(Marks(i, v, base), x, Noted(base + p, SiteOf(i, v, p).value.at));
  }

  /** A pointer is in the written map if it was there or is a mark's; its position is then that of such a mark. */
  lemma {:induction false} Written(t: Text, pointers: map<Text, Position>, marks: seq<Noted<nat>>, q: Text)
    requires Within(t, marks)
    ensures var all := WriteAll(t, pointers, marks);
            && (q in all <==> q in pointers || exists k :: 0 <= k < |marks| && q == PointerTo(marks[k].path))
            && (q in all ==>
                  || (q in pointers && all[q] == pointers[q])
                  || exists k ::
                       0 <= k < |marks| && q == PointerTo(marks[k].path) && all[q] == PositionAt(t, marks[k].what))
    decreases |marks|
  {
    hide PositionAt, PointerTo;
    if marks != [] {
      var n := |marks| - 1;
      Written(t, pointers, marks[..n], q);
      assert forall k | 0 <= k < n :: marks[..n][k] == marks[k];
    }
  }

  /** q is the pointer of a node of v's value, below base, and the text of that node begins at the position. */
  ghost predicate Placed(t: Text, i: nat, v: Tree, base: Path, q: Text, at: Position)
    requires ValidTree(v)
  {
    exists p: Path :: PlacedBy(t, i, v, base, q, at, p)
  }

  ghost predicate PlacedBy(t: Text, i: nat, v: Tree, base: Path, q: Text, at: Position, p: Path)
    requires ValidTree(v)
  {
    && q == PointerTo(base + p) && NodeAt(TreeValue(v), p).Some? && SiteOf(i, v, p).Some?
    && SiteOf(i, v, p).value.at <= |t| && at == PositionAt(t, SiteOf(i, v, p).value.at)
  }

  /** Every pointer found in the notes was there before, with the same position, or is placed at its node's site. */
  lemma NotesArePlaced(t: Text, i: nat, v: Tree, base: Path, notes: Notes, q: Text)
    requires ValidTree(v) && i + |YieldTree(v)| <= |t|
    requires var n := NoteTree(t, i, v, Some(PointerTo(base)), notes); q in n.pointers
    ensures var n := NoteTree(t, i, v, Some(PointerTo(base)), notes);
            (q in notes.pointers && notes.pointers[q] == n.pointers[q])
              || Placed(t, i, v, base, q, n.pointers[q])
  {
    hide YieldTree, PositionAt, NoteTree, Marks, TreeValue, NodeAt, SiteOf, PointerTo, WriteAll;
    NotesAreMarks(t, i, v, base, notes);
    var n, marks := NoteTree(t, i, v, Some(PointerTo(base)), notes).pointers, Marks(i, v, base);
    Written(t, notes.pointers, marks, q);
    if k :| 0 <= k < |marks| && q == PointerTo(marks[k].path) && n[q] == PositionAt(t, marks[k].what) {
      assert marks[k] in marks;
      var p := MarksAreNodes(i, v, base, marks[k]);
      assert PlacedBy(t, i, v, base, q, n[q], p);
    }
  }

  /** The pointer of every node of the value is among the notes. */
  lemma NodesAreNoted(t: Text, i: nat, v: Tree, base: Path, notes: Notes, p: Path)
    requires ValidTree(v) && i + |YieldTree(v)| <= |t| && NodeAt(TreeValue(v), p).Some?
    ensures PointerTo(base + p) in NoteTree(t, i, v, Some(PointerTo(base)), notes).pointers
  {
    hide YieldTree, PositionAt, NoteTree, Marks, TreeValue, NodeAt, SiteOf, PointerTo, WriteAll;
    NotesAreMarks(t, i, v, base, notes);
    NodesAreMarkedOnce(i, v, base, p);
    Written(t, notes.pointers, Marks(i, v, base), PointerTo(base + p));
  }

  /** In a document's own notes, each node's pointer has the position at which that very node is spelled. */
  lemma NodesArePlaced(t: Text, i: nat, v: Tree, p: Path)
    requires ValidTree(v) && i + |YieldTree(v)| <= |t| && NodeAt(TreeValue(v), p).Some?
    ensures var pointers := NoteTree(t, i, v, Some([]), Notes(map[], [])).pointers;
            && PointerTo(p) in pointers && SiteOf(i, v, p).Some? && SiteOf(i, v, p).value.at <= |t|
            && pointers[PointerTo(p)] == PositionAt(t, SiteOf(i, v, p).value.at)
  {
    hide YieldTree, PositionAt, NoteTree, TreeValue, NodeAt, SiteOf;
    NodesAreNoted(t, i, v, [], Notes(map[], []), p);
    assert [] + p == p;
    NotesArePlaced(t, i, v, [], Notes(map[], []), PointerTo(p));
    var at := NoteTree(t, i, v, Some([]), Notes(map[], [])).pointers[PointerTo(p)];
    var q :| PlacedBy(t, i, v, [], PointerTo(p), at, q);
    assert [] + q == q;
    PointersAreDistinct(TreeValue(v), p, q);
  }

  /** No pointer is written that is there already. */
  lemma NoneIsWrittenTwice(t: Text, i: nat, v: Tree, k: nat)
    requires ValidTree(v) && i + |YieldTree(v)| <= |t| && k < |Marks(i, v, [])|
    ensures Within(t, Marks(i, v, [])) && Within(t, Marks(i, v, [])[..k])
    ensures PointerTo(Marks(i, v, [])[k].path) !in WriteAll(t, map[], Marks(i, v, [])[..k])
  {
    hide YieldTree, PositionAt, NoteTree, Marks, TreeValue, NodeAt, SiteOf, PointerTo, WriteAll;
    var marks := Marks(i, v, []);
    NotesAreMarks(t, i, v, [], Notes(map[], []));
    var q := PointerTo(marks[k].path);
    Written(t, map[], marks[..k], q);
    if j :| 0 <= j < |marks[..k]| && q == PointerTo(marks[..k][j].path) {
      SamePathTwice(i, v, j, k);
    }
  }

  /** Marks at different places of the list have different pointers. */
  lemma SamePathTwice(i: nat, v: Tree, j: nat, k: nat)
    requires ValidTree(v) && j < k < |Marks(i, v, [])|
    ensures PointerTo(Marks(i, v, [])[j].path) != PointerTo(Marks(i, v, [])[k].path)
  {
    hide Marks, TreeValue, NodeAt, SiteOf, PointerTo;
    var marks := Marks(i, v, []);
    assert marks[j] in marks && marks[k] in marks;
    var p := MarksAreNodes(i, v, [], marks[j]);
    var q := MarksAreNodes(i, v, [], marks[k]);
    assert [] + p == p && [] + q == q;
    if PointerTo(p) == PointerTo(q) {
      PointersAreDistinct(TreeValue(v), p, q);
      CountTwice(marks, j, k);
      NodesAreMarkedOnce(i, v, [], p);
    }
  }
}
