/**
 * What a syntax tree means: its value, and the positions and duplicate-key records that reading it
 * leaves behind.
 */
module Denotation {
  import opened Texts
  import opened Grammar
  import opened Reader
  import opened Json
  import opened Pointers

  // ---- positions ----

  datatype Position = Position(line: nat, column: nat)

  /** A line ends with the unit at k: LF, or a CR that no LF follows. */
  predicate EndsLine(t: Text, k: nat)
    requires k < |t|
  {
    t[k] == LF || (t[k] == CR && !UnitAt(t, k + 1, LF))
  }

  /** 1 + the number of lines that end before i, not counting the byte order mark. */
  function LineAt(t: Text, i: nat): (line: nat)
    requires i <= |t|
    ensures line >= 1
  {
    if i <= Origin(t) then 1 else LineAt(t, i - 1) + (if EndsLine(t, i - 1) then 1 else 0)
  }

  /** Lines never decrease along the text. */
  lemma {:induction false} LinesGrow(t: Text, i: nat, j: nat)
    requires i <= j <= |t|
    ensures LineAt(t, i) <= LineAt(t, j)
    decreases j
  {
    if i < j {
      LinesGrow(t, i, j - 1);
    }
  }

  /** 1 + the number of units since the line that holds i began. */
  function ColumnAt(t: Text, i: nat): nat
    requires i <= |t|
  {
    if i <= Origin(t) || EndsLine(t, i - 1) then 1 else ColumnAt(t, i - 1) + 1
  }

  function PositionAt(t: Text, i: nat): Position
    requires i <= |t|
  {
    Position(LineAt(t, i), ColumnAt(t, i))
  }

  /** i does not stand between a CR and its LF. */
  predicate CanRest(t: Text, i: nat) {
    0 < i < |t| ==> !(t[i - 1] == CR && t[i] == LF)
  }

  // ---- values ----

  function WordValue(w: Word): Value {
    match w
    case True => Bool(true)
    case False => Bool(false)
    case Null => Value.Null
  }

  function TreeValue(v: Tree): Value
    requires ValidTree(v)
    decreases v
  {
    match v
    case Literal(w) => WordValue(w)
    case Numeral(n) => Num(YieldNumber(n))
    case Quoted(s) => Str(Meaning(s))
    case List(isObject, es) => if isObject then Obj(Members(es, map[])) else Arr(Items(es))
  }

  function Items(es: Elems): seq<Value>
    requires ValidElems(es, false)
    decreases es
  {
    match es
    case Close(_) => []
    case Last(e) => [ElemValue(e, false)]
    case More(e, rest) => [ElemValue(e, false)] + Items(rest)
  }

  function ElemValue(e: Elem, isObject: bool): Value
    requires ValidElem(e, isObject)
    decreases e, 0
  {
    TreeValue(e.tree)
  }

  function Name(e: Elem): Text
    requires ValidElem(e, true)
  {
    Meaning(e.prop.value.name)
  }

  /** A member joins an object unless its name is taken: the first occurrence stays. */
  function Join(obj: map<Text, Value>, e: Elem): map<Text, Value>
    requires ValidElem(e, true)
    decreases e, 1
  {
    if Name(e) in obj then obj else obj[Name(e) := ElemValue(e, true)]
  }

  function Members(es: Elems, obj: map<Text, Value>): map<Text, Value>
    requires ValidElems(es, true)
    decreases es
  {
    match es
    case Close(_) => obj
    case Last(e) => Join(obj, e)
    case More(e, rest) => Members(rest, Join(obj, e))
  }

  // ---- records ----

  /** A name that came again: where it would be, or None inside another repeated name, and both lines. */
  datatype Duplicate = Duplicate(key: Text, pointer: Option<Text>, firstLine: nat, line: nat)

  datatype Notes = Notes(pointers: map<Text, Position>, duplicates: seq<Duplicate>)

  function Child(ptr: Option<Text>, token: Text): Option<Text> {
    if ptr.None? then None else Some(ptr.value + [SLASH] + token)
  }

  /** The notes after reading v at i, its pointer being ptr (None inside a repeated name), given the notes before. */
  function NoteTree(t: Text, i: nat, v: Tree, ptr: Option<Text>, notes: Notes): Notes
    requires ValidTree(v) && i + |YieldTree(v)| <= |t|
    decreases v, 1
  {
    Mark(t, i, ptr, NoteInside(t, i, v, ptr, notes))
  }

  function Mark(t: Text, i: nat, ptr: Option<Text>, notes: Notes): Notes
    requires i <= |t|
  {
    if ptr.None? then notes else notes.(pointers := notes.pointers[ptr.value := PositionAt(t, i)])
  }

  /** The notes that reading the inside of v adds. */
  function NoteInside(t: Text, i: nat, v: Tree, ptr: Option<Text>, notes: Notes): Notes
    requires ValidTree(v) && i + |YieldTree(v)| <= |t|
    decreases v, 0
  {
    if v.List? then NoteElems(t, i + 1, v.elems, v.isObject, ptr, map[], 0, notes) else notes
  }

  /** The index at which an element's name or value stands. */
  function HeadIndex(i: nat, e: Elem): nat { i + |YieldGap(e.before)| }
  function ValueIndex(i: nat, e: Elem): nat { HeadIndex(i, e) + |YieldProperty(e.prop)| }

  /** The line of the first occurrence of each name seen so far. */
  function See(t: Text, i: nat, e: Elem, isObject: bool, seen: map<Text, nat>): map<Text, nat>
    requires ValidElem(e, isObject) && i + |YieldElem(e)| <= |t|
  {
    if !isObject || Name(e) in seen then seen else seen[Name(e) := LineAt(t, HeadIndex(i, e))]
  }

  function NoteElem(
    t: Text, i: nat, e: Elem, isObject: bool, ptr: Option<Text>, seen: map<Text, nat>, index: nat, notes: Notes): Notes
    requires ValidElem(e, isObject) && i + |YieldElem(e)| <= |t|
    decreases e
  {
    var k := ValueIndex(i, e);
    if !isObject then NoteTree(t, k, e.tree, Child(ptr, Decimal(index)), notes)
    else
      var child := Child(ptr, Escape(Name(e)));
      if Name(e) in seen then
        var n := NoteTree(t, k, e.tree, None, notes);
        n.(duplicates := n.duplicates + [Duplicate(Name(e), child, seen[Name(e)], LineAt(t, HeadIndex(i, e)))])
      else NoteTree(t, k, e.tree, child, notes)
  }

  function NoteElems(
    t: Text, i: nat, es: Elems, isObject: bool, ptr: Option<Text>, seen: map<Text, nat>, index: nat,
      notes: Notes): Notes
    requires ValidElems(es, isObject) && i + |YieldElems(es, isObject)| <= |t|
    decreases es
  {
    match es
    case Close(_) => notes
    case Last(e) => NoteElem(t, i, e, isObject, ptr, seen, index, notes)
    case More(e, rest) =>
      var n := NoteElem(t, i, e, isObject, ptr, seen, index, notes);
      NoteElems(t, i + |YieldElem(e)| + 1, rest, isObject, ptr, See(t, i, e, isObject, seen), index + 1, n)
  }
}
