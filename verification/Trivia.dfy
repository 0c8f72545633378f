/** Comments, blanks and trailing commas change nothing: a document means what its bare text means. */
module Trivia {
  import opened Texts
  import opened Grammar
  import Json
  import opened Denotation
  import opened Repeats

  /** The tree without any gap and without trailing commas: RFC 8259 JSON with no blank in it. */
  function StripTree(v: Tree): Tree {
    match v
    case List(isObject, es) => List(isObject, StripElems(es))
    case _ => v
  }

  function StripElems(es: Elems): Elems {
    match es
    case Close(_) => Close(NoGap)
    case Last(e) => Last(StripElem(e))
    case More(e, rest) => if rest.Close? then Last(StripElem(e)) else More(StripElem(e), StripElems(rest))
  }

  function StripElem(e: Elem): Elem {
    Elem(NoGap, if e.prop.None? then None else Some(Property(e.prop.value.name, NoGap, NoGap)), StripTree(e.tree),
      NoGap)
  }

  lemma {:induction false} StripKeepsTree(v: Tree)
    requires ValidTree(v)
    ensures ValidTree(StripTree(v)) && Depth(StripTree(v)) == Depth(v)
    ensures TreeValue(StripTree(v)) == TreeValue(v) && RepeatCount(StripTree(v)) == RepeatCount(v)
    decreases v
  {
    match v
    case List(isObject, es) =>
      StripKeepsElems(es, isObject, map[]);
    case _ =>
  }

  lemma StripKeepsElem(e: Elem, isObject: bool)
    requires ValidElem(e, isObject)
    ensures ValidElem(StripElem(e), isObject)
    ensures Depth(StripElem(e).tree) == Depth(e.tree)
    ensures ElemValue(StripElem(e), isObject) == ElemValue(e, isObject)
    ensures RepeatCountAt(StripElem(e), isObject) == RepeatCountAt(e, isObject)
    ensures isObject ==> Name(StripElem(e)) == Name(e)
    decreases e, 0
  {
    StripKeepsTree(e.tree);
  }

  lemma {:induction false} StripKeepsElems(es: Elems, isObject: bool, obj: map<Text, Json.Value>)
    requires ValidElems(es, isObject)
    ensures ValidElems(StripElems(es), isObject) && DepthElems(StripElems(es)) == DepthElems(es)
    ensures !isObject ==> Items(StripElems(es)) == Items(es)
    ensures isObject ==> Members(StripElems(es), obj) == Members(es, obj) && Names(StripElems(es)) == Names(es)
    ensures RepeatCountIn(StripElems(es), isObject) == RepeatCountIn(es, isObject)
    decreases es, 1
  {
    hide StripElem, ElemValue, RepeatCountAt, ValidElem, Depth, Name;
    match es
    case Close(_) =>
    case Last(e) => StripKeepsElem(e, isObject);
    case More(e, rest) =>
      StripKeepsElem(e, isObject);
      StripKeepsElems(rest, isObject, if isObject then Join(obj, e) else obj);
  }
}
