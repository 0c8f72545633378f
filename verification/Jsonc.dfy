/** The JSONC parser: a cursor over the text that counts lines and columns, and raises errors. */
module Jsonc {
  import opened Texts
  import opened Grammar
  import opened Reader
  import opened Language
  import opened Json
  import opened Pointers
  import opened Denotation

  /** A returned value or a raised syntax error. */
  datatype Outcome<+T> = Success(value: T) | Failure(kind: SyntaxError, position: Position) {
    predicate IsFailure() { Failure? }
    function PropagateFailure<U>(): Outcome<U>
      requires Failure?
    {
      Failure(kind, position)
    }
    function Extract(): T
      requires Success?
    {
      value
    }
  }

  /** What the reader read, without the tree. */
  function Tail<T>(r: Read<T>): Read<()> {
    match r
    case Ok(_, n) => Ok((), n)
    case Error(k, at) => Error(k, at)
  }

  /** The strings the reader reads. */
  function ReadText(t: Text, i: nat, start: nat): (r: Read<Text>)
    requires i <= |t| && start <= |t|
    ensures if r.Ok? then i < r.next <= |t| else r.at <= |t|
  {
    var (s, n) :- ReadChars(t, i, start);
    SoundChars(t, i, start);
    Ok(Meaning(s), n)
  }

  function Prefixed(out: Text, r: Read<Text>): Read<Text> {
    match r
    case Ok(s, n) => Ok(out + s, n)
    case Error(k, at) => Error(k, at)
  }

  lemma PrefixedTwice(a: Text, b: Text, r: Read<Text>)
    ensures Prefixed(a, Prefixed(b, r)) == Prefixed(a + b, r)
    ensures Prefixed([], r) == r
  {
    if r.Ok? {
      assert a + (b + r.out) == a + b + r.out;
      assert [] + r.out == r.out;
    }
  }

  /** One escape sequence, from just after its backslash. */
  function ReadEscape(t: Text, i: nat): (r: Read<CodeUnit>)
    requires i <= |t|
    ensures if r.Ok? then i < r.next <= |t| else r.at <= |t|
  {
    if i == |t| then Error(UnterminatedEscape, i)
    else if EscapeMeaning(t[i]).Some? then Ok(EscapeMeaning(t[i]).value, i + 1)
    else if t[i] != U_LOWER then Error(InvalidEscape, i)
    else if i + 5 <= |t| && IsHex4(t[i + 1..i + 5]) then Ok(HexValue(t[i + 1..i + 5]), i + 5)
    else Error(InvalidUnicodeEscape, i)
  }

  /** Where a string ends, or fails to. */
  lemma ReadTextEnds(t: Text, i: nat, start: nat, out: Text)
    requires i <= |t| && start <= |t|
    ensures i == |t| ==> Prefixed(out, ReadText(t, i, start)) == Error(UnterminatedString, start)
    ensures UnitAt(t, i, QUOTE) ==> Prefixed(out, ReadText(t, i, start)) == Ok(out, i + 1)
    ensures i < |t| && t[i] < SPACE ==> Prefixed(out, ReadText(t, i, start)) == Error(ControlCharacter, i)
    ensures UnitAt(t, i, BACKSLASH) && ReadEscape(t, i + 1).Error? ==>
              Prefixed(out, ReadText(t, i, start)) == Error(ReadEscape(t, i + 1).kind, ReadEscape(t, i + 1).at)
  {
    assert out + [] == out;
  }

  /** A string goes on with the unit an escape stands for, or with the unit itself. */
  lemma ReadTextStep(t: Text, i: nat, start: nat)
    requires i < |t| && start <= |t|
    ensures t[i] == BACKSLASH && ReadEscape(t, i + 1).Ok? ==>
              var (c, n) := ReadEscape(t, i + 1).Extract();
              ReadText(t, i, start) == Prefixed([c], ReadText(t, n, start))
    ensures IsPlain(t[i]) ==> ReadText(t, i, start) == Prefixed([t[i]], ReadText(t, i + 1, start))
  {
  }

  // ---- lists ----

  /** What a list loop has gathered: an object with the line of each name, or an array; and the notes. */
  datatype Progress =
    Progress(obj: map<Text, Value>, seen: map<Text, nat>, items: seq<Value>, index: nat, notes: Notes)

  function Started(notes: Notes): Progress {
    Progress(map[], map[], [], 0, notes)
  }

  function AfterElem(t: Text, i: nat, e: Elem, isObject: bool, ptr: Option<Text>, p: Progress): Progress
    requires ValidElem(e, isObject) && i + |YieldElem(e)| <= |t|
  {
    Progress(
      if isObject then Join(p.obj, e) else p.obj,
      See(t, i, e, isObject, p.seen),
      if isObject then p.items else p.items + [ElemValue(e, false)],
      p.index + 1,
      NoteElem(t, i, e, isObject, ptr, p.seen, p.index, p.notes))
  }

  /** The progress from p when the list ends with es, read at i. */
  function AfterElems(t: Text, i: nat, es: Elems, isObject: bool, ptr: Option<Text>, p: Progress): Progress
    requires ValidElems(es, isObject) && i + |YieldElems(es, isObject)| <= |t|
    decreases es
  {
    match es
    case Close(_) => p
    case Last(e) => AfterElem(t, i, e, isObject, ptr, p)
    case More(e, rest) =>
      AfterElems(t, i + |YieldElem(e)| + 1, rest, isObject, ptr, AfterElem(t, i, e, isObject, ptr, p))
  }

  /** The fold computes the value and the notes of the list. */
  lemma {:induction false} AfterElemsMeans(t: Text, i: nat, es: Elems, isObject: bool, ptr: Option<Text>, p: Progress)
    requires ValidElems(es, isObject) && i + |YieldElems(es, isObject)| <= |t|
    ensures var q := AfterElems(t, i, es, isObject, ptr, p);
            && q.notes == NoteElems(t, i, es, isObject, ptr, p.seen, p.index, p.notes)
            && (isObject ==> q.obj == Members(es, p.obj))
            && (!isObject ==> q.items == p.items + Items(es))
    decreases es
  {
    hide YieldElem, ElemValue, NoteElem, Join, See, ValidElem;
    match es
    case Close(_) =>
    case Last(e) =>
    case More(e, rest) =>
      AfterElemsMeans(t, i + |YieldElem(e)| + 1, rest, isObject, ptr, AfterElem(t, i, e, isObject, ptr, p));
  }

  /** What reading the rest of a list at i, having gathered p, comes to. */
  function ReadList(t: Text, i: nat, isObject: bool, depth: nat, maxDepth: nat, ptr: Option<Text>,
    p: Progress): (r: Read<Progress>)
    requires i <= |t| && 0 < depth <= maxDepth
    ensures if r.Ok? then i < r.next <= |t| else r.at <= |t|
  {
    var (es, n) :- ReadElems(t, i, isObject, depth, maxDepth);
    SoundElems(t, i, isObject, depth, maxDepth);
    Ok(AfterElems(t, i, es, isObject, ptr, p), n)
  }

  /** One more element v at k, its name, if any, standing at j. */
  function Gather(
    t: Text, j: nat, prop: Option<Property>, k: nat, v: Tree, isObject: bool, ptr: Option<Text>, p: Progress): Progress
    requires j <= |t| && k + |YieldTree(v)| <= |t| && ValidTree(v) && prop.Some? == isObject
      && (isObject ==> ValidChars(prop.value.name))
  {
    if !isObject then
      var notes := NoteTree(t, k, v, Child(ptr, Decimal(p.index)), p.notes);
      p.(items := p.items + [TreeValue(v)], index := p.index + 1, notes := notes)
    else
      var key := Meaning(prop.value.name);
      var child := Child(ptr, Escape(key));
      if key in p.seen then
        var n := NoteTree(t, k, v, None, p.notes);
        var again := Duplicate(key, child, p.seen[key], LineAt(t, j));
        p.(index := p.index + 1, notes := n.(duplicates := n.duplicates + [again]))
      else
        var notes := NoteTree(t, k, v, child, p.notes);
        p.(obj := p.obj[key := TreeValue(v)], seen := p.seen[key := LineAt(t, j)], index := p.index + 1, notes := notes)
  }

  /** After an element and the gap behind it. */
  function ListTail(
    t: Text, after: Read<Gap>, isObject: bool, depth: nat, maxDepth: nat, ptr: Option<Text>,
      q: Progress): (r: Read<Progress>)
    requires (if after.Ok? then after.next <= |t| else after.at <= |t|) && 0 < depth <= maxDepth
    ensures if r.Ok? then r.next <= |t| else r.at <= |t|
    ensures r.Ok? ==> after.Ok? && after.next < r.next
  {
    match after
    case Error(k, at) => Error(k, at)
    case Ok(_, n) =>
      if UnitAt(t, n, COMMA) then ReadList(t, n + 1, isObject, depth, maxDepth, ptr, q)
      else if UnitAt(t, n, Closing(isObject)) then Ok(q, n + 1)
      else Error(if isObject then ExpectedCommaOrBrace else ExpectedCommaOrBracket, n)
  }

  /** The same as ReadList, one token at a time: the step of the parser's loops. */
  function ListStep(t: Text, i: nat, isObject: bool, depth: nat, maxDepth: nat, ptr: Option<Text>,
    p: Progress): (r: Read<Progress>)
    requires i <= |t| && 0 < depth <= maxDepth
    ensures if r.Ok? then i < r.next <= |t| else r.at <= |t|
  {
    var (before, j) :- ReadGap(t, i);
    if UnitAt(t, j, Closing(isObject)) then Ok(p, j + 1)
    else
      var (prop, k) :- ReadHead(t, j, isObject);
      var (v, m) :- ReadTree(t, k, depth, maxDepth);
      SoundHead(t, j, isObject);
      SoundTree(t, k, depth, maxDepth);
      ListTail(t, ReadGap(t, m), isObject, depth, maxDepth, ptr, Gather(t, j, prop, k, v, isObject, ptr, p))
  }

  lemma GatherIsAfterElem(t: Text, i: nat, e: Elem, isObject: bool, ptr: Option<Text>, p: Progress)
    requires ValidElem(e, isObject) && i + |YieldElem(e)| <= |t| && p.obj.Keys == p.seen.Keys
    ensures var j := HeadIndex(i, e);
            var k := ValueIndex(i, e);
            && k + |YieldTree(e.tree)| <= |t|
            && AfterElem(t, i, e, isObject, ptr, p) == Gather(t, j, e.prop, k, e.tree, isObject, ptr, p)
  {
    hide YieldGap, YieldTree, YieldProperty, YieldElem, ValidTree, ValidGap, NoteTree, TreeValue, LineAt;
    SpliceElem(t, i, e);
    if isObject {
      assert Name(e) in p.seen <==> Name(e) in p.obj;
      assert ElemValue(e, true) == TreeValue(e.tree);
    } else {
      assert ElemValue(e, false) == TreeValue(e.tree);
    }
  }

  lemma ReadElemParts(t: Text, i: nat, before: Gap, j: nat, isObject: bool, depth: nat, maxDepth: nat,
    ptr: Option<Text>, p: Progress)
    requires i <= j <= |t| && 0 < depth <= maxDepth && p.obj.Keys == p.seen.Keys && ReadGap(t, i) == Ok(before, j)
    requires ReadElem(t, j, before, isObject, depth, maxDepth).Ok?
    ensures var (e, n) := ReadElem(t, j, before, isObject, depth, maxDepth).Extract();
            var k := ReadHead(t, j, isObject).next;
            && ReadHead(t, j, isObject) == Ok(e.prop, k) && ReadTree(t, k, depth, maxDepth).Ok?
            && ReadTree(t, k, depth, maxDepth).out == e.tree && k + |YieldTree(e.tree)| <= |t|
            && ReadGap(t, ReadTree(t, k, depth, maxDepth).next) == Ok(e.after, n)
            && ValidElem(e, isObject) && n == i + |YieldElem(e)|
            && AfterElem(t, i, e, isObject, ptr, p) == Gather(t, j, e.prop, k, e.tree, isObject, ptr, p)
  {
    hide ReadGap, ReadHead, ReadTree, YieldElem, YieldTree, YieldProperty, AfterElem, ValidTree, ValidProperty,
         YieldGap, Occurs, Depth, Gather;
    var (e, n) := ReadElem(t, j, before, isObject, depth, maxDepth).Extract();
    SoundGap(t, i);
    SoundHead(t, j, isObject);
    SoundElem(t, i, before, j, isObject, depth, maxDepth);
    GatherIsAfterElem(t, i, e, isObject, ptr, p);
  }

  lemma ReadListElem(
    t: Text, i: nat, before: Gap, j: nat, isObject: bool, depth: nat, maxDepth: nat, ptr: Option<Text>, p: Progress)
    requires i <= j <= |t| && 0 < depth <= maxDepth && ReadGap(t, i) == Ok(before, j)
      && !UnitAt(t, j, Closing(isObject))
    requires ReadElem(t, j, before, isObject, depth, maxDepth).Ok?
    ensures var (e, n) := ReadElem(t, j, before, isObject, depth, maxDepth).Extract();
            && ValidElem(e, isObject) && n == i + |YieldElem(e)|
            && ReadList(t, i, isObject, depth, maxDepth, ptr, p)
               == if t[n] == COMMA then ReadList(t, n + 1, isObject, depth, maxDepth, ptr,
                 AfterElem(t, i, e, isObject, ptr, p))
                  else Ok(AfterElem(t, i, e, isObject, ptr, p), n + 1)
  {
    hide ReadGap, ReadElem, YieldElem, AfterElem, ValidElem, Occurs, Depth;
    SoundElem(t, i, before, j, isObject, depth, maxDepth);
    SoundElems(t, i, isObject, depth, maxDepth);
  }

  lemma ReadListStep(t: Text, i: nat, isObject: bool, depth: nat, maxDepth: nat, ptr: Option<Text>, p: Progress)
    requires i <= |t| && 0 < depth <= maxDepth && p.obj.Keys == p.seen.Keys
    ensures ReadList(t, i, isObject, depth, maxDepth, ptr, p) == ListStep(t, i, isObject, depth, maxDepth, ptr, p)
  {
    hide ReadGap, ReadHead, ReadTree, ReadElem, YieldElem, YieldTree, AfterElem, ValidElem, ValidTree, Gather,
         ReadElems;
    if ReadGap(t, i).Ok? {
      var (before, j) := ReadGap(t, i).Extract();
      if UnitAt(t, j, Closing(isObject)) || ReadElem(t, j, before, isObject, depth, maxDepth).Error? {
        ReadListEnds(t, i, before, j, isObject, depth, maxDepth, ptr, p);
      } else {
        ReadListElem(t, i, before, j, isObject, depth, maxDepth, ptr, p);
        ReadElemParts(t, i, before, j, isObject, depth, maxDepth, ptr, p);
      }
    } else {
      GapFails(t, i, isObject, depth, maxDepth, ptr, p);
    }
  }

  lemma ReadListEnds(
    t: Text, i: nat, before: Gap, j: nat, isObject: bool, depth: nat, maxDepth: nat, ptr: Option<Text>, p: Progress)
    requires i <= j <= |t| && 0 < depth <= maxDepth && p.obj.Keys == p.seen.Keys && ReadGap(t, i) == Ok(before, j)
    requires UnitAt(t, j, Closing(isObject)) || ReadElem(t, j, before, isObject, depth, maxDepth).Error?
    ensures ReadList(t, i, isObject, depth, maxDepth, ptr, p) == ListStep(t, i, isObject, depth, maxDepth, ptr, p)
  {
    hide ReadGap, ReadHead, ReadTree, ReadElem, YieldElem, YieldTree, AfterElem, ValidElem, ValidTree, Gather;
    if !UnitAt(t, j, Closing(isObject)) {
      ReadElemFails(t, j, before, isObject, depth, maxDepth);
    }
  }

  /** An element fails with the first of its parts that does. */
  lemma ReadElemFails(t: Text, j: nat, before: Gap, isObject: bool, depth: nat, maxDepth: nat)
    requires j <= |t| && ReadElem(t, j, before, isObject, depth, maxDepth).Error?
    ensures
      var r := ReadElem(t, j, before, isObject, depth, maxDepth);
      var head := ReadHead(t, j, isObject);
      if head.Error? then r == Error(head.kind, head.at)
      else
        var v := ReadTree(t, head.next, depth, maxDepth);
        if v.Error? then r == Error(v.kind, v.at)
        else
          var after := ReadGap(t, v.next);
          if after.Error? then r == Error(after.kind, after.at)
          else
            && !UnitAt(t, after.next, COMMA) && !UnitAt(t, after.next, Closing(isObject))
            && r == Error(if isObject then ExpectedCommaOrBrace else ExpectedCommaOrBracket, after.next)
  {
    hide ReadGap, ReadHead, ReadTree;
  }

  lemma GapFails(t: Text, i: nat, isObject: bool, depth: nat, maxDepth: nat, ptr: Option<Text>, p: Progress)
    requires i <= |t| && 0 < depth <= maxDepth
    ensures ReadGap(t, i).Error? ==>
              ReadList(t, i, isObject, depth, maxDepth, ptr, p) == Error(ReadGap(t, i).kind, ReadGap(t, i).at)
  {
  }

  /** A list read from its bracket on is the tree read there, with its value and its notes. */
  lemma ListMeans(t: Text, i: nat, depth: nat, maxDepth: nat, ptr: Option<Text>, notes: Notes)
    requires (UnitAt(t, i, LBRACE) || UnitAt(t, i, LBRACKET)) && depth < maxDepth
    ensures var isObject := t[i] == LBRACE;
            var spec, r := ReadTree(t, i, depth, maxDepth), ReadList(t, i + 1, isObject, depth + 1, maxDepth, ptr,
              Started(notes));
            match r
            case Error(k, at) => spec == Error(k, at)
            case Ok(q, n) =>
              && spec.Ok? && spec.next == n && ValidTree(spec.out) && n == i + |YieldTree(spec.out)|
              && TreeValue(spec.out) == (if isObject then Obj(q.obj) else Arr(q.items))
              && NoteInside(t, i, spec.out, ptr, notes) == q.notes
  {
    hide ReadElems, YieldElems, Members, Items, NoteElems, AfterElems, Depth, DepthElems, PositionAt, Occurs,
         ValidElems;
    var isObject := t[i] == LBRACE;
    SoundTree(t, i, depth, maxDepth);
    SoundElems(t, i + 1, isObject, depth + 1, maxDepth);
    var r := ReadElems(t, i + 1, isObject, depth + 1, maxDepth);
    if r.Ok? {
      AfterElemsMeans(t, i + 1, r.out, isObject, ptr, Started(notes));
    }
  }

  /** The progress of an array loop, and of an object loop. */
  function InArray(items: seq<Value>, notes: Notes): Progress {
    Progress(map[], map[], items, |items|, notes)
  }

  function InObject(obj: map<Text, Value>, seen: map<Text, nat>, index: nat, notes: Notes): Progress {
    Progress(obj, seen, [], index, notes)
  }

  lemma ArrayStep(t: Text, i: nat, depth: nat, maxDepth: nat, ptr: Option<Text>, items: seq<Value>, notes: Notes)
    requires i <= |t| && 0 < depth <= maxDepth && ReadGap(t, i).Ok?
    ensures var r, j := ReadList(t, i, false, depth, maxDepth, ptr, InArray(items, notes)), ReadGap(t, i).next;
            && (UnitAt(t, j, RBRACKET) ==> r == Ok(InArray(items, notes), j + 1))
            && (UnitAt(t, j, COMMA) ==> r == Error(MissingElement, j))
    ensures var r, j := ReadList(t, i, false, depth, maxDepth, ptr, InArray(items, notes)), ReadGap(t, i).next;
            !UnitAt(t, j, RBRACKET) && !UnitAt(t, j, COMMA) ==>
              var v := ReadTree(t, j, depth, maxDepth);
              && (v.Error? ==> r == Error(v.kind, v.at))
              && (v.Ok? ==>
                    && ValidTree(v.out) && j + |YieldTree(v.out)| == v.next
                    && r == ListTail(
                              t, ReadGap(t, v.next), false, depth, maxDepth, ptr,
                              InArray(items + [TreeValue(v.out)], NoteTree(t, j, v.out, Child(ptr, Decimal(|items|)),
                                notes))))
  {
    hide ReadGap, ReadTree, ReadList, ListTail, TreeValue, NoteTree, YieldTree, ValidTree, Occurs, Depth;
    ReadListStep(t, i, false, depth, maxDepth, ptr, InArray(items, notes));
    SoundTree(t, ReadGap(t, i).next, depth, maxDepth);
  }

  /** One member of an object, from its name to its value. */
  function ReadMember(t: Text, j: nat, depth: nat, maxDepth: nat, ptr: Option<Text>, p: Progress): (r: Read<Progress>)
    requires j <= |t|
    ensures if r.Ok? then j < r.next <= |t| else r.at <= |t|
  {
    var (prop, k) :- ReadProperty(t, j);
    var (v, m) :- ReadTree(t, k, depth, maxDepth);
    SoundProperty(t, j);
    SoundTree(t, k, depth, maxDepth);
    Ok(Gather(t, j, Some(prop), k, v, true, ptr, p), m)
  }

  lemma ObjectStep(t: Text, i: nat, depth: nat, maxDepth: nat, ptr: Option<Text>, p: Progress)
    requires i <= |t| && 0 < depth <= maxDepth && ReadGap(t, i).Ok? && p.obj.Keys == p.seen.Keys
    ensures var r, j := ReadList(t, i, true, depth, maxDepth, ptr, p), ReadGap(t, i).next;
            && (UnitAt(t, j, RBRACE) ==> r == Ok(p, j + 1))
            && (!UnitAt(t, j, RBRACE) ==>
                  var q := ReadMember(t, j, depth, maxDepth, ptr, p);
                  && (q.Error? ==> r == Error(q.kind, q.at))
                  && (q.Ok? ==> r == ListTail(t, ReadGap(t, q.next), true, depth, maxDepth, ptr, q.out)))
  {
    hide ReadGap, ReadTree, ReadProperty, ReadList, ListTail, TreeValue, NoteTree, YieldTree, YieldProperty,
         ValidTree, ValidProperty, Occurs, Depth, Gather;
    ReadListStep(t, i, true, depth, maxDepth, ptr, p);
  }

  lemma WordsAsSlices(t: Text, i: nat)
    ensures Occurs(t, i, TRUE_WORD) <==> i + 4 <= |t| && t[i..i + 4] == TRUE_WORD
    ensures Occurs(t, i, FALSE_WORD) <==> i + 5 <= |t| && t[i..i + 5] == FALSE_WORD
    ensures Occurs(t, i, NULL_WORD) <==> i + 4 <= |t| && t[i..i + 4] == NULL_WORD
  {
    if i + 4 <= |t| {
      OccursSlice(t, i, TRUE_WORD);
      OccursSlice(t, i, NULL_WORD);
    }
    if i + 5 <= |t| {
      OccursSlice(t, i, FALSE_WORD);
    }
  }

  lemma NoNewlineInWord(t: Text, i: nat, w: Word)
    requires Occurs(t, i, YieldWord(w))
    ensures forall k | i <= k < i + |YieldWord(w)| :: t[k] != CR
  {
    forall k | i <= k < i + |YieldWord(w)| ensures t[k] != CR {
      OccursAt(t, i, YieldWord(w), k - i);
    }
  }

  // ---- documents ----

  /** Where the root value stands. */
  function RootIndex(t: Text, d: Document): nat {
    Origin(t) + |YieldGap(d.before)|
  }

  function DocumentNotes(t: Text, d: Document): Notes
    requires ValidTree(d.root) && RootIndex(t, d) + |YieldTree(d.root)| <= |t|
  {
    NoteTree(t, RootIndex(t, d), d.root, Some([]), Notes(map[], []))
  }

  /** Why a scan cannot be called clean. */
  datatype Problem = TooLarge | Syntax(kind: SyntaxError, position: Position) | Repeated(duplicate: Duplicate)

  function RepeatProblems(duplicates: seq<Duplicate>): (problems: seq<Problem>)
    ensures |problems| == |duplicates|
  {
    seq(|duplicates|, k requires 0 <= k < |duplicates| => Repeated(duplicates[k]))
  }

  datatype ParseResult =
    ParseResult(value: Option<Value>, pointers: map<Text, Position>, incomplete: seq<Problem>)
  {
    /** Equal, except that the positions noted before a syntax error are left open. */
    ghost predicate Is(spec: ParseResult) {
      && value == spec.value && incomplete == spec.incomplete
      && ((forall k | 0 <= k < |incomplete| :: !incomplete[k].Syntax?) ==> pointers == spec.pointers)
    }
  }

  /** The result of parsing, as the reader, the denotation and the notes define it. */
  function ParseText(text: Text, maxDepth: nat): ParseResult {
    match ReadDocument(text, maxDepth)
    case Error(kind, at) => ParseResult(None, map[], [Syntax(kind, PositionAt(text, at))])
    case Ok(d, _) =>
      SoundDocument(text, maxDepth);
      SpliceDocument(text, Origin(text), d);
      var notes := DocumentNotes(text, d);
      if notes.duplicates != [] then ParseResult(None, notes.pointers, RepeatProblems(notes.duplicates))
      else ParseResult(Some(TreeValue(d.root)), notes.pointers, [])
  }

  /** The number of bytes of the UTF-8 encoding; an unpaired surrogate counts as the replacement character. */
  function Utf8Length(t: Text): nat {
    if t == [] then 0
    else if t[0] < 0x80 then 1 + Utf8Length(t[1..])
    else if t[0] < 0x800 then 2 + Utf8Length(t[1..])
    else if 0xd800 <= t[0] < 0xdc00 && |t| > 1 && 0xdc00 <= t[1] < 0xe000 then 4 + Utf8Length(t[2..])
    else 3 + Utf8Length(t[1..])
  }

  function Parse(text: Text, maxBytes: nat, maxDepth: nat): ParseResult {
    if Utf8Length(text) > maxBytes then ParseResult(None, map[], [TooLarge]) else ParseText(text, maxDepth)
  }

  class Parser {
    const text: Text
    const maxDepth: nat
    var pos: nat
    var line: nat
    var column: nat
    var pointers: map<Text, Position>
    var duplicates: seq<Duplicate>

    /** The cursor's line and column are those of its place, and it never rests inside a CRLF. */
    ghost predicate Valid()
      reads this
    {
      && Origin(text) <= pos <= |text| && CanRest(text, pos)
      && line == LineAt(text, pos) && column == ColumnAt(text, pos)
    }

    ghost function Noted(): Notes
      reads this
    {
      Notes(pointers, duplicates)
    }

    /** The method behaves as the reader says: it stops where the reader stops, or raises its error there. */
    ghost predicate Follows<S, T>(r: Outcome<S>, spec: Read<T>)
      requires spec.Error? ==> spec.at <= |text|
      reads this
    {
      && Valid()
      && match spec
         case Ok(_, n) => r.Success? && pos == n
         case Error(k, at) => r == Failure(k, PositionAt(text, at))
    }

    constructor (text: Text, maxDepth: nat)
      ensures Valid() && pos == Origin(text) && Noted() == Notes(map[], [])
      ensures this.text == text && this.maxDepth == maxDepth
    {
      this.text, this.maxDepth := text, maxDepth;
      pos, line, column := if |text| > 0 && text[0] == BOM then 1 else 0, 1, 1;
      pointers, duplicates := map[], [];
    }

    predicate AtEnd()
      reads this
    {
      pos >= |text|
    }

    /** The current unit; -1 stands for NaN, which compares false with every unit. */
    function Peek(): int
      reads this
    {
      PeekAt(0)
    }

    function PeekAt(offset: nat): int
      reads this
    {
      if pos + offset < |text| then text[pos + offset] else -1
    }

    function Here(): Position
      reads this
    {
      Position(line, column)
    }

    method Advance()
      requires Valid() && pos < |text|
      modifies `pos, `line, `column
      ensures Valid()
      ensures pos == if text[old(pos)] == CR && UnitAt(text, old(pos) + 1, LF) then old(pos) + 2 else old(pos) + 1
    {
      var c := text[pos];
      pos := pos + 1;
      if c == CR {
        if Peek() == LF {
          pos := pos + 1;
        }
        line := line + 1;
        column := 1;
      } else if c == LF {
        line := line + 1;
        column := 1;
      } else {
        column := column + 1;
      }
    }

    method AdvanceBy(count: nat)
      requires Valid() && pos + count <= |text|
      requires forall k | pos <= k < pos + count :: text[k] != CR
      modifies `pos, `line, `column
      ensures Valid() && pos == old(pos) + count
    {
      for i := 0 to count
        invariant Valid() && pos == old(pos) + i
      {
        Advance();
      }
    }

    method SkipTrivia() returns (r: Outcome<()>)
      requires Valid()
      modifies `pos, `line, `column
      ensures Follows(r, ReadGap(text, old(pos)))
    {
      hide LineAt, ColumnAt, CanRest, LineEnd, CommentEnd;
      while true
        invariant Valid() && Tail(ReadGap(text, pos)) == Tail(ReadGap(text, old(pos)))
        decreases |text| - pos
      {
        var c := Peek();
        if c == SPACE || c == TAB || c == LF || c == CR {
          Advance();
        } else if c == SLASH && PeekAt(1) == SLASH {
          SkipLine();
        } else if c == SLASH && PeekAt(1) == STAR {
          var _ :- SkipBlock();
        } else {
          return Success(());
        }
      }
    }

    method SkipLine()
      requires Valid() && UnitAt(text, pos, SLASH) && UnitAt(text, pos + 1, SLASH)
      modifies `pos, `line, `column
      ensures Valid() && pos == LineEnd(text, old(pos) + 2)
    {
      hide LineAt, ColumnAt, CanRest;
      Advance();
      Advance();
      while !AtEnd() && Peek() != LF && Peek() != CR
        invariant Valid() && LineEnd(text, pos) == LineEnd(text, old(pos) + 2)
        decreases |text| - pos
      {
        Advance();
      }
    }

    method SkipBlock() returns (r: Outcome<()>)
      requires Valid() && UnitAt(text, pos, SLASH) && UnitAt(text, pos + 1, STAR)
      modifies `pos, `line, `column
      ensures var j := CommentEnd(text, old(pos) + 2);
              Follows(r, if j.Some? then Ok((), j.value + 2) else Error(UnterminatedComment, old(pos)))
    {
      hide LineAt, ColumnAt, CanRest;
      var start := Here();
      Advance();
      Advance();
      while true
        invariant Valid() && CommentEnd(text, pos) == CommentEnd(text, old(pos) + 2)
        decreases |text| - pos
      {
        if AtEnd() {
          return Failure(UnterminatedComment, start);
        }
        if Peek() == STAR && PeekAt(1) == SLASH {
          Advance();
          Advance();
          return Success(());
        }
        Advance();
      }
    }

    method ParseEscape() returns (r: Outcome<CodeUnit>)
      requires Valid()
      modifies `pos, `line, `column
      ensures Follows(r, ReadEscape(text, old(pos)))
      ensures r.Success? ==> r.value == ReadEscape(text, old(pos)).out
    {
      if AtEnd() {
        return Failure(UnterminatedEscape, Here());
      }
      var c := text[pos];
      if c == QUOTE || c == BACKSLASH || c == SLASH {
        Advance();
        return Success(c);
      } else if c == 0x62 {
        Advance();
        return Success(0x08);
      } else if c == 0x66 {
        Advance();
        return Success(0x0c);
      } else if c == 0x6e {
        Advance();
        return Success(0x0a);
      } else if c == 0x72 {
        Advance();
        return Success(0x0d);
      } else if c == 0x74 {
        Advance();
        return Success(0x09);
      } else if c == U_LOWER {
        if !(pos + 5 <= |text| && IsHex4(text[pos + 1..pos + 5])) {
          return Failure(InvalidUnicodeEscape, Here());
        }
        var hex := text[pos + 1..pos + 5];
        assert forall k | 0 <= k < 4 :: text[pos + 1 + k] == hex[k];
        AdvanceBy(5);
        return Success(HexValue(hex));
      } else {
        return Failure(InvalidEscape, Here());
      }
    }

    method ParseString() returns (r: Outcome<Text>)
      requires Valid() && UnitAt(text, pos, QUOTE)
      modifies `pos, `line, `column
      ensures Follows(r, ReadText(text, old(pos) + 1, old(pos)))
      ensures r.Success? ==> r.value == ReadText(text, old(pos) + 1, old(pos)).out
    {
      hide LineAt, ColumnAt, CanRest, ReadChars, ReadEscape, Prefixed;
      var start := Here();
      Advance();
      var out: Text := [];
      var runStart := pos;
      ghost var run: Text := [];
      PrefixedTwice([], [], ReadText(text, pos, old(pos)));
      while true
        invariant Valid() && old(pos) < runStart <= pos && run == out + text[runStart..pos]
        invariant Prefixed(run, ReadText(text, pos, old(pos))) == ReadText(text, old(pos) + 1, old(pos))
        decreases |text| - pos
      {
        ReadTextEnds(text, pos, old(pos), run);
        if AtEnd() {
          return Failure(UnterminatedString, start);
        }
        var c := Peek();
        ReadTextStep(text, pos, old(pos));
        if c == QUOTE {
          out := out + text[runStart..pos];
          Advance();
          return Success(out);
        }
        if c == BACKSLASH {
          out := out + text[runStart..pos];
          Advance();
          var escaped :- ParseEscape();
          out := out + [escaped];
          runStart := pos;
          PrefixedTwice(run, [escaped], ReadText(text, pos, old(pos)));
          run := run + [escaped];
          continue;
        }
        if c < SPACE {
          return Failure(ControlCharacter, Here());
        }
        PrefixedTwice(run, [text[pos]], ReadText(text, pos + 1, old(pos)));
        run := run + [text[pos]];
        Advance();
      }
    }

    predicate IsDigitHere()
      reads this
    {
      ZERO <= Peek() <= NINE
    }

    method SkipDigits()
      requires Valid()
      modifies `pos, `line, `column
      ensures Valid() && pos == DigitsEnd(text, old(pos))
    {
      while IsDigitHere()
        invariant Valid() && DigitsEnd(text, pos) == DigitsEnd(text, old(pos))
        decreases |text| - pos
      {
        Advance();
      }
    }

    method ParseWhole() returns (r: Outcome<()>)
      requires Valid()
      modifies `pos, `line, `column
      ensures Follows(r, ReadWhole(text, old(pos)))
    {
      if Peek() == ZERO {
        Advance();
      } else if Peek() > ZERO && Peek() <= NINE {
        SkipDigits();
      } else {
        return Failure(ExpectedDigit, Here());
      }
      return Success(());
    }

    method ParseFraction() returns (r: Outcome<()>)
      requires Valid()
      modifies `pos, `line, `column
      ensures Follows(r, ReadFrac(text, old(pos)))
    {
      if Peek() == DOT {
        Advance();
        if !IsDigitHere() {
          return Failure(ExpectedFractionDigit, Here());
        }
        SkipDigits();
      }
      return Success(());
    }

    method ParseExponent() returns (r: Outcome<()>)
      requires Valid()
      modifies `pos, `line, `column
      ensures Follows(r, ReadExp(text, old(pos)))
    {
      hide LineAt, ColumnAt, CanRest, DigitsEnd;
      if Peek() == E_LOWER || Peek() == E_UPPER {
        Advance();
        if Peek() == PLUS || Peek() == MINUS {
          Advance();
        }
        if !IsDigitHere() {
          return Failure(ExpectedExponentDigit, Here());
        }
        SkipDigits();
      }
      return Success(());
    }

    method ParseNumber() returns (r: Outcome<Text>)
      requires Valid()
      modifies `pos, `line, `column
      ensures Follows(r, ReadNumber(text, old(pos)))
      ensures r.Success? ==> r.value == YieldNumber(ReadNumber(text, old(pos)).out)
    {
      hide LineAt, ColumnAt, CanRest, ReadWhole, ReadFrac, ReadExp, YieldNumber, Occurs;
      var start, begin := Here(), pos;
      if Peek() == MINUS {
        Advance();
      }
      var _ :- ParseWhole();
      var _ :- ParseFraction();
      var _ :- ParseExponent();
      if IsDigitHere() || Peek() == DOT {
        return Failure(LeadingZeros, start);
      }
      SoundNumber(text, begin);
      OccursSlice(text, begin, YieldNumber(ReadNumber(text, begin).out));
      return Success(text[begin..pos]);
    }

    /** What the list at start, nested depth deep, comes to. */
    ghost function ListSpec(start: nat, isObject: bool, depth: nat, pointer: Option<Text>,
      before: Notes): (r: Read<Progress>)
      requires start < |text| && 0 < depth
      ensures if r.Ok? then r.next <= |text| else r.at <= |text|
    {
      if depth > maxDepth then Error(TooDeep, start)
      else ReadList(text, start + 1, isObject, depth, maxDepth, pointer, Started(before))
    }

    method ParseWord() returns (r: Outcome<Value>)
      requires Valid()
      modifies `pos, `line, `column
      ensures Valid()
      ensures if Occurs(text, old(pos), TRUE_WORD) then r == Success(Bool(true)) && pos == old(pos) + 4
              else if Occurs(text, old(pos), FALSE_WORD) then r == Success(Bool(false)) && pos == old(pos) + 5
              else if Occurs(text, old(pos), NULL_WORD) then r == Success(Value.Null) && pos == old(pos) + 4
              else r == Failure(ExpectedValue, PositionAt(text, old(pos)))
    {
      WordsAsSlices(text, pos);
      if pos + 4 <= |text| && text[pos..pos + 4] == TRUE_WORD {
        NoNewlineInWord(text, pos, True);
        AdvanceBy(4);
        return Success(Bool(true));
      } else if pos + 5 <= |text| && text[pos..pos + 5] == FALSE_WORD {
        NoNewlineInWord(text, pos, False);
        AdvanceBy(5);
        return Success(Bool(false));
      } else if pos + 4 <= |text| && text[pos..pos + 4] == NULL_WORD {
        NoNewlineInWord(text, pos, Word.Null);
        AdvanceBy(4);
        return Success(Value.Null);
      } else {
        return Failure(ExpectedValue, Here());
      }
    }

    /** The value at the cursor; what is inside it is noted, its own place is not. */
    method ParseBare(pointer: Option<Text>, depth: nat) returns (r: Outcome<Value>)
      requires Valid()
      modifies this
      ensures Follows(r, ReadTree(text, old(pos), depth, maxDepth))
      ensures r.Success? ==>
                var v := ReadTree(text, old(pos), depth, maxDepth);
                && ValidTree(v.out) && old(pos) + |YieldTree(v.out)| == v.next
                && r.value == TreeValue(v.out) && Noted() == NoteInside(text, old(pos), v.out, pointer, old(Noted()))
      decreases |text| - pos, 1
    {
      hide LineAt, ColumnAt, CanRest, ReadNumber, ReadElems, ReadChars, ReadList, Occurs, YieldNumber, ValidNumber,
           NoteElems, ValidElems, Members, Items;
      SoundTree(text, pos, depth, maxDepth);
      if (UnitAt(text, pos, LBRACE) || UnitAt(text, pos, LBRACKET)) && depth < maxDepth {
        ListMeans(text, pos, depth, maxDepth, pointer, Noted());
      }
      var c := Peek();
      if c == LBRACE {
        var obj :- ParseObject(pointer, depth + 1);
        return Success(Obj(obj));
      } else if c == LBRACKET {
        var items :- ParseArray(pointer, depth + 1);
        return Success(Arr(items));
      } else if c == QUOTE {
        var s :- ParseString();
        return Success(Str(s));
      } else if c == MINUS || (c >= ZERO && c <= NINE) {
        var lexeme :- ParseNumber();
        return Success(Num(lexeme));
      } else {
        r := ParseWord();
      }
    }

    method ParseValue(pointer: Option<Text>, depth: nat) returns (r: Outcome<Value>)
      requires Valid()
      modifies this
      ensures Follows(r, ReadTree(text, old(pos), depth, maxDepth))
      ensures r.Success? ==>
                var v := ReadTree(text, old(pos), depth, maxDepth);
                && ValidTree(v.out) && old(pos) + |YieldTree(v.out)| == v.next
                && r.value == TreeValue(v.out) && Noted() == NoteTree(text, old(pos), v.out, pointer, old(Noted()))
      decreases |text| - pos, 2
    {
      hide LineAt, ColumnAt, CanRest, ReadTree, NoteInside, TreeValue, YieldTree, ValidTree;
      var start := Here();
      var value :- ParseBare(pointer, depth);
      if pointer.Some? {
        pointers := pointers[pointer.value := start];
      }
      return Success(value);
    }

    method ParsePropertyName() returns (r: Outcome<Text>)
      requires Valid()
      modifies `pos, `line, `column
      ensures Follows(r, ReadProperty(text, old(pos)))
      ensures r.Success? ==> var p := ReadProperty(text, old(pos)).out; ValidChars(p.name) && r.value == Meaning(p.name)
    {
      hide LineAt, ColumnAt, CanRest, ReadChars, ReadGap;
      if Peek() != QUOTE {
        return Failure(ExpectedPropertyName, Here());
      }
      ghost var i := pos;
      SoundChars(text, i + 1, i);
      var key :- ParseString();
      var _ :- SkipTrivia();
      if Peek() != COLON {
        return Failure(ExpectedColon, Here());
      }
      Advance();
      var _ :- SkipTrivia();
      return Success(key);
    }

    /** What follows an element: a comma (true) or the closing bracket (false). */
    method ParseListEnd(isObject: bool) returns (r: Outcome<bool>)
      requires Valid()
      modifies `pos, `line, `column
      ensures Valid()
      ensures match ReadGap(text, old(pos))
              case Error(k, at) => r == Failure(k, PositionAt(text, at))
              case Ok(_, n) =>
                if UnitAt(text, n, COMMA) then r == Success(true) && pos == n + 1
                else if UnitAt(text, n, Closing(isObject)) then r == Success(false) && pos == n + 1
                else r == Failure(if isObject then ExpectedCommaOrBrace else ExpectedCommaOrBracket,
                  PositionAt(text, n))
    {
      hide LineAt, ColumnAt, CanRest, ReadGap;
      var _ :- SkipTrivia();
      if Peek() == COMMA {
        Advance();
        return Success(true);
      }
      if Peek() == Closing(isObject) {
        Advance();
        return Success(false);
      }
      return Failure(if isObject then ExpectedCommaOrBrace else ExpectedCommaOrBracket, Here());
    }

    /** A member joins the object and the names seen, unless its name was seen: then it is recorded as a duplicate. */
    method ParseMember(
      pointer: Option<Text>, depth: nat, obj: map<Text, Value>, seen: map<Text, nat>, ghost index: nat)
      returns (r: Outcome<(map<Text, Value>, map<Text, nat>)>)
      requires Valid() && obj.Keys == seen.Keys
      modifies this
      ensures Follows(r, ReadMember(text, old(pos), depth, maxDepth, pointer, InObject(obj, seen, index, old(Noted()))))
      ensures r.Success? ==>
                && InObject(r.value.0, r.value.1, index + 1, Noted())
                   == ReadMember(text, old(pos), depth, maxDepth, pointer, InObject(obj, seen, index, old(Noted()))).out
                && r.value.0.Keys == r.value.1.Keys
      decreases |text| - pos, 3
    {
      hide LineAt, ColumnAt, CanRest, ReadTree, ReadProperty, NoteTree, TreeValue, YieldTree, ValidTree, Meaning,
           Escape, ValidChars;
      var keyPosition := Here();
      var key :- ParsePropertyName();
      var child := Child(pointer, Escape(key));
      if key in seen {
        var _ :- ParseValue(None, depth);
        duplicates := duplicates + [Duplicate(key, child, seen[key], keyPosition.line)];
        return Success((obj, seen));
      } else {
        var value :- ParseValue(child, depth);
        return Success((obj[key := value], seen[key := keyPosition.line]));
      }
    }

    method ParseObject(pointer: Option<Text>, depth: nat) returns (r: Outcome<map<Text, Value>>)
      requires Valid() && UnitAt(text, pos, LBRACE) && depth > 0
      modifies this
      ensures Follows(r, ListSpec(old(pos), true, depth, pointer, old(Noted())))
      ensures r.Success? ==>
                var q := ListSpec(old(pos), true, depth, pointer, old(Noted())).out; r.value == q.obj && Noted() == q.notes
      decreases |text| - pos, 0
    {
      hide LineAt, ColumnAt, CanRest, ReadGap, ReadMember, ReadList;
      if depth > maxDepth {
        return Failure(TooDeep, Here());
      }
      ghost var whole := ListSpec(pos, true, depth, pointer, Noted());
      Advance();
      var obj: map<Text, Value> := map[];
      var seen: map<Text, nat> := map[];
      ghost var index := 0;
      while true
        invariant Valid() && old(pos) < pos && obj.Keys == seen.Keys
        invariant ReadList(text, pos, true, depth, maxDepth, pointer, InObject(obj, seen, index, Noted())) == whole
        decreases |text| - pos
      {
        GapFails(text, pos, true, depth, maxDepth, pointer, InObject(obj, seen, index, Noted()));
        ghost var i, p := pos, InObject(obj, seen, index, Noted());
        var _ :- SkipTrivia();
        ObjectStep(text, i, depth, maxDepth, pointer, p);
        if Peek() == RBRACE {
          Advance();
          return Success(obj);
        }
        var member :- ParseMember(pointer, depth, obj, seen, index);
        obj, seen, index := member.0, member.1, index + 1;
        var more :- ParseListEnd(true);
        if !more {
          return Success(obj);
        }
      }
    }

    method ParseArray(pointer: Option<Text>, depth: nat) returns (r: Outcome<seq<Value>>)
      requires Valid() && UnitAt(text, pos, LBRACKET) && depth > 0
      modifies this
      ensures Follows(r, ListSpec(old(pos), false, depth, pointer, old(Noted())))
      ensures r.Success? ==>
                var q := ListSpec(old(pos), false, depth, pointer, old(Noted())).out; r.value == q.items && Noted() == q.notes
      decreases |text| - pos, 0
    {
      hide LineAt, ColumnAt, CanRest, ReadGap, ReadTree, ReadList, NoteTree, TreeValue, YieldTree, ValidTree;
      if depth > maxDepth {
        return Failure(TooDeep, Here());
      }
      ghost var whole := ListSpec(pos, false, depth, pointer, Noted());
      Advance();
      var items: seq<Value> := [];
      while true
        invariant Valid() && old(pos) < pos
        invariant ReadList(text, pos, false, depth, maxDepth, pointer, InArray(items, Noted())) == whole
        decreases |text| - pos
      {
        GapFails(text, pos, false, depth, maxDepth, pointer, InArray(items, Noted()));
        ghost var i := pos;
        var _ :- SkipTrivia();
        ArrayStep(text, i, depth, maxDepth, pointer, items, Noted());
        if Peek() == RBRACKET {
          Advance();
          return Success(items);
        }
        if Peek() == COMMA {
          return Failure(MissingElement, Here());
        }
        var value :- ParseValue(Child(pointer, Decimal(|items|)), depth);
        items := items + [value];
        var more :- ParseListEnd(false);
        if !more {
          return Success(items);
        }
      }
    }

    /** The whole document, comments and all, or the first error raised. */
    method ParseDocument() returns (r: Outcome<Value>)
      requires Valid() && pos == Origin(text) && Noted() == Notes(map[], [])
      modifies this
      ensures Follows(r, ReadDocument(text, maxDepth))
      ensures r.Success? ==>
                var d := ReadDocument(text, maxDepth).out;
                && ValidDocument(d) && RootIndex(text, d) + |YieldTree(d.root)| <= |text|
                && r.value == TreeValue(d.root) && Noted() == DocumentNotes(text, d)
    {
      hide LineAt, ColumnAt, CanRest, ReadGap, ReadTree, TreeValue, YieldTree, YieldGap, ValidTree, ValidGap,
           NoteTree, Occurs;
      SoundGap(text, pos);
      SoundDocument(text, maxDepth);
      var _ :- SkipTrivia();
      if AtEnd() {
        return Failure(EmptyDocument, Here());
      }
      var value :- ParseValue(Some([]), 0);
      var _ :- SkipTrivia();
      if !AtEnd() {
        return Failure(TrailingContent, Here());
      }
      return Success(value);
    }

    method Run() returns (result: ParseResult)
      requires Valid() && pos == Origin(text) && Noted() == Notes(map[], [])
      modifies this
      ensures result.Is(ParseText(text, maxDepth))
    {
      SoundDocument(text, maxDepth);
      var r := ParseDocument();
      match r
      case Failure(kind, position) =>
        result := ParseResult(None, pointers, [Syntax(kind, position)]);
        assert result.incomplete[0].Syntax?;
      case Success(value) =>
        if |duplicates| > 0 {
          return ParseResult(None, pointers, RepeatProblems(duplicates));
        }
        return ParseResult(Some(value), pointers, []);
    }
  }

  /** Parse one document. Malformed input is reported in incomplete, never raised. */
  method ParseJsonc(text: Text, maxBytes: nat, maxDepth: nat) returns (result: ParseResult)
    ensures result.Is(Parse(text, maxBytes, maxDepth))
  {
    if Utf8Length(text) > maxBytes {
      return ParseResult(None, map[], [TooLarge]);
    }
    var parser := new Parser(text, maxDepth);
    result := parser.Run();
  }
}
