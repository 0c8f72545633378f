/** What a caller of the parser may rely on, for every text. */
module JsoncTheorems {
  import opened Texts
  import opened Grammar
  import opened Reader
  import opened Language
  import opened Json
  import opened Pointers
  import opened Denotation
  import opened Walks
  import opened Places
  import opened Repeats
  import opened Trivia
  import opened Jsonc

  /** d spells the text, leaving out a byte order mark, and nests no deeper than maxDepth. */
  ghost predicate Spells(d: Document, text: Text, maxDepth: nat) {
    ValidDocument(d) && YieldDocument(d) == Body(text) && Depth(d.root) <= maxDepth
  }

  /** A value is returned exactly when there is nothing to report. */
  lemma ValueIffClean(text: Text, maxBytes: nat, maxDepth: nat)
    ensures var r := Parse(text, maxBytes, maxDepth); r.value.Some? <==> r.incomplete == []
  {
    hide ReadDocument, DocumentNotes, TreeValue, PositionAt, Utf8Length;
  }

  lemma SpelledIsRead(text: Text, d: Document, maxDepth: nat)
    requires Spells(d, text, maxDepth)
    ensures ReadDocument(text, maxDepth) == Ok(d, |text|)
    ensures RootIndex(text, d) + |YieldTree(d.root)| <= |text| && Occurs(text, RootIndex(text, d), YieldTree(d.root))
    ensures |DocumentNotes(text, d).duplicates| == RepeatCount(d.root)
  {
    hide YieldGap, YieldTree, YieldDocument, ReadDocument, Occurs, ValidTree, ValidGap, NoteTree, RepeatCount;
    var o := Origin(text);
    CompleteDocument(text, d, maxDepth);
    OccursSlice(text, o, YieldDocument(d));
    SpliceDocument(text, o, d);
    OccursWithin(text, RootIndex(text, d), YieldTree(d.root));
    TreeRecordCount(text, RootIndex(text, d), d.root, Some([]), Notes(map[], []));
  }

  /**
   * The parser decides its language: within the size limit it returns the value v exactly when the
   * text is a document within the depth limit, without a repeated name, whose value is v.
   */
  lemma ParserDecidesLanguage(text: Text, maxBytes: nat, maxDepth: nat, v: Value)
    requires Utf8Length(text) <= maxBytes
    ensures Parse(text, maxBytes, maxDepth).value == Some(v)
       <==> exists d :: Spells(d, text, maxDepth) && NamesDistinct(d.root) && TreeValue(d.root) == v
  {
    hide ReadDocument, DocumentNotes, TreeValue, PositionAt, Utf8Length, YieldTree, YieldDocument, RepeatCount,
         NamesDistinct, Depth, Occurs;
    if d :| Spells(d, text, maxDepth) && NamesDistinct(d.root) && TreeValue(d.root) == v {
      SpelledIsRead(text, d, maxDepth);
      DistinctIffNoRepeats(d.root);
    }
    if Parse(text, maxBytes, maxDepth).value == Some(v) {
      SoundDocument(text, maxDepth);
      var d := ReadDocument(text, maxDepth).out;
      SpelledIsRead(text, d, maxDepth);
      DistinctIffNoRepeats(d.root);
      assert Spells(d, text, maxDepth) && NamesDistinct(d.root) && TreeValue(d.root) == v;
    }
  }

  /** A syntax error is reported exactly when no document within the limits spells the text. */
  lemma SyntaxErrorIffUnspelled(text: Text, maxBytes: nat, maxDepth: nat)
    requires Utf8Length(text) <= maxBytes
    ensures var r := Parse(text, maxBytes, maxDepth);
            (exists k | 0 <= k < |r.incomplete| :: r.incomplete[k].Syntax?) <==> !exists d :: Spells(d, text, maxDepth)
  {
    hide DocumentNotes, TreeValue, PositionAt, Utf8Length, YieldTree, YieldDocument, Depth, Occurs, ReadDocument;
    ReaderDecidesLanguage(text, maxDepth);
    var r := Parse(text, maxBytes, maxDepth);
    if ReadDocument(text, maxDepth).Error? {
      assert r.incomplete[0].Syntax?;
      assert forall d :: !Spells(d, text, maxDepth);
    } else {
      SoundDocument(text, maxDepth);
      assert Spells(ReadDocument(text, maxDepth).out, text, maxDepth);
    }
  }

  /**
   * No occurrence of a name overrides another: a document within the limits with repeated names gives no
   * value, and the records are, as a list, those that its repeated occurrences owe: one for each, at
   * every depth, with the line of the first occurrence before its own.
   */
  lemma DuplicatesAreReported(text: Text, maxBytes: nat, maxDepth: nat, d: Document)
    requires Utf8Length(text) <= maxBytes && Spells(d, text, maxDepth) && !NamesDistinct(d.root)
    ensures var r := Parse(text, maxBytes, maxDepth);
            var records := DocumentNotes(text, d).duplicates;
            && r.value == None && r.incomplete == RepeatProblems(records) && |r.incomplete| == RepeatCount(d.root)
            && RootIndex(text, d) + |YieldTree(d.root)| <= |text|
            && AllRecorded(text, RootIndex(text, d), d.root, Some([]), records)
            && records == OwedIn(text, RootIndex(text, d), d.root, Some([])) && InOrder(records)
  {
    hide ReadDocument, TreeValue, PositionAt, Utf8Length, YieldTree, YieldDocument, RepeatCount, NamesDistinct,
         NoteTree, Depth, Occurs, AllRecorded, OwedIn, InOrder;
    SpelledIsRead(text, d, maxDepth);
    RecordsAreOwed(text, RootIndex(text, d), d.root, Some([]), Notes(map[], []));
    OwedInOrder(text, RootIndex(text, d), d.root, Some([]));
    DistinctIffNoRepeats(d.root);
    TreeRecorded(text, RootIndex(text, d), d.root, Some([]), Notes(map[], []), DocumentNotes(text, d).duplicates);
  }

  /** The pointer of the node at p has the position at which that node, and no other of equal value, is spelled. */
  ghost predicate PointsAtNode(text: Text, i: nat, v: Tree, pointers: map<Text, Position>, p: Path)
    requires ValidTree(v) && NodeAt(TreeValue(v), p).Some?
  {
    var site := SiteOf(i, v, p);
    && site.Some? && ValidTree(site.value.tree) && TreeValue(site.value.tree) == NodeAt(TreeValue(v), p).value
    && site.value.at <= |text| && Occurs(text, site.value.at, YieldTree(site.value.tree))
    && PointerTo(p) in pointers && pointers[PointerTo(p)] == PositionAt(text, site.value.at)
  }

  /**
   * Pointers are exact: whenever the text is a document, with repeated names or without, the pointers
   * recorded are those of the nodes of its value, no more and no less, each with the place where the
   * text of that very node begins.
   */
  lemma PointersAreExact(text: Text, maxBytes: nat, maxDepth: nat, d: Document, q: Text)
    requires Utf8Length(text) <= maxBytes && Spells(d, text, maxDepth)
    ensures var r := Parse(text, maxBytes, maxDepth);
            q in r.pointers <==> exists p: Path :: NodeAt(TreeValue(d.root), p).Some? && q == PointerTo(p)
    ensures forall p: Path | NodeAt(TreeValue(d.root), p).Some? ::
              PointsAtNode(text, RootIndex(text, d), d.root, Parse(text, maxBytes, maxDepth).pointers, p)
  {
    hide ReadDocument, PositionAt, Utf8Length, YieldTree, YieldDocument, NoteTree, Depth, Occurs, NodeAt, SiteOf,
         TreeValue, PointerTo;
    SpelledIsRead(text, d, maxDepth);
    RootPointer();
    var i, value := RootIndex(text, d), TreeValue(d.root);
    var r := Parse(text, maxBytes, maxDepth);
    assert r.pointers == DocumentNotes(text, d).pointers;
    if q in r.pointers {
      NotesArePlaced(text, i, d.root, [], Notes(map[], []), q);
      var p :| PlacedBy(text, i, d.root, [], q, r.pointers[q], p);
      assert [] + p == p;
      assert NodeAt(value, p).Some? && q == PointerTo(p);
    }
    forall p: Path | NodeAt(value, p).Some? ensures PointsAtNode(text, i, d.root, r.pointers, p) {
      NodesArePlaced(text, i, d.root, p);
      SitesAreNodes(text, i, d.root, p);
    }
    if p: Path :| NodeAt(value, p).Some? && q == PointerTo(p) {
      assert PointsAtNode(text, i, d.root, r.pointers, p);
    }
  }

  /** What a document writes to the pointer map is its marks, and none of them is written over another. */
  lemma PointersAreWrittenOnce(text: Text, maxBytes: nat, maxDepth: nat, d: Document, k: nat)
    requires Utf8Length(text) <= maxBytes && Spells(d, text, maxDepth)
    ensures var marks := Marks(RootIndex(text, d), d.root, []);
            && Within(text, marks) && Parse(text, maxBytes, maxDepth).pointers == WriteAll(text, map[], marks)
            && (k < |marks| ==>
                  Within(text, marks[..k]) && PointerTo(marks[k].path) !in WriteAll(text, map[], marks[..k]))
  {
    hide ReadDocument, PositionAt, Utf8Length, YieldTree, YieldDocument, NoteTree, Depth, Occurs, Marks, WriteAll,
         PointerTo;
    SpelledIsRead(text, d, maxDepth);
    var i := RootIndex(text, d);
    NotesAreMarks(text, i, d.root, [], Notes(map[], []));
    assert PointerTo([]) == [] by { RootPointer(); }
    if k < |Marks(i, d.root, [])| { NoneIsWrittenTwice(text, i, d.root, k); }
  }

  lemma RootPointer()
    ensures PointerTo([]) == []
  {
  }

  /** Every recorded pointer resolves to its node, and no two nodes share one. */
  lemma RecordedPointersResolve(text: Text, maxBytes: nat, maxDepth: nat, v: Value, p: Path, q: Path, number: Numeric)
    requires Parse(text, maxBytes, maxDepth).value == Some(v) && ReadsIndices(number, v)
    requires NodeAt(v, p).Some? && NodeAt(v, q).Some?
    ensures PointerTo(p) in Parse(text, maxBytes, maxDepth).pointers
    ensures Resolve(v, PointerTo(p), number) == NodeAt(v, p)
    ensures PointerTo(p) == PointerTo(q) ==> p == q
  {
    hide ReadDocument, PositionAt, Utf8Length, YieldTree, YieldDocument, NoteTree, Depth, Occurs, NodeAt, Resolve,
         NamesDistinct, PointsAtNode, DocumentNotes, ReadsIndices;
    PointersResolve(v, p, number);
    if PointerTo(p) == PointerTo(q) { PointersAreDistinct(v, p, q); }
    ParserDecidesLanguage(text, maxBytes, maxDepth, v);
    var d :| Spells(d, text, maxDepth) && NamesDistinct(d.root) && TreeValue(d.root) == v;
    PointersAreExact(text, maxBytes, maxDepth, d, PointerTo(p));
  }

  /**
   * A document's bare text - no comments, blanks or trailing commas - parses to the same value, or is refused as
   * well.
   */
  lemma TriviaChangesNothing(text: Text, maxDepth: nat, d: Document)
    requires Spells(d, text, maxDepth)
    ensures ParseText(YieldTree(StripTree(d.root)), maxDepth).value == ParseText(text, maxDepth).value
  {
    hide ReadDocument, PositionAt, YieldTree, NoteTree, Depth, Occurs, RepeatCount, DocumentNotes, TreeValue;
    var bare, e := YieldTree(StripTree(d.root)), Document(NoGap, StripTree(d.root), NoGap);
    StripKeepsTree(d.root);
    BareSpells(StripTree(d.root), maxDepth);
    SpelledIsRead(text, d, maxDepth);
    SpelledIsRead(bare, e, maxDepth);
  }

  lemma BareSpells(v: Tree, maxDepth: nat)
    requires ValidTree(v) && Depth(v) <= maxDepth
    ensures Spells(Document(NoGap, v, NoGap), YieldTree(v), maxDepth)
  {
    hide YieldTree, ReadTree, Depth;
    var t := YieldTree(v);
    OccursSlice(t, 0, t);
    CompleteTree(t, 0, v, 0, maxDepth);
    assert [] + (t + []) == t;
  }

  /** So two documents that differ in trivia alone have the same value. */
  lemma SameBareSameValue(text: Text, other: Text, maxDepth: nat, d: Document, e: Document)
    requires Spells(d, text, maxDepth) && Spells(e, other, maxDepth) && StripTree(d.root) == StripTree(e.root)
    ensures ParseText(text, maxDepth).value == ParseText(other, maxDepth).value
  {
    TriviaChangesNothing(text, maxDepth, d);
    TriviaChangesNothing(other, maxDepth, e);
  }

  // ---- positions as a fold ----

  /** Line and column after the units read so far, and whether the last of them was a CR. */
  datatype Scan = Scan(line: nat, column: nat, afterCR: bool)

  /** An LF after a CR belongs to the newline already counted. */
  function ScanUnit(s: Scan, c: CodeUnit): Scan {
    if c == LF && s.afterCR then s.(afterCR := false)
    else if c == LF || c == CR then Scan(s.line + 1, 1, c == CR)
    else Scan(s.line, s.column + 1, false)
  }

  function ScanTo(t: Text, i: nat): Scan
    requires Origin(t) <= i <= |t|
  {
    if i == Origin(t) then Scan(1, 1, false) else ScanUnit(ScanTo(t, i - 1), t[i - 1])
  }

  /** The parser's positions are the fold over the units consumed, wherever the cursor may rest. */
  lemma {:induction false} PositionIsFold(t: Text, i: nat)
    requires Origin(t) <= i <= |t|
    ensures CanRest(t, i) ==> PositionAt(t, i) == Position(ScanTo(t, i).line, ScanTo(t, i).column)
    ensures !CanRest(t, i) ==> ScanTo(t, i) == Scan(LineAt(t, i) + 1, 1, true)
    ensures ScanTo(t, i).afterCR <==> i > Origin(t) && t[i - 1] == CR
    decreases i
  {
    if i > Origin(t) {
      PositionIsFold(t, i - 1);
    }
  }
}
