/** Nothing is lost and nothing is doubled, from the documents to the entries and failures that extraction returns. */
module Conservation {
  import opened Texts
  import opened Json
  import opened Pointers
  import opened Stable
  import opened Entries
  import opened Redact
  import opened Walks
  import opened Extraction
  import opened ExtractionTheorems
  import opened ItemPointers
  import opened Extractor

  /** How many entries have a file and a pointer. */
  function EntryCount(es: seq<Entry>, file: Text, pointer: Text): nat {
    if es == [] then 0
    else (if es[0].file == file && es[0].pointer == Some(pointer) then 1 else 0) + EntryCount(es[1..], file, pointer)
  }

  function FailureCount(fs: seq<Incomplete>, file: Text, pointer: Text): nat {
    if fs == [] then 0
    else (if fs[0].path == file && fs[0].pointer == pointer then 1 else 0) + FailureCount(fs[1..], file, pointer)
  }

  lemma {:induction false} EntryCountConcat(a: seq<Entry>, b: seq<Entry>, file: Text, pointer: Text)
    ensures EntryCount(a + b, file, pointer) == EntryCount(a, file, pointer) + EntryCount(b, file, pointer)
  {
    if a == [] {
      assert a + b == b;
    } else {
      EntryCountConcat(a[1..], b, file, pointer);
      assert (a + b)[1..] == a[1..] + b;
    }
  }

  lemma {:induction false} FailureCountConcat(a: seq<Incomplete>, b: seq<Incomplete>, file: Text, pointer: Text)
    ensures FailureCount(a + b, file, pointer) == FailureCount(a, file, pointer) + FailureCount(b, file, pointer)
  {
    if a == [] {
      assert a + b == b;
    } else {
      FailureCountConcat(a[1..], b, file, pointer);
      assert (a + b)[1..] == a[1..] + b;
    }
  }

  lemma {:induction false} PointerCountConcat(a: seq<Item>, b: seq<Item>, pointer: Text)
    ensures CountPointer(a + b, pointer) == CountPointer(a, pointer) + CountPointer(b, pointer)
  {
    hide PointerTo;
    if a == [] {
      assert a + b == b;
    } else {
      PointerCountConcat(a[1..], b, pointer);
      assert (a + b)[1..] == a[1..] + b;
    }
  }

  /** Each item becomes one entry or one failure of its document, with the item's pointer. */
  lemma {:induction false} ItemsBecomeRecords(
    items: seq<Item>, doc: SourceDocument, sha: Option<Text>, file: Text, pointer: Text)
    ensures EntryCount(EntriesOf(items, doc, sha), file, pointer) + FailureCount(FailuresOf(items, doc), file, pointer)
         == if file == doc.path then CountPointer(items, pointer) else 0
  {
    hide PointerTo, LineOf;
    if items != [] {
      var init, last := items[..|items| - 1], items[|items| - 1];
      ItemsBecomeRecords(init, doc, sha, file, pointer);
      assert items == init + [last] && [last][1..] == [];
      PointerCountConcat(init, [last], pointer);
      if last.what.Add? {
        assert [EntryOf(last, doc, sha)][1..] == [];
        EntryCountConcat(EntriesOf(init, doc, sha), [EntryOf(last, doc, sha)], file, pointer);
      } else {
        assert [IncompleteOf(last, doc)][1..] == [];
        FailureCountConcat(FailuresOf(init, doc), [IncompleteOf(last, doc)], file, pointer);
      }
    }
  }

  ghost predicate DistinctPaths(docs: seq<SourceDocument>) {
    forall i, j | 0 <= i < j < |docs| :: docs[i].path != docs[j].path
  }

  /** How many records of the documents, entries and failures, have a file and a pointer. */
  function RecordCount(docs: seq<SourceDocument>, setup: Setup, file: Text, pointer: Text): nat {
    EntryCount(AllEntries(docs, setup), file, pointer) + FailureCount(AllFailures(docs, setup), file, pointer)
  }

  lemma RecordCountSnoc(docs: seq<SourceDocument>, setup: Setup, file: Text, pointer: Text)
    requires docs != []
    ensures var init, last := docs[..|docs| - 1], docs[|docs| - 1];
            RecordCount(docs, setup, file, pointer)
              == RecordCount(init, setup, file, pointer)
                 + (if file == last.path then CountPointer(ItemsOf(last, setup), pointer) else 0)
  {
    hide ItemsOf, CountPointer, EntriesOf, FailuresOf;
    var init, last := docs[..|docs| - 1], docs[|docs| - 1];
    ItemsBecomeRecords(ItemsOf(last, setup), last, last.sha, file, pointer);
    EntryCountConcat(AllEntries(init, setup), EntriesOf(ItemsOf(last, setup), last, last.sha), file, pointer);
    FailureCountConcat(AllFailures(init, setup), FailuresOf(ItemsOf(last, setup), last), file, pointer);
  }

  lemma {:induction false} OtherFiles(docs: seq<SourceDocument>, setup: Setup, file: Text, pointer: Text)
    requires forall i | 0 <= i < |docs| :: docs[i].path != file
    ensures RecordCount(docs, setup, file, pointer) == 0
  {
    hide RecordCount, ItemsOf, CountPointer;
    if docs == [] {
      NoRecords(setup, file, pointer);
    } else {
      RecordCountSnoc(docs, setup, file, pointer);
      OtherFiles(docs[..|docs| - 1], setup, file, pointer);
    }
  }

  lemma NoRecords(setup: Setup, file: Text, pointer: Text)
    ensures RecordCount([], setup, file, pointer) == 0
  {
    hide ItemsOf;
  }

  /** The records of a file are its document's items. */
  lemma {:induction false} RecordsOfFile(docs: seq<SourceDocument>, setup: Setup, k: nat, pointer: Text)
    requires DistinctPaths(docs) && k < |docs|
    ensures RecordCount(docs, setup, docs[k].path, pointer) == CountPointer(ItemsOf(docs[k], setup), pointer)
    decreases |docs|
  {
    hide RecordCount, ItemsOf, CountPointer;
    RecordCountSnoc(docs, setup, docs[k].path, pointer);
    if k == |docs| - 1 {
      OtherFiles(docs[..k], setup, docs[k].path, pointer);
    } else {
      RecordsOfFile(docs[..|docs| - 1], setup, k, pointer);
    }
  }

  lemma {:induction false} InsertCounts(es: seq<Entry>, e: Entry, file: Text, pointer: Text)
    ensures EntryCount(Insert(es, e, EntryBefore), file, pointer)
         == EntryCount(es, file, pointer) + (if e.file == file && e.pointer == Some(pointer) then 1 else 0)
  {
    hide EntryBefore;
    if es == [] {
      assert [e][1..] == [];
    } else if EntryBefore(e, es[0]) {
      assert ([e] + es)[1..] == es;
    } else {
      InsertCounts(es[1..], e, file, pointer);
      assert ([es[0]] + Insert(es[1..], e, EntryBefore))[1..] == Insert(es[1..], e, EntryBefore);
    }
  }

  /** Sorting the entries changes no count. */
  lemma {:induction false} SortingCounts(es: seq<Entry>, file: Text, pointer: Text)
    ensures EntryCount(SortEntries(es), file, pointer) == EntryCount(es, file, pointer)
  {
    hide EntryBefore, Insert;
    if es != [] {
      var init, last := es[..|es| - 1], es[|es| - 1];
      SortingCounts(init, file, pointer);
      InsertCounts(SortEntries(init), last, file, pointer);
      assert es == init + [last] && [last][1..] == [];
      EntryCountConcat(init, [last], file, pointer);
    }
  }

  /** Entries and failures, as extraction returns them, at the pointer of a node: one for each item of its path. */
  lemma RecordsAtNode(docs: seq<SourceDocument>, setup: Setup, k: nat, path: Path)
    requires DistinctPaths(docs) && k < |docs| && docs[k].value.Some? && NodeAt(docs[k].value.value, path).Some?
    ensures EntryCount(SortEntries(AllEntries(docs, setup)), docs[k].path, PointerTo(path))
              + FailureCount(AllFailures(docs, setup), docs[k].path, PointerTo(path))
         == CountPointer(DocumentItems(docs[k].role, docs[k].value.value, setup), PointerTo(path))
         == Count(DocumentItems(docs[k].role, docs[k].value.value, setup), path)
  {
    hide DocumentItems, PointerTo, NodeAt, CountPointer, AllEntries, AllFailures, SortEntries;
    DocumentPointerCount(docs[k].role, docs[k].value.value, setup, path);
    RecordsOfFile(docs, setup, k, PointerTo(path));
    SortingCounts(AllEntries(docs, setup), docs[k].path, PointerTo(path));
  }

  /**
   * Of all that extraction returns, a reached element of a document has exactly one entry or failure at its file and
   * pointer, and one credential entry more if it is a string in which redacting finds a pattern.
   */
  lemma ElementsInSnapshot(docs: seq<SourceDocument>, setup: Setup, k: nat, path: Path)
    requires DistinctPaths(docs) && k < |docs| && docs[k].value.Some?
    requires
      var place := PlaceAt(RootPlace(docs[k].role), docs[k].value.value, path, setup);
      place.Some? && IsElement(place.value)
    ensures EntryCount(SortEntries(AllEntries(docs, setup)), docs[k].path, PointerTo(path))
              + FailureCount(AllFailures(docs, setup), docs[k].path, PointerTo(path))
         == 1 + (if FoundAt(docs[k].value.value, None, setup.detector, path) == [] then 0 else 1)
  {
    hide DocumentItems, PointerTo, NodeAt, CountPointer, AllEntries, AllFailures, SortEntries, PlaceAt,
         FoundAt, Visit, LeafItems;
    ElementsInDocument(docs[k].role, docs[k].value.value, setup, path);
    ElementsAreConserved(docs[k].role, docs[k].value.value, setup, path);
    RecordsAtNode(docs, setup, k, path);
  }

  /** The same of a hook definition, which has none if its group's matcher is there and no string. */
  lemma HookDefinitionsInSnapshot(docs: seq<SourceDocument>, setup: Setup, k: nat, event: Text, g: nat, i: nat)
    requires DistinctPaths(docs) && k < |docs| && docs[k].value.Some? && docs[k].role == SettingsFile
    requires NodeAt(docs[k].value.value, [HOOKS, Key(event), Index(g), HOOKS, Index(i)]).Some?
    ensures var raw, path := docs[k].value.value, [HOOKS, Key(event), Index(g), HOOKS, Index(i)];
            && NodeAt(raw, [HOOKS, Key(event), Index(g)]).Some?
            && EntryCount(SortEntries(AllEntries(docs, setup)), docs[k].path, PointerTo(path))
                 + FailureCount(AllFailures(docs, setup), docs[k].path, PointerTo(path))
               == (if BadMatcher(NodeAt(raw, [HOOKS, Key(event), Index(g)]).value) then 0 else 1)
                  + (if FoundAt(raw, None, setup.detector, path) == [] then 0 else 1)
  {
    hide DocumentItems, PointerTo, NodeAt, CountPointer, AllEntries, AllFailures, SortEntries, FoundAt, BadMatcher;
    HookDefinitionsInDocument(docs[k].value.value, event, g, i, setup);
    RecordsAtNode(docs, setup, k, [HOOKS, Key(event), Index(g), HOOKS, Index(i)]);
  }
}
