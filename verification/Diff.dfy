/** The keyed comparison of two snapshots, up to the pairing of changed hook commands. */
module Diff {
  import opened Texts
  import opened Json
  import opened Sorting
  import opened RoundTrip
  import opened Entries
  import opened Signatures

  datatype Change = Added | Removed | Changed | Moved

  datatype RawDelta = RawDelta(key: Text, kind: Kind, change: Change, base: Option<Entry>, head: Option<Entry>)

  // ---- grouping ----

  /** The entries under one key, in their order. */
  function GroupOf(es: seq<Entry>, key: Text): seq<Entry> {
    if es == [] then []
    else (if es[0].key == key then [es[0]] else []) + GroupOf(es[1..], key)
  }

  function KeySet(es: seq<Entry>): set<Text> {
    set e | e in es :: e.key
  }

  /** The sorted entries under one key of a snapshot. */
  function Group(es: seq<Entry>, key: Text): seq<Entry> {
    GroupOf(SortEntries(es), key)
  }

  lemma {:induction false} GroupSnoc(es: seq<Entry>, e: Entry, key: Text)
    ensures GroupOf(es + [e], key) == GroupOf(es, key) + (if e.key == key then [e] else [])
  {
    if es == [] {
      assert [e][1..] == [];
    } else {
      SnocTail(es, e);
      GroupSnoc(es[1..], e, key);
      ConcatAssoc(if es[0].key == key then [es[0]] else [], GroupOf(es[1..], key), if e.key == key then [e] else []);
    }
  }

  lemma {:induction false} GroupEmptyIff(es: seq<Entry>, key: Text)
    ensures GroupOf(es, key) == [] <==> key !in KeySet(es)
    ensures forall e | e in GroupOf(es, key) :: e.key == key && e in es
  {
    if es != [] {
      GroupEmptyIff(es[1..], key);
      assert forall e :: e in es <==> e == es[0] || e in es[1..];
    }
  }

  lemma KeysAfterSorting(es: seq<Entry>)
    ensures KeySet(SortEntries(es)) == KeySet(es)
  {
    SortSorts(es);
    assert forall e :: e in SortEntries(es) <==> e in multiset(SortEntries(es));
    assert forall e :: e in es <==> e in multiset(es);
  }

  /** The groups of the entries seen so far. */
  ghost predicate Grouped(groups: map<Text, seq<Entry>>, es: seq<Entry>) {
    && (forall key :: key in groups <==> GroupOf(es, key) != [])
    && (forall key | key in groups :: groups[key] == GroupOf(es, key))
  }

  lemma GroupedNext(groups: map<Text, seq<Entry>>, es: seq<Entry>, e: Entry)
    requires Grouped(groups, es)
    ensures Grouped(groups[e.key := if e.key in groups then groups[e.key] + [e] else [e]], es + [e])
  {
    hide GroupOf;
    forall key ensures GroupOf(es + [e], key) == GroupOf(es, key) + (if e.key
      == key then [e] else []) { GroupSnoc(es, e, key); }
    assert [] + [e] == [e];
  }

  lemma GroupedNone()
    ensures Grouped(map[], [])
  {
  }

  method GroupByKey(es: seq<Entry>) returns (groups: map<Text, seq<Entry>>)
    ensures groups.Keys == KeySet(es)
    ensures forall key | key in groups :: groups[key] == Group(es, key)
  {
    hide GroupOf, KeySet;
    var sorted := SortEntries(es);
    groups := map[];
    GroupedNone();
    for i := 0 to |sorted|
      invariant Grouped(groups, sorted[..i])
    {
      hide Grouped;
      var entry := sorted[i];
      assert sorted[..i + 1] == sorted[..i] + [entry];
      GroupedNext(groups, sorted[..i], entry);
      if entry.key in groups {
        groups := groups[entry.key := groups[entry.key] + [entry]];
      } else {
        groups := groups[entry.key := [entry]];
      }
    }
    assert sorted[..|sorted|] == sorted;
    KeysAfterSorting(es);
    forall key ensures key in groups <==> key in KeySet(es) { GroupEmptyIff(sorted, key); }
  }

  // ---- one key ----

  /** What one key contributes, given its groups on both sides. */
  function KeyDelta(key: Text, base: seq<Entry>, head: seq<Entry>): Option<RawDelta> {
    if base == [] && head == [] then None
    else if head == [] then Some(RawDelta(key, base[0].kind, Removed, Some(base[0]), None))
    else if base == [] then Some(RawDelta(key, head[0].kind, Added, None, Some(head[0])))
    else if Signature(base) == Signature(head) then None
    else Some(RawDelta(key, head[0].kind, if ValueSignature(base) == ValueSignature(head) then Moved else Changed,
                       Some(base[0]), Some(head[0])))
  }

  /** The deltas of the keys, in order. */
  function DeltasOf(keys: seq<Text>, base: seq<Entry>, head: seq<Entry>): seq<RawDelta> {
    if keys == [] then []
    else
      var d := KeyDelta(keys[0], Group(base, keys[0]), Group(head, keys[0]));
      (if d.None? then [] else [d.value]) + DeltasOf(keys[1..], base, head)
  }

  /** All keys of both sides in code-unit order. */
  function AllKeys(base: seq<Entry>, head: seq<Entry>): seq<Text> {
    LessIsStrictTotal();
    SortSet(KeySet(base) + KeySet(head), Less)
  }

  function KeyedDeltas(base: seq<Entry>, head: seq<Entry>): seq<RawDelta> {
    DeltasOf(AllKeys(base, head), base, head)
  }

  lemma {:induction false} DeltasSnoc(keys: seq<Text>, key: Text, base: seq<Entry>, head: seq<Entry>)
    ensures var d := KeyDelta(key, Group(base, key), Group(head, key));
            DeltasOf(keys + [key], base, head) == DeltasOf(keys, base, head) + (if d.None? then [] else [d.value])
  {
    hide KeyDelta, Group;
    if keys == [] {
      assert [key][1..] == [];
    } else {
      assert (keys + [key])[1..] == keys[1..] + [key];
      DeltasSnoc(keys[1..], key, base, head);
    }
  }

  lemma NoDeltas(keys: seq<Text>, base: seq<Entry>, head: seq<Entry>)
    requires keys == []
    ensures DeltasOf(keys, base, head) == []
  {
  }

  method RawDeltas(base: seq<Entry>, head: seq<Entry>) returns (result: seq<RawDelta>)
    ensures result == PairHooks(KeyedDeltas(base, head))
  {
    hide Signature, ValueSignature, Group, KeySet, AllKeys, DeltasOf, PairHooks;
    var baseGroups := GroupByKey(base);
    var headGroups := GroupByKey(head);
    var keys := AllKeys(base, head);
    var deltas: seq<RawDelta> := [];
    assert DeltasOf(keys[..0], base, head) == [] by { NoDeltas(keys[..0], base, head); }
    for i := 0 to |keys|
      invariant deltas == DeltasOf(keys[..i], base, head)
    {
      var key := keys[i];
      assert keys[..i + 1] == keys[..i] + [key];
      DeltasSnoc(keys[..i], key, base, head);
      MissingGroups(base, key);
      MissingGroups(head, key);
      var baseGroup := if key in baseGroups then baseGroups[key] else [];
      var headGroup := if key in headGroups then headGroups[key] else [];
      if headGroup == [] && baseGroup != [] {
        deltas := deltas + [RawDelta(key, baseGroup[0].kind, Removed, Some(baseGroup[0]), None)];
      } else if baseGroup == [] && headGroup != [] {
        deltas := deltas + [RawDelta(key, headGroup[0].kind, Added, None, Some(headGroup[0]))];
      } else if baseGroup != [] && headGroup != [] && Signature(baseGroup) != Signature(headGroup) {
        var change := if ValueSignature(baseGroup) == ValueSignature(headGroup) then Moved else Changed;
        deltas := deltas + [RawDelta(key, headGroup[0].kind, change, Some(baseGroup[0]), Some(headGroup[0]))];
      }
    }
    assert keys[..|keys|] == keys;
    assert deltas == KeyedDeltas(base, head);
    result := PairHookCommandChanges(deltas);
  }

  lemma MissingGroups(es: seq<Entry>, key: Text)
    ensures key !in KeySet(es) <==> Group(es, key) == []
  {
    KeysAfterSorting(es);
    GroupEmptyIff(SortEntries(es), key);
  }

  // ---- pairing ----

  const COLON: CodeUnit := 0x3a
  const BAR: CodeUnit := 0x7c

  /** The key up to and including its last colon. */
  function PrefixOf(key: Text): Text {
    if key == [] || key[|key| - 1] == COLON then key else PrefixOf(key[..|key| - 1])
  }

  function Subject(d: RawDelta): Option<Entry> {
    if d.head.Some? then d.head else d.base
  }

  /** Hook deltas on one side only are candidates for pairing. */
  predicate Candidate(d: RawDelta) {
    d.kind == Hook && (d.change == Added || d.change == Removed) && Subject(d).Some?
  }

  /** Candidates pair within one event, matcher and file. */
  function PairId(d: RawDelta): Text
    requires Candidate(d)
  {
    PrefixOf(d.key) + [BAR] + Subject(d).value.file
  }

  /** The candidates of one change under one id. */
  function Sharing(ds: seq<RawDelta>, id: Text, change: Change): seq<RawDelta> {
    if ds == [] then []
    else
      (if Candidate(ds[0]) && PairId(ds[0]) == id && ds[0].change == change then [ds[0]] else [])
      + Sharing(ds[1..], id, change)
  }

  predicate PairedId(ds: seq<RawDelta>, id: Text) {
    |Sharing(ds, id, Removed)| == 1 && |Sharing(ds, id, Added)| == 1
  }

  predicate IsPaired(ds: seq<RawDelta>, d: RawDelta) {
    Candidate(d) && PairedId(ds, PairId(d))
  }

  function Merge(ds: seq<RawDelta>, id: Text): RawDelta
    requires PairedId(ds, id)
  {
    RawDelta(TheAdded(ds, id).key, Hook, Changed, TheRemoved(ds, id).base, TheAdded(ds, id).head)
  }

  function TheRemoved(ds: seq<RawDelta>, id: Text): RawDelta
    requires PairedId(ds, id)
  {
    Sharing(ds, id, Removed)[0]
  }

  function TheAdded(ds: seq<RawDelta>, id: Text): RawDelta
    requires PairedId(ds, id)
  {
    Sharing(ds, id, Added)[0]
  }

  /** The ids of candidates in order of first occurrence: the order of the map that collects them. */
  function Ids(ds: seq<RawDelta>): seq<Text> {
    if ds == [] then []
    else
      var init, last := ds[..|ds| - 1], ds[|ds| - 1];
      if Candidate(last) && PairId(last) !in Ids(init) then Ids(init) + [PairId(last)] else Ids(init)
  }

  function Unpaired(ds: seq<RawDelta>, all: seq<RawDelta>): seq<RawDelta> {
    if ds == [] then [] else (if IsPaired(all, ds[0]) then [] else [ds[0]]) + Unpaired(ds[1..], all)
  }

  function Merged(ids: seq<Text>, ds: seq<RawDelta>): seq<RawDelta> {
    if ids == [] then [] else (if PairedId(ds, ids[0]) then [Merge(ds, ids[0])] else []) + Merged(ids[1..], ds)
  }

  function PairHooks(ds: seq<RawDelta>): seq<RawDelta> {
    Unpaired(ds, ds) + Merged(Ids(ds), ds)
  }

  datatype Pairing = Pairing(removed: seq<RawDelta>, added: seq<RawDelta>)

  lemma {:induction false} SharingSnoc(ds: seq<RawDelta>, d: RawDelta, id: Text, change: Change)
    ensures Sharing(ds + [d], id, change)
         == Sharing(ds, id, change) + (if Candidate(d) && PairId(d) == id && d.change == change then [d] else [])
  {
    hide Candidate, PairId;
    if ds == [] {
      assert [d][1..] == [];
    } else {
      SnocTail(ds, d);
      SharingSnoc(ds[1..], d, id, change);
      ConcatAssoc(if Candidate(ds[0]) && PairId(ds[0]) == id && ds[0].change == change then [ds[0]] else [],
                  Sharing(ds[1..], id, change), if Candidate(d) && PairId(d) == id && d.change
                    == change then [d] else []);
    }
  }

  lemma {:induction false} UnpairedSnoc(ds: seq<RawDelta>, d: RawDelta, all: seq<RawDelta>)
    ensures Unpaired(ds + [d], all) == Unpaired(ds, all) + (if IsPaired(all, d) then [] else [d])
  {
    hide IsPaired;
    if ds == [] {
      assert [d][1..] == [];
    } else {
      SnocTail(ds, d);
      UnpairedSnoc(ds[1..], d, all);
      ConcatAssoc(if IsPaired(all, ds[0]) then [] else [ds[0]], Unpaired(ds[1..], all),
        if IsPaired(all, d) then [] else [d]);
    }
  }

  lemma {:induction false} MergedSnoc(ids: seq<Text>, id: Text, ds: seq<RawDelta>)
    ensures Merged(ids + [id], ds) == Merged(ids, ds) + (if PairedId(ds, id) then [Merge(ds, id)] else [])
  {
    hide PairedId, Merge;
    if ids == [] {
      assert [id][1..] == [];
    } else {
      SnocTail(ids, id);
      MergedSnoc(ids[1..], id, ds);
      ConcatAssoc(if PairedId(ds, ids[0]) then [Merge(ds, ids[0])] else [], Merged(ids[1..], ds),
                  if PairedId(ds, id) then [Merge(ds, id)] else []);
    }
  }

  /** Every member of a sharing list comes from the deltas and has its id and change. */
  lemma {:induction false} SharingMembers(ds: seq<RawDelta>, id: Text, change: Change, d: RawDelta)
    ensures d in Sharing(ds, id, change) <==> d in ds && Candidate(d) && PairId(d) == id && d.change == change
  {
    hide Candidate, PairId;
    if ds != [] {
      SharingMembers(ds[1..], id, change, d);
      assert d in ds <==> d == ds[0] || d in ds[1..];
    }
  }

  lemma {:induction false} IdsMembers(ds: seq<RawDelta>, id: Text)
    ensures id in Ids(ds) <==> exists d :: d in ds && Candidate(d) && PairId(d) == id
    ensures forall i, j | 0 <= i < j < |Ids(ds)| :: Ids(ds)[i] != Ids(ds)[j]
    decreases |ds|
  {
    hide Candidate, PairId;
    if ds != [] {
      var init, last := ds[..|ds| - 1], ds[|ds| - 1];
      IdsMembers(init, id);
      assert ds == init + [last];
      assert forall d :: d in ds <==> d in init || d == last;
    }
  }

  /** The candidates collected so far, by id. */
  ghost predicate Collected(groups: map<Text, Pairing>, ids: seq<Text>, ds: seq<RawDelta>) {
    && ids == Ids(ds) && (forall id :: id in ids <==> id in groups)
    && (forall id | id in groups :: groups[id] == PairingOf(ds, id))
    && (forall id | id !in groups :: PairingOf(ds, id) == Pairing([], []))
  }

  function PairingOf(ds: seq<RawDelta>, id: Text): Pairing {
    Pairing(Sharing(ds, id, Removed), Sharing(ds, id, Added))
  }

  function Extend(p: Pairing, d: RawDelta): Pairing {
    if d.change == Removed then p.(removed := p.removed + [d]) else p.(added := p.added + [d])
  }

  lemma PairingSnoc(ds: seq<RawDelta>, d: RawDelta, id: Text)
    ensures PairingOf(ds + [d], id)
         == if Candidate(d) && PairId(d) == id then Extend(PairingOf(ds, id), d) else PairingOf(ds, id)
  {
    hide PairId, Sharing;
    SharingSnoc(ds, d, id, Removed);
    SharingSnoc(ds, d, id, Added);
  }

  lemma CollectedNone()
    ensures Collected(map[], [], [])
  {
  }

  /** A delta that is no candidate changes nothing. */
  lemma CollectedSkip(groups: map<Text, Pairing>, ids: seq<Text>, ds: seq<RawDelta>, d: RawDelta)
    requires Collected(groups, ids, ds) && !Candidate(d)
    ensures Collected(groups, ids, ds + [d])
  {
    hide PairId, PairingOf, Candidate;
    assert (ds + [d])[..|ds|] == ds;
    forall id ensures PairingOf(ds + [d], id) == PairingOf(ds, id) { PairingSnoc(ds, d, id); }
  }

  /** A candidate goes into the group of its id. */
  lemma CollectedNext(groups: map<Text, Pairing>, ids: seq<Text>, ds: seq<RawDelta>, d: RawDelta)
    requires Collected(groups, ids, ds) && Candidate(d)
    ensures var id := PairId(d);
            var group := if id in groups then groups[id] else Pairing([], []);
            Collected(groups[id := Extend(group, d)], if id in groups then ids else ids + [id], ds + [d])
  {
    hide PairId, PairingOf, Candidate, Extend;
    assert (ds + [d])[..|ds|] == ds;
    forall id ensures PairingOf(ds + [d], id) == if PairId(d) == id then Extend(PairingOf(ds, id),
      d) else PairingOf(ds, id) {
      PairingSnoc(ds, d, id);
    }
  }

  method CollectCandidates(ds: seq<RawDelta>) returns (groups: map<Text, Pairing>, ids: seq<Text>)
    ensures Collected(groups, ids, ds)
  {
    hide PrefixOf, PairingOf, Sharing, Collected, Extend;
    groups, ids := map[], [];
    CollectedNone();
    for i := 0 to |ds|
      invariant Collected(groups, ids, ds[..i])
    {
      var delta := ds[i];
      assert ds[..i + 1] == ds[..i] + [delta];
      if delta.kind != Hook || (delta.change != Added && delta.change != Removed) {
        CollectedSkip(groups, ids, ds[..i], delta);
        continue;
      }
      var entry := if delta.head.Some? then delta.head else delta.base;
      if entry.None? {
        CollectedSkip(groups, ids, ds[..i], delta);
        continue;
      }
      CollectedNext(groups, ids, ds[..i], delta);
      var id := PrefixOf(delta.key) + [BAR] + entry.value.file;
      var group := if id in groups then groups[id] else Pairing([], []);
      if id !in groups {
        ids := ids + [id];
      }
      groups := groups[id := Extend(group, delta)];
    }
    assert ds[..|ds|] == ds;
  }

  method ReplacePairs(ds: seq<RawDelta>, groups: map<Text, Pairing>, ids: seq<Text>)
    returns (paired: set<RawDelta>, replacements: seq<RawDelta>)
    requires Collected(groups, ids, ds)
    ensures replacements == Merged(ids, ds)
    ensures forall d :: d in paired <==> d in ds && IsPaired(ds, d)
  {
    paired, replacements := {}, [];
    for i := 0 to |ids|
      invariant replacements == Merged(ids[..i], ds)
      invariant forall d :: d in paired <==> d in ds && IsPaired(ds, d) && PairId(d) in ids[..i]
    {
      hide Candidate, PairId, Ids, Sharing;
      var group := groups[ids[i]];
      assert ids[i] in ids && ids[..i + 1] == ids[..i] + [ids[i]];
      MergedSnoc(ids[..i], ids[i], ds);
      PairMembers(ds, ids[i]);
      if |group.removed| == 1 && |group.added| == 1 {
        var removed, added := group.removed[0], group.added[0];
        paired := paired + {removed, added};
        replacements := replacements + [RawDelta(added.key, Hook, Changed, removed.base, added.head)];
      }
    }
    assert ids[..|ids|] == ids;
    forall d | d in ds && IsPaired(ds, d) ensures PairId(d) in ids { IdsMembers(ds, PairId(d)); }
  }

  /** A paired id is that of exactly its two deltas. */
  lemma PairMembers(ds: seq<RawDelta>, id: Text)
    ensures PairedId(ds, id) ==>
              var p := PairingOf(ds, id);
              forall d :: d in {p.removed[0], p.added[0]} <==> d in ds && Candidate(d) && PairId(d) == id
  {
    hide PairId, Sharing;
    if PairedId(ds, id) {
      var p := PairingOf(ds, id);
      forall d ensures d in {p.removed[0], p.added[0]} <==> d in ds && Candidate(d) && PairId(d) == id {
        SharingMembers(ds, id, Removed, d);
        SharingMembers(ds, id, Added, d);
        assert d in p.removed <==> d == p.removed[0];
        assert d in p.added <==> d == p.added[0];
      }
    }
  }

  method PairHookCommandChanges(ds: seq<RawDelta>) returns (result: seq<RawDelta>)
    ensures result == PairHooks(ds)
  {
    hide IsPaired, Ids;
    var groups, ids := CollectCandidates(ds);
    var paired, replacements := ReplacePairs(ds, groups, ids);
    var kept: seq<RawDelta> := [];
    for i := 0 to |ds|
      invariant kept == Unpaired(ds[..i], ds)
    {
      assert ds[i] in ds && ds[..i + 1] == ds[..i] + [ds[i]];
      UnpairedSnoc(ds[..i], ds[i], ds);
      if ds[i] !in paired {
        kept := kept + [ds[i]];
      }
    }
    assert ds[..|ds|] == ds;
    return kept + replacements;
  }
}
