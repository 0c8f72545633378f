/** What the deltas of a comparison say about the two snapshots. */
module DiffTheorems {
  import opened Texts
  import opened Json
  import opened Sorting
  import opened Canonical
  import opened RoundTrip
  import opened Stable
  import opened Entries
  import opened Signatures
  import opened Diff

  ghost predicate PrintableEntries(es: seq<Entry>) {
    forall e | e in es :: Printable(e.value)
  }

  lemma GroupFacts(es: seq<Entry>, key: Text)
    ensures Group(es, key) == [] <==> key !in KeySet(es)
    ensures forall e | e in Group(es, key) :: e.key == key && e in es
  {
    SortSorts(es);
    KeysAfterSorting(es);
    GroupEmptyIff(SortEntries(es), key);
    forall e | e in SortEntries(es) ensures e in es {
      assert e in multiset(SortEntries(es));
    }
  }

  // ---- one key ----

  /** A key has a delta exactly when the two sides do not look the same under it. */
  lemma KeyDeltaIff(key: Text, base: seq<Entry>, head: seq<Entry>)
    requires PrintableEntries(base) && PrintableEntries(head)
    ensures var b, h := Group(base, key), Group(head, key);
            var d := KeyDelta(key, b, h);
            && (d.Some? <==> VisibleAll(b) != VisibleAll(h))
            && (d.Some? ==>
                  && d.value.key == key
                  && (d.value.change == Removed <==> h == [])
                  && (d.value.change == Added <==> b == [])
                  && (d.value.change == Moved ==> multiset(VisibleValues(b)) == multiset(VisibleValues(h)))
                  && (d.value.change == Changed ==> multiset(VisibleValues(b)) != multiset(VisibleValues(h)))
                  && d.value.base == (if b == [] then None else Some(b[0]))
                  && d.value.head == (if h == [] then None else Some(h[0])))
  {
    hide Group, Signature, ValueSignature, Printable, Visible;
    var b, h := Group(base, key), Group(head, key);
    GroupFacts(base, key);
    GroupFacts(head, key);
    assert PrintableGroup(b) && PrintableGroup(h);
    assert |VisibleAll(b)| == |b| && |VisibleAll(h)| == |h|;
    SignatureDecides(b, h);
    ValueSignatureDecides(b, h);
  }

  // ---- all keys ----

  lemma {:induction false} DeltasMembers(keys: seq<Text>, base: seq<Entry>, head: seq<Entry>, d: RawDelta)
    ensures d in DeltasOf(keys, base, head)
       <==> exists key :: key in keys && KeyDelta(key, Group(base, key), Group(head, key)) == Some(d)
  {
    hide KeyDelta, Group;
    if keys != [] {
      DeltasMembers(keys[1..], base, head, d);
      assert forall k :: k in keys <==> k == keys[0] || k in keys[1..];
    }
  }

  /** A delta's entries have its key, and it has those entries that its change calls for. */
  predicate WellKeyed(d: RawDelta) {
    && (d.base.Some? ==> d.base.value.key == d.key) && (d.head.Some? ==> d.head.value.key == d.key)
    && (d.change == Added ==> d.base.None? && d.head.Some?) && (d.change == Removed ==> d.base.Some? && d.head.None?)
  }

  predicate UniqueKeys(ds: seq<RawDelta>) {
    forall i, j | 0 <= i < j < |ds| :: ds[i].key != ds[j].key
  }

  lemma KeyDeltaWellKeyed(key: Text, base: seq<Entry>, head: seq<Entry>)
    ensures var d := KeyDelta(key, Group(base, key), Group(head, key));
            d.Some? ==> d.value.key == key && WellKeyed(d.value)
                        && (d.value.base.Some? <==> key in KeySet(base))
                          && (d.value.head.Some? <==> key in KeySet(head))
  {
    hide Group, Signature, ValueSignature;
    GroupFacts(base, key);
    GroupFacts(head, key);
  }

  lemma {:induction false} DeltasUnique(keys: seq<Text>, base: seq<Entry>, head: seq<Entry>)
    requires forall i, j | 0 <= i < j < |keys| :: keys[i] != keys[j]
    ensures UniqueKeys(DeltasOf(keys, base, head))
  {
    hide KeyDelta, Group, KeySet;
    if keys != [] {
      DeltasUnique(keys[1..], base, head);
      var rest := DeltasOf(keys[1..], base, head);
      KeyDeltaWellKeyed(keys[0], base, head);
      forall d | d in rest ensures d.key != keys[0] {
        DeltasMembers(keys[1..], base, head, d);
        var key :| key in keys[1..] && KeyDelta(key, Group(base, key), Group(head, key)) == Some(d);
        KeyDeltaWellKeyed(key, base, head);
      }
    }
  }

  /** The keyed deltas: one per key at most, each well keyed, and precisely those of the keys of either side. */
  lemma KeyedDeltasFacts(base: seq<Entry>, head: seq<Entry>)
    ensures UniqueKeys(KeyedDeltas(base, head)) && forall d | d in KeyedDeltas(base, head) :: WellKeyed(d)
    ensures forall d :: d in KeyedDeltas(base, head)
                   <==> d.key in KeySet(base) + KeySet(head)
                        && KeyDelta(d.key, Group(base, d.key), Group(head, d.key)) == Some(d)
  {
    hide KeyDelta, Group, KeySet, Less;
    LessIsStrictTotal();
    var keys := AllKeys(base, head);
    forall i, j | 0 <= i < j < |keys| ensures keys[i] != keys[j] { assert Less(keys[i], keys[j]); }
    DeltasUnique(keys, base, head);
    forall d ensures d in KeyedDeltas(base, head)
                <==> d.key in KeySet(base) + KeySet(head)
                     && KeyDelta(d.key, Group(base, d.key), Group(head, d.key)) == Some(d)
    {
      DeltasMembers(keys, base, head, d);
      forall key | KeyDelta(key, Group(base, key), Group(head, key)) == Some(d) ensures d.key == key {
        KeyDeltaWellKeyed(key, base, head);
      }
    }
    forall d | d in KeyedDeltas(base, head) ensures WellKeyed(d) {
      KeyDeltaWellKeyed(d.key, base, head);
    }
  }

  // ---- pairing ----

  /** The keys that a delta takes from the base and gives to the head. */
  function BaseKey(d: RawDelta): set<Text> { if d.base.Some? then {d.base.value.key} else {} }
  function HeadKey(d: RawDelta): set<Text> { if d.head.Some? then {d.head.value.key} else {} }
  function Touched(d: RawDelta): set<Text> { BaseKey(d) + HeadKey(d) }

  lemma {:induction false} UnpairedMembers(ds: seq<RawDelta>, all: seq<RawDelta>, d: RawDelta)
    ensures d in Unpaired(ds, all) <==> d in ds && !IsPaired(all, d)
    ensures UniqueKeys(ds) ==> UniqueKeys(Unpaired(ds, all))
  {
    hide IsPaired;
    if ds != [] {
      UnpairedMembers(ds[1..], all, d);
      assert d in ds <==> d == ds[0] || d in ds[1..];
      if UniqueKeys(ds) {
        forall e | e in Unpaired(ds[1..], all) ensures e.key != ds[0].key {
          UnpairedMembers(ds[1..], all, e);
          var j :| 0 <= j < |ds[1..]| && ds[1..][j] == e;
          assert ds[j + 1] == e;
        }
      }
    }
  }

  lemma {:induction false} MergedMembers(ids: seq<Text>, ds: seq<RawDelta>, d: RawDelta)
    ensures d in Merged(ids, ds) <==> exists id :: id in ids && PairedId(ds, id) && Merge(ds, id) == d
  {
    hide PairedId, Merge;
    if ids != [] {
      MergedMembers(ids[1..], ds, d);
      assert forall id :: id in ids <==> id == ids[0] || id in ids[1..];
    }
  }

  /** The two deltas that a paired id merges, and no others have that id. */
  lemma MergeSources(ds: seq<RawDelta>, id: Text)
    requires PairedId(ds, id) && forall d | d in ds :: WellKeyed(d)
    ensures var r, a := TheRemoved(ds, id), TheAdded(ds, id);
            && r in ds && a in ds && Candidate(r) && Candidate(a) && PairId(r) == id == PairId(a)
            && r.change == Removed && a.change == Added
            && Merge(ds, id) == RawDelta(a.key, Hook, Changed, r.base, a.head)
            && BaseKey(Merge(ds, id)) == {r.key} && HeadKey(Merge(ds, id)) == {a.key}
    ensures forall d | d in ds && Candidate(d) && PairId(d) == id :: d == TheRemoved(ds, id) || d == TheAdded(ds, id)
  {
    hide PairId, Sharing;
    var p := PairingOf(ds, id);
    SharingMembers(ds, id, Removed, p.removed[0]);
    SharingMembers(ds, id, Added, p.added[0]);
    assert p.removed[0] in p.removed && p.added[0] in p.added;
    PairMembers(ds, id);
  }

  lemma SameKeySameDelta(ds: seq<RawDelta>, d: RawDelta, e: RawDelta)
    requires UniqueKeys(ds) && d in ds && e in ds
    ensures d.key == e.key ==> d == e
  {
  }

  /** The one delta of the result that a key of the keyed deltas ends up in. */
  function Owner(ds: seq<RawDelta>, d: RawDelta): RawDelta {
    if IsPaired(ds, d) then Merge(ds, PairId(d)) else d
  }

  /** Each result delta that touches the key of d is the owner of d: no delta is consumed twice. */
  lemma TouchingIsOwner(ds: seq<RawDelta>, d: RawDelta, e: RawDelta)
    requires UniqueKeys(ds) && (forall x | x in ds :: WellKeyed(x)) && d in ds
    requires e in PairHooks(ds) && d.key in Touched(e)
    ensures e == Owner(ds, d)
  {
    hide PairId, Sharing, PairedId, Merge, TheRemoved, TheAdded;
    UnpairedMembers(ds, ds, e);
    MergedMembers(Ids(ds), ds, e);
    if e in Unpaired(ds, ds) {
      assert e.key == d.key;
      SameKeySameDelta(ds, d, e);
    } else {
      var id :| id in Ids(ds) && PairedId(ds, id) && Merge(ds, id) == e;
      MergeSources(ds, id);
      SameKeySameDelta(ds, d, TheRemoved(ds, id));
      SameKeySameDelta(ds, d, TheAdded(ds, id));
    }
  }

  lemma OwnerIsResult(ds: seq<RawDelta>, d: RawDelta)
    requires d in ds && forall x | x in ds :: WellKeyed(x)
    ensures Owner(ds, d) in PairHooks(ds) && BaseKey(d) <= BaseKey(Owner(ds, d)) && HeadKey(d) <= HeadKey(Owner(ds, d))
  {
    hide PairId, Sharing, PairedId, Merge, TheRemoved, TheAdded;
    if IsPaired(ds, d) {
      IdsMembers(ds, PairId(d));
      MergedMembers(Ids(ds), ds, Merge(ds, PairId(d)));
      MergeSources(ds, PairId(d));
    } else {
      UnpairedMembers(ds, ds, d);
    }
  }

  /** Every touched key of the result is the key of a keyed delta. */
  lemma ResultSources(ds: seq<RawDelta>, e: RawDelta)
    requires e in PairHooks(ds) && forall x | x in ds :: WellKeyed(x)
    ensures forall k | k in BaseKey(e) :: exists d :: d in ds && d.key == k && k in BaseKey(d)
    ensures forall k | k in HeadKey(e) :: exists d :: d in ds && d.key == k && k in HeadKey(d)
  {
    hide PairId, Sharing, PairedId, Merge, TheRemoved, TheAdded;
    UnpairedMembers(ds, ds, e);
    MergedMembers(Ids(ds), ds, e);
    if e in Unpaired(ds, ds) {
      assert e in ds;
    } else {
      var id :| id in Ids(ds) && PairedId(ds, id) && Merge(ds, id) == e;
      MergeSources(ds, id);
    }
  }

  lemma {:induction false} MergedUnique(ids: seq<Text>, ds: seq<RawDelta>)
    requires UniqueKeys(ds) && (forall x | x in ds :: WellKeyed(x))
    requires forall i, j | 0 <= i < j < |ids| :: ids[i] != ids[j]
    ensures UniqueKeys(Merged(ids, ds))
  {
    hide PairId, Sharing, PairedId, Merge, TheRemoved, TheAdded;
    if ids != [] {
      MergedUnique(ids[1..], ds);
      if PairedId(ds, ids[0]) {
        MergeSources(ds, ids[0]);
        forall e | e in Merged(ids[1..], ds) ensures e.key != Merge(ds, ids[0]).key {
          MergedMembers(ids[1..], ds, e);
          var id :| id in ids[1..] && PairedId(ds, id) && Merge(ds, id) == e;
          MergeSources(ds, id);
          SameKeySameDelta(ds, TheAdded(ds, id), TheAdded(ds, ids[0]));
        }
      }
    }
  }

  /** No two deltas of the result share a key. */
  lemma ResultKeysUnique(ds: seq<RawDelta>)
    requires UniqueKeys(ds) && forall x | x in ds :: WellKeyed(x)
    ensures UniqueKeys(PairHooks(ds))
  {
    hide PairId, Sharing, PairedId, Merge, TheRemoved, TheAdded, IsPaired;
    var kept, merged := Unpaired(ds, ds), Merged(Ids(ds), ds);
    IdsMembers(ds, []);
    MergedUnique(Ids(ds), ds);
    if ds != [] { UnpairedMembers(ds, ds, ds[0]); }
    forall d, e | d in kept && e in merged ensures d.key != e.key {
      UnpairedMembers(ds, ds, d);
      MergedMembers(Ids(ds), ds, e);
      var id :| id in Ids(ds) && PairedId(ds, id) && Merge(ds, id) == e;
      MergeSources(ds, id);
      SameKeySameDelta(ds, d, TheAdded(ds, id));
      PairedByDefinition(ds, TheAdded(ds, id));
    }
  }

  lemma PairedByDefinition(ds: seq<RawDelta>, d: RawDelta)
    requires Candidate(d) && PairedId(ds, PairId(d))
    ensures IsPaired(ds, d)
  {
  }

  // ---- main results ----

  /** A key is touched by some delta exactly when the two sides do not look the same under it. */
  lemma KeyTouchedIff(base: seq<Entry>, head: seq<Entry>, key: Text)
    requires PrintableEntries(base) && PrintableEntries(head)
    ensures (exists d :: d in PairHooks(KeyedDeltas(base, head)) && key in Touched(d))
       <==> VisibleAll(Group(base, key)) != VisibleAll(Group(head, key))
  {
    hide KeyDelta, Group, KeySet, KeyedDeltas, PairHooks, VisibleAll, Owner;
    var ds := KeyedDeltas(base, head);
    KeyedDeltasFacts(base, head);
    KeyDeltaIff(key, base, head);
    KeyDeltaWellKeyed(key, base, head);
    if e :| e in PairHooks(ds) && key in Touched(e) {
      ResultSources(ds, e);
      var d :| d in ds && d.key == key;
    }
    if KeyDelta(key, Group(base, key), Group(head, key)).Some? {
      var d := KeyDelta(key, Group(base, key), Group(head, key)).value;
      DeltaHasSide(key, base, head);
      assert d in ds;
      OwnerIsResult(ds, d);
      assert key in Touched(Owner(ds, d));
    }
  }

  lemma DeltaHasSide(key: Text, base: seq<Entry>, head: seq<Entry>)
    ensures var d := KeyDelta(key, Group(base, key), Group(head, key));
            d.Some? ==> key in KeySet(base) + KeySet(head) && key in Touched(d.value)
  {
    hide Group, Signature, ValueSignature;
    GroupFacts(base, key);
    GroupFacts(head, key);
  }

  /** Deltas have distinct keys, and no key is touched by two of them. */
  lemma DeltasAreDisjoint(base: seq<Entry>, head: seq<Entry>)
    ensures var ds := PairHooks(KeyedDeltas(base, head));
            && UniqueKeys(ds) && forall i, j | 0 <= i < j < |ds| :: Touched(ds[i]) !! Touched(ds[j])
  {
    hide KeyDelta, Group, KeySet, KeyedDeltas, PairHooks, Owner;
    var ks := KeyedDeltas(base, head);
    var ds := PairHooks(ks);
    KeyedDeltasFacts(base, head);
    ResultKeysUnique(ks);
    forall i, j | 0 <= i < j < |ds| ensures Touched(ds[i]) !! Touched(ds[j]) {
      forall k | k in Touched(ds[i]) ensures k !in Touched(ds[j]) {
        ResultSources(ks, ds[i]);
        var d :| d in ks && d.key == k;
        TouchingIsOwner(ks, d, ds[i]);
        assert ds[i].key != ds[j].key;
        if k in Touched(ds[j]) { TouchingIsOwner(ks, d, ds[j]); }
      }
    }
  }

  /** One delta replayed on a set of keys. */
  function Apply(keys: set<Text>, d: RawDelta): set<Text> {
    (keys - BaseKey(d)) + HeadKey(d)
  }

  function Replay(keys: set<Text>, ds: seq<RawDelta>): set<Text>
    decreases |ds|
  {
    if ds == [] then keys else Replay(Apply(keys, ds[0]), ds[1..])
  }

  lemma {:induction false} ReplayUntouched(keys: set<Text>, ds: seq<RawDelta>, k: Text)
    requires forall d | d in ds :: k !in Touched(d)
    ensures k in Replay(keys, ds) <==> k in keys
    decreases |ds|
  {
    if ds != [] {
      assert ds[0] in ds;
      ReplayUntouched(Apply(keys, ds[0]), ds[1..], k);
    }
  }

  lemma {:induction false} ReplayTouched(keys: set<Text>, ds: seq<RawDelta>, i: nat, k: Text)
    requires i < |ds| && k in Touched(ds[i]) && forall j | 0 <= j < |ds| && j != i :: k !in Touched(ds[j])
    ensures k in Replay(keys, ds) <==> k in HeadKey(ds[i])
    decreases |ds|
  {
    if i == 0 {
      forall d | d in ds[1..] ensures k !in Touched(d) {
        var j :| 0 <= j < |ds[1..]| && ds[1..][j] == d;
        assert ds[j + 1] == d;
      }
      ReplayUntouched(Apply(keys, ds[0]), ds[1..], k);
    } else {
      forall j | 0 <= j < |ds[1..]| && j != i - 1 ensures k !in Touched(ds[1..][j]) { assert ds[1..][j] == ds[j + 1]; }
      ReplayTouched(Apply(keys, ds[0]), ds[1..], i - 1, k);
    }
  }

  /** Replaying the deltas, one after the other, turns the keys of the base into the keys of the head. */
  lemma ReplayRebuildsKeys(base: seq<Entry>, head: seq<Entry>)
    ensures Replay(KeySet(base), PairHooks(KeyedDeltas(base, head))) == KeySet(head)
  {
    hide KeyDelta, Group, KeySet, KeyedDeltas, PairHooks, Owner, Replay, Signature, ValueSignature;
    var ks := KeyedDeltas(base, head);
    var ds := PairHooks(ks);
    KeyedDeltasFacts(base, head);
    DeltasAreDisjoint(base, head);
    forall k ensures k in Replay(KeySet(base), ds) <==> k in KeySet(head) {
      KeyDeltaWellKeyed(k, base, head);
      DeltaHasSide(k, base, head);
      if e :| e in ds && k in Touched(e) {
        var i :| 0 <= i < |ds| && ds[i] == e;
        ReplayTouched(KeySet(base), ds, i, k);
        ResultSources(ks, e);
        var d :| d in ks && d.key == k;
        TouchingIsOwner(ks, d, e);
        OwnerIsResult(ks, d);
        HeadKeyIff(ks, e, d);
      } else {
        ReplayUntouched(KeySet(base), ds, k);
        UntouchedSides(base, head, k);
      }
    }
  }

  /** An owner gives its delta's key to the head exactly when the delta does. */
  lemma HeadKeyIff(ds: seq<RawDelta>, e: RawDelta, d: RawDelta)
    requires UniqueKeys(ds) && (forall x | x in ds :: WellKeyed(x)) && d in ds && e in PairHooks(ds)
      && d.key in Touched(e)
    ensures d.key in HeadKey(e) <==> d.head.Some?
  {
    hide PairHooks, Owner;
    TouchingIsOwner(ds, d, e);
    OwnerIsResult(ds, d);
    ResultSources(ds, e);
    if d.key in HeadKey(e) {
      var x :| x in ds && x.key == d.key && d.key in HeadKey(x);
      SameKeySameDelta(ds, d, x);
    }
  }

  lemma UntouchedSides(base: seq<Entry>, head: seq<Entry>, k: Text)
    requires forall e | e in PairHooks(KeyedDeltas(base, head)) :: k !in Touched(e)
    ensures k in KeySet(base) <==> k in KeySet(head)
  {
    hide PairHooks, KeyedDeltas, Owner, Signature, ValueSignature, Group, KeySet;
    var ks := KeyedDeltas(base, head);
    KeyedDeltasFacts(base, head);
    GroupFacts(base, k);
    GroupFacts(head, k);
    var d := KeyDelta(k, Group(base, k), Group(head, k));
    DeltaHasSide(k, base, head);
    if d.Some? {
      KeyDeltaWellKeyed(k, base, head);
      OwnerIsResult(ks, d.value);
    }
  }

  // ---- what a comparison does not see ----

  /** The parts of an entry that a comparison uses: what it shows, and its pointer for the order. */
  function Look(e: Entry): (Semantic, Text) {
    (Visible(e), PointerText(e))
  }

  /** The same entries but for line, commit, text as written and __proto__ members. */
  ghost predicate SameLook(a: seq<Entry>, b: seq<Entry>) {
    |a| == |b| && forall i | 0 <= i < |a| :: Look(a[i]) == Look(b[i])
  }

  lemma LookDecidesOrder(a: Entry, b: Entry, c: Entry, d: Entry)
    requires Look(a) == Look(c) && Look(b) == Look(d)
    ensures EntryBefore(a, b) == EntryBefore(c, d)
  {
    hide DropProto, WithoutRaw;
  }

  lemma {:induction false} InsertSameLook(a: seq<Entry>, b: seq<Entry>, e: Entry, f: Entry)
    requires SameLook(a, b) && Look(e) == Look(f)
    ensures SameLook(Insert(a, e, EntryBefore), Insert(b, f, EntryBefore))
    decreases |a|
  {
    hide Look, EntryBefore;
    if a != [] {
      LookDecidesOrder(e, a[0], f, b[0]);
      InsertSameLook(a[1..], b[1..], e, f);
    }
  }

  lemma {:induction false} SortSameLook(a: seq<Entry>, b: seq<Entry>)
    requires SameLook(a, b)
    ensures SameLook(SortEntries(a), SortEntries(b))
    decreases |a|
  {
    hide Look;
    if a != [] {
      SortSameLook(a[..|a| - 1], b[..|b| - 1]);
      InsertSameLook(SortEntries(a[..|a| - 1]), SortEntries(b[..|b| - 1]), a[|a| - 1], b[|b| - 1]);
    }
  }

  lemma {:induction false} GroupSameLook(a: seq<Entry>, b: seq<Entry>, key: Text)
    requires SameLook(a, b)
    ensures SameLook(GroupOf(a, key), GroupOf(b, key))
    decreases |a|
  {
    hide DropProto, WithoutRaw, PointerText;
    if a != [] {
      assert Look(a[0]) == Look(b[0]);
      GroupSameLook(a[1..], b[1..], key);
    }
  }

  /** Snapshots that differ only in what a comparison does not see have no deltas; nor has a snapshot with itself. */
  lemma UnseenChangesGiveNoDeltas(base: seq<Entry>, head: seq<Entry>)
    requires PrintableEntries(base) && PrintableEntries(head) && SameLook(base, head)
    ensures PairHooks(KeyedDeltas(base, head)) == []
  {
    hide Look, KeyedDeltas, PairHooks, Group, KeySet, Touched, Visible;
    var ks := KeyedDeltas(base, head);
    KeyedDeltasFacts(base, head);
    SortSameLook(base, head);
    forall key ensures VisibleAll(Group(base, key)) == VisibleAll(Group(head, key)) {
      SameLookGroups(base, head, key);
    }
    if ks != [] {
      var d := ks[0];
      assert d in ks;
      KeyDeltaIff(d.key, base, head);
    }
    NothingToPair();
  }

  lemma NothingToPair()
    ensures PairHooks([]) == []
  {
  }

  lemma SameLookGroups(base: seq<Entry>, head: seq<Entry>, key: Text)
    requires SameLook(base, head)
    ensures VisibleAll(Group(base, key)) == VisibleAll(Group(head, key))
  {
    hide Visible;
    SortSameLook(base, head);
    GroupSameLook(SortEntries(base), SortEntries(head), key);
    var b, h := Group(base, key), Group(head, key);
    forall i | 0 <= i < |b| ensures Visible(b[i]) == Visible(h[i]) { assert Look(b[i]) == Look(h[i]); }
  }

  /** A change inside a __proto__ member alone is such a change: the two entries differ and give no delta. */
  lemma ProtoChangeIsMissed(key: Text, file: Text)
    ensures var v, w := Obj(map[PROTO := Bool(true)]), Obj(map[PROTO := Bool(false)]);
            var base := Entry(Sandbox, key, v, file, None, None, None);
            var head := base.(value := w);
            base.value != head.value && PairHooks(KeyedDeltas([base], [head])) == []
  {
    hide KeyedDeltas, PairHooks;
    var v, w := Obj(map[PROTO := Bool(true)]), Obj(map[PROTO := Bool(false)]);
    var base := Entry(Sandbox, key, v, file, None, None, None);
    var head := base.(value := w);
    assert v.members[PROTO] != w.members[PROTO];
    assert |RAW| == 3 && |PROTO| == 9;
    assert WithoutRaw(v) == v && WithoutRaw(w) == w;
    assert DropProto(v) == Obj(map[]) == DropProto(w);
    assert Look(base) == Look(head);
    assert Printable(Bool(true)) && Printable(Bool(false));
    assert Printable(v) && Printable(w);
    assert forall e | e in [base] :: e == base;
    assert forall e | e in [head] :: e == head;
    UnseenChangesGiveNoDeltas([base], [head]);
  }

  // ---- input order ----

  /** Without ties, the sorted arrangement of a multiset of entries is unique. */
  lemma {:induction false} SortedEntriesUnique(a: seq<Entry>, b: seq<Entry>)
    requires Ordered(a) && Ordered(b) && TieFree(a) && multiset(a) == multiset(b)
    ensures a == b
    decreases |a|
  {
    hide EntryBefore, Tied;
    assert |a| == |multiset(a)| == |multiset(b)| == |b|;
    if a != [] {
      FirstEntrySame(a, b);
      HeadTail(a);
      HeadTail(b);
      SortedEntriesUnique(a[1..], b[1..]);
    }
  }

  lemma FirstEntrySame(a: seq<Entry>, b: seq<Entry>)
    requires Ordered(a) && Ordered(b) && TieFree(a) && multiset(a) == multiset(b) && a != [] && b != []
    ensures a[0] == b[0]
  {
    hide EntryBefore, Tied;
    assert a[0] in multiset(b) && b[0] in multiset(a);
    var i :| 0 <= i < |b| && b[i] == a[0];
    var j :| 0 <= j < |a| && a[j] == b[0];
    EntryOrder(a[0], b[0], a[0]);
  }

  /** The result does not depend on the order in which the entries of a side are given, when none tie. */
  lemma InputOrderIsIrrelevant(base: seq<Entry>, head: seq<Entry>, base': seq<Entry>, head': seq<Entry>)
    requires multiset(base) == multiset(base') && multiset(head) == multiset(head') && TieFree(base) && TieFree(head)
    ensures PairHooks(KeyedDeltas(base, head)) == PairHooks(KeyedDeltas(base', head'))
  {
    hide DeltasOf, PairHooks, KeySet, Less;
    SortIgnoresOrder(base, base');
    SortIgnoresOrder(head, head');
    SameDeltas(AllKeys(base, head), base, head, base', head');
  }

  lemma {:induction false} SameDeltas(
    keys: seq<Text>, base: seq<Entry>, head: seq<Entry>, base': seq<Entry>, head': seq<Entry>)
    requires SortEntries(base) == SortEntries(base') && SortEntries(head) == SortEntries(head')
    ensures DeltasOf(keys, base, head) == DeltasOf(keys, base', head')
  {
    hide KeyDelta;
    if keys != [] { SameDeltas(keys[1..], base, head, base', head'); }
  }

  lemma SortIgnoresOrder(a: seq<Entry>, b: seq<Entry>)
    requires multiset(a) == multiset(b) && TieFree(a)
    ensures SortEntries(a) == SortEntries(b) && KeySet(a) == KeySet(b)
  {
    hide EntryBefore, Tied;
    SortSorts(a);
    SortSorts(b);
    assert forall e :: e in a <==> e in multiset(a);
    assert forall e :: e in b <==> e in multiset(b);
    TieFreeArrangement(a, SortEntries(a));
    SortedEntriesUnique(SortEntries(a), SortEntries(b));
  }

  lemma {:induction false} TieFreeArrangement(a: seq<Entry>, b: seq<Entry>)
    requires multiset(a) == multiset(b) && TieFree(a)
    ensures TieFree(b)
    decreases |b|
  {
    hide Tied, Without;
    assert |a| == |multiset(a)| == |multiset(b)| == |b|;
    if b != [] {
      assert b[0] in multiset(a);
      var i :| 0 <= i < |a| && a[i] == b[0];
      MultisetWithout(a, i);
      HeadTail(b);
      var c := Without(a, i);
      TieFreeWithout(a, i);
      TieFreeArrangement(c, b[1..]);
      forall j | 1 <= j < |b| ensures !Tied(b[0], b[j]) {
        assert b[j] == b[1..][j - 1] && b[1..][j - 1] in multiset(c);
        assert b[j] in c;
      }
    }
  }

  lemma TieFreeWithout(a: seq<Entry>, i: nat)
    requires TieFree(a) && i < |a|
    ensures TieFree(Without(a, i)) && forall e | e in Without(a, i) :: !Tied(a[i], e)
  {
    var c := Without(a, i);
    forall k | 0 <= k < |c| ensures c[k] == a[if k < i then k else k + 1] {
    }
    forall k | 0 <= k < |c| ensures !Tied(a[i], c[k]) {
      var j := if k < i then k else k + 1;
      assert if j < i then !Tied(a[j], a[i]) else !Tied(a[i], a[j]);
    }
  }
}
