/** Which hooks a comparison pairs: one that went and one that came, under one event and matcher of one file. */
module HookPairing {
  import opened Texts
  import opened Json
  import opened Entries
  import opened Signatures
  import opened Diff
  import opened DiffTheorems

  // ---- the part of a key before its last part ----

  /** p is the key up to and including its last colon; nothing if it has none. */
  predicate StemOf(p: Text, key: Text) {
    p <= key && COLON !in key[|p|..] && (p == [] || p[|p| - 1] == COLON)
  }

  lemma {:induction false} PrefixIsStem(key: Text)
    ensures StemOf(PrefixOf(key), key)
  {
    if key != [] && key[|key| - 1] != COLON {
      var init := key[..|key| - 1];
      PrefixIsStem(init);
      var p := PrefixOf(init);
      assert key[|p|..] == init[|p|..] + [key[|key| - 1]];
    }
  }

  lemma StemIsLongest(p: Text, q: Text, key: Text)
    requires StemOf(p, key) && StemOf(q, key)
    ensures |q| <= |p|
  {
    assert forall k | |p| <= k < |key| :: key[k] == key[|p|..][k - |p|] != COLON;
    assert q != [] ==> q[|q| - 1] == key[|q| - 1];
  }

  lemma StemUnique(p: Text, q: Text, key: Text)
    requires StemOf(p, key) && StemOf(q, key)
    ensures p == q
  {
    StemIsLongest(p, q, key);
    StemIsLongest(q, p, key);
  }

  lemma StemOfParts(p: Text, s: Text)
    requires COLON !in s
    ensures StemOf(p + [COLON], p + [COLON] + s)
  {
    assert (p + [COLON] + s)[|p + [COLON]|..] == s;
  }

  // ---- which hook deltas go together ----

  /** The file of a delta that has an entry. */
  function FileOf(d: RawDelta): Text
    requires d.base.Some? || d.head.Some?
  {
    if d.head.Some? then d.head.value.file else d.base.value.file
  }

  predicate HasEntry(d: RawDelta) { d.base.Some? || d.head.Some? }

  /** A hook that stands on one side only. */
  predicate OneSided(d: RawDelta) { d.kind == Hook && (d.change == Added || d.change == Removed) && HasEntry(d) }

  /** One stem and one file. */
  ghost predicate SameSlot(d: RawDelta, e: RawDelta)
    requires HasEntry(d) && HasEntry(e)
  {
    FileOf(d) == FileOf(e) && exists p :: StemOf(p, d.key) && StemOf(p, e.key)
  }

  /** A part of d's file, from its start to a bar, is the end of e's stem: stem and file joined by a bar are then one. */
  ghost predicate Crossed(d: RawDelta, e: RawDelta)
    requires HasEntry(d) && HasEntry(e)
  {
    exists p, x :: StemOf(p, d.key) && StemOf(p + [BAR] + x, e.key) && FileOf(d) == x + [BAR] + FileOf(e)
  }

  ghost predicate Akin(d: RawDelta, e: RawDelta)
    requires HasEntry(d) && HasEntry(e)
  {
    SameSlot(d, e) || Crossed(d, e) || Crossed(e, d)
  }

  /** Stem and file joined by a bar are equal exactly for equal parts, or when a bar within a file is taken for the joint. */
  lemma JointsAgree(p: Text, f: Text, q: Text, g: Text)
    ensures p + [BAR] + f == q + [BAR] + g
       <==> || (p == q && f == g)
            || (exists x :: q == p + [BAR] + x && f == x + [BAR] + g)
            || (exists x :: p == q + [BAR] + x && g == x + [BAR] + f)
  {
    if p + [BAR] + f == q + [BAR] + g {
      if |p| <= |q| { Joint(p, f, q, g); } else { Joint(q, g, p, f); }
    }
    forall x | q == p + [BAR] + x && f == x + [BAR] + g ensures p + [BAR] + f == q + [BAR] + g { Shifted(p, x, g); }
    forall x | p == q + [BAR] + x && g == x + [BAR] + f ensures p + [BAR] + f == q + [BAR] + g { Shifted(q, x, f); }
  }

  lemma Shifted(p: Text, x: Text, g: Text)
    ensures p + [BAR] + (x + [BAR] + g) == p + [BAR] + x + [BAR] + g
  {
  }

  lemma Joint(p: Text, f: Text, q: Text, g: Text)
    requires p + [BAR] + f == q + [BAR] + g && |p| <= |q|
    ensures (p == q && f == g) || exists x :: q == p + [BAR] + x && f == x + [BAR] + g
  {
    var s := p + [BAR] + f;
    assert s[..|p|] == p && s[|p| + 1..] == f && s[..|q|] == q && s[|q| + 1..] == g && s[|p|] == BAR == s[|q|];
    if |p| < |q| {
      var x := q[|p| + 1..];
      assert q == p + [BAR] + x;
      assert f == x + [BAR] + g;
    }
  }

  lemma AkinIsPairId(d: RawDelta, e: RawDelta)
    requires Candidate(d) && Candidate(e)
    ensures PairId(d) == PairId(e) <==> Akin(d, e)
  {
    hide PrefixOf;
    PrefixIsStem(d.key);
    PrefixIsStem(e.key);
    var p, q := PrefixOf(d.key), PrefixOf(e.key);
    JointsAgree(p, FileOf(d), q, FileOf(e));
    forall r | StemOf(r, d.key) ensures r == p { StemUnique(r, p, d.key); }
    forall r | StemOf(r, e.key) ensures r == q { StemUnique(r, q, e.key); }
  }

  // ---- which pairs are merged ----

  /** r and a go together, and no other one-sided hook goes with them. */
  ghost predicate OnlyPair(ds: seq<RawDelta>, r: RawDelta, a: RawDelta) {
    && r in ds && a in ds && OneSided(r) && OneSided(a) && r.change == Removed && a.change == Added && Akin(r, a)
    && forall e | e in ds && OneSided(e) && Akin(r, e) :: e == r || e == a
  }

  /** The one changed delta that stands for both. */
  function Joined(r: RawDelta, a: RawDelta): RawDelta {
    RawDelta(a.key, Hook, Changed, r.base, a.head)
  }

  lemma OneSidedIsCandidate(d: RawDelta)
    ensures OneSided(d) <==> Candidate(d)
  {
  }

  lemma {:induction false} SharingUnique(ds: seq<RawDelta>, id: Text, change: Change)
    requires UniqueKeys(ds)
    ensures UniqueKeys(Sharing(ds, id, change))
  {
    hide PairId, Candidate;
    if ds != [] {
      SharingUnique(ds[1..], id, change);
      forall d | d in Sharing(ds[1..], id, change) ensures d.key != ds[0].key {
        SharingMembers(ds[1..], id, change, d);
        var j :| 0 <= j < |ds[1..]| && ds[1..][j] == d;
        assert ds[j + 1] == d;
      }
    }
  }

  lemma OneShares(ds: seq<RawDelta>, id: Text, change: Change, d: RawDelta)
    requires UniqueKeys(ds) && d in ds && Candidate(d) && PairId(d) == id && d.change == change
    requires forall e | e in ds && Candidate(e) && PairId(e) == id && e.change == change :: e == d
    ensures Sharing(ds, id, change) == [d]
  {
    hide PairId, Candidate;
    var s := Sharing(ds, id, change);
    SharingUnique(ds, id, change);
    SharingMembers(ds, id, change, d);
    forall i | 0 <= i < |s| ensures s[i] == d {
      assert s[i] in s;
      SharingMembers(ds, id, change, s[i]);
    }
    assert |s| > 1 ==> s[0].key != s[1].key;
  }

  /** A pair that is alone is merged. */
  lemma PairMerges(ds: seq<RawDelta>, r: RawDelta, a: RawDelta)
    requires UniqueKeys(ds) && OnlyPair(ds, r, a)
    ensures IsPaired(ds, r) && IsPaired(ds, a) && PairId(r) == PairId(a) && Merge(ds, PairId(r)) == Joined(r, a)
  {
    hide PairId, Sharing, Akin, Candidate;
    forall d ensures OneSided(d) <==> Candidate(d) { OneSidedIsCandidate(d); }
    forall e | e in ds && Candidate(e) ensures PairId(r) == PairId(e) <==> Akin(r, e) { AkinIsPairId(r, e); }
    OneShares(ds, PairId(r), Removed, r);
    OneShares(ds, PairId(r), Added, a);
  }

  /** Whatever is merged is such a pair. */
  lemma MergeIsPair(ds: seq<RawDelta>, id: Text)
    requires UniqueKeys(ds) && (forall d | d in ds :: WellKeyed(d)) && PairedId(ds, id)
    ensures var r, a := TheRemoved(ds, id), TheAdded(ds, id);
            OnlyPair(ds, r, a) && Merge(ds, id) == Joined(r, a)
    ensures forall d | d in ds && Candidate(d) && PairId(d) == id :: d == TheRemoved(ds, id) || d == TheAdded(ds, id)
  {
    hide PairId, Sharing, Akin, Candidate, TheRemoved, TheAdded, Merge;
    MergeSources(ds, id);
    var r, a := TheRemoved(ds, id), TheAdded(ds, id);
    forall d ensures OneSided(d) <==> Candidate(d) { OneSidedIsCandidate(d); }
    forall e | e in ds && Candidate(e) ensures PairId(r) == PairId(e) <==> Akin(r, e) { AkinIsPairId(r, e); }
  }

  /** d is one of two that are merged. */
  ghost predicate InPair(ds: seq<RawDelta>, d: RawDelta) {
    exists r, a :: OnlyPair(ds, r, a) && (d == r || d == a)
  }

  /** What pairing gives: each pair that is alone as one change, everything else as it was, and nothing more. */
  lemma PairsExactly(ds: seq<RawDelta>, e: RawDelta)
    requires UniqueKeys(ds) && forall d | d in ds :: WellKeyed(d)
    ensures e in PairHooks(ds)
       <==> (e in ds && !InPair(ds, e)) || exists r, a :: OnlyPair(ds, r, a) && e == Joined(r, a)
  {
    hide PairId, Sharing, Candidate, TheRemoved, TheAdded, Merge, OnlyPair, PairedId, IsPaired;
    UnpairedMembers(ds, ds, e);
    MergedMembers(Ids(ds), ds, e);
    if e in ds { PairedIffInPair(ds, e); }
    if id :| id in Ids(ds) && PairedId(ds, id) && Merge(ds, id) == e { MergeIsPair(ds, id); }
    if r, a :| OnlyPair(ds, r, a) && e == Joined(r, a) {
      PairMerges(ds, r, a);
      PairHasId(ds, r, a);
    }
  }

  lemma PairedIffInPair(ds: seq<RawDelta>, d: RawDelta)
    requires UniqueKeys(ds) && (forall e | e in ds :: WellKeyed(e)) && d in ds
    ensures IsPaired(ds, d) <==> InPair(ds, d)
  {
    hide PairId, Sharing, Candidate, TheRemoved, TheAdded, Merge, OnlyPair, PairedId;
    if IsPaired(ds, d) {
      MergeIsPair(ds, PairId(d));
    }
    if r, a :| OnlyPair(ds, r, a) && (d == r || d == a) { PairMerges(ds, r, a); }
  }

  lemma PairHasId(ds: seq<RawDelta>, r: RawDelta, a: RawDelta)
    requires OnlyPair(ds, r, a) && IsPaired(ds, r)
    ensures PairId(r) in Ids(ds) && PairedId(ds, PairId(r))
  {
    hide PairId, Sharing, Akin;
    IdsMembers(ds, PairId(r));
  }

  /** Two that go together have one stem and one file, unless a bar within a file is taken for the joint. */
  lemma AkinAgreeIff(d: RawDelta, e: RawDelta)
    requires HasEntry(d) && HasEntry(e) && Akin(d, e)
    ensures SameSlot(d, e) <==> !Crossed(d, e) && !Crossed(e, d)
  {
    if SameSlot(d, e) {
      var p :| StemOf(p, d.key) && StemOf(p, e.key);
      forall q | StemOf(q, d.key) || StemOf(q, e.key) ensures q == p {
        if StemOf(q, d.key) { StemUnique(p, q, d.key); } else { StemUnique(p, q, e.key); }
      }
      assert forall q, x: Text :: |q + [BAR] + x| > |q|;
    }
  }

  // ---- the comparison of two snapshots ----

  /** No bar stands right after a colon. */
  predicate Plain(file: Text) {
    forall i | 0 < i < |file| :: !(file[i - 1] == COLON && file[i] == BAR)
  }

  ghost predicate PlainFiles(es: seq<Entry>) {
    forall e | e in es :: Plain(e.file)
  }

  /** The key is p, a colon, and a part without colons. */
  ghost predicate HasForm(key: Text, p: Text) {
    exists s :: COLON !in s && key == p + [COLON] + s
  }

  /** The first side has, under the key, a hook of the form and file, and the second has nothing. */
  ghost predicate Went(base: seq<Entry>, head: seq<Entry>, key: Text, p: Text, file: Text) {
    && HasForm(key, p) && Group(head, key) == []
    && Group(base, key) != [] && Group(base, key)[0].kind == Hook && Group(base, key)[0].file == file
  }

  /** Of one form and file, k alone went and l alone came. */
  ghost predicate Replaced(base: seq<Entry>, head: seq<Entry>, p: Text, file: Text, k: Text, l: Text) {
    && Went(base, head, k, p, file) && (forall x | Went(base, head, x, p, file) :: x == k)
    && Went(head, base, l, p, file) && (forall x | Went(head, base, x, p, file) :: x == l)
  }

  function RemovedDelta(base: seq<Entry>, key: Text): RawDelta
    requires Group(base, key) != []
  {
    RawDelta(key, Hook, Removed, Some(Group(base, key)[0]), None)
  }

  function AddedDelta(head: seq<Entry>, key: Text): RawDelta
    requires Group(head, key) != []
  {
    RawDelta(key, Hook, Added, None, Some(Group(head, key)[0]))
  }

  lemma FormIsStem(key: Text, p: Text)
    ensures HasForm(key, p) <==> StemOf(p + [COLON], key)
  {
    if s :| COLON !in s && key == p + [COLON] + s { StemOfParts(p, s); }
    if StemOf(p + [COLON], key) { assert key == p + [COLON] + key[|p| + 1..]; }
  }

  /** The one-sided deltas of a comparison. */
  lemma OneSidedDeltas(base: seq<Entry>, head: seq<Entry>, d: RawDelta)
    ensures d in KeyedDeltas(base, head) && OneSided(d)
       <==> || (Group(head, d.key) == [] && Group(base, d.key) != [] && Group(base, d.key)[0].kind == Hook
                && d == RemovedDelta(base, d.key))
            || (Group(base, d.key) == [] && Group(head, d.key) != [] && Group(head, d.key)[0].kind == Hook
                && d == AddedDelta(head, d.key))
  {
    hide Group, Signature, ValueSignature, KeyedDeltas, KeySet;
    KeyedDeltasFacts(base, head);
    GroupFacts(base, d.key);
    GroupFacts(head, d.key);
  }

  lemma GroupFiles(es: seq<Entry>, key: Text)
    requires PlainFiles(es) && Group(es, key) != []
    ensures Plain(Group(es, key)[0].file)
  {
    hide Group, Plain;
    GroupFacts(es, key);
    assert Group(es, key)[0] in Group(es, key);
  }

  lemma PlainIsNotCrossed(d: RawDelta, e: RawDelta)
    requires HasEntry(d) && HasEntry(e) && Plain(FileOf(d))
    ensures !Crossed(d, e)
  {
    if Crossed(d, e) {
      var p, x :| StemOf(p, d.key) && StemOf(p + [BAR] + x, e.key) && FileOf(d) == x + [BAR] + FileOf(e);
      BarInFile(p, x, FileOf(e));
      assert false;
    }
  }

  lemma BarInFile(p: Text, x: Text, f: Text)
    requires (p + [BAR] + x)[|p + [BAR] + x| - 1] == COLON
    ensures !Plain(x + [BAR] + f)
  {
    var q, file := p + [BAR] + x, x + [BAR] + f;
    assert q[|q| - 1] == if x == [] then BAR else x[|x| - 1];
    assert q[|q| - 1] == file[|x| - 1] && file[|x|] == BAR;
  }

  /** Without such files, the one-sided hooks that go with one of the form and file are those of the form and file. */
  lemma AkinHaveForm(base: seq<Entry>, head: seq<Entry>, p: Text, file: Text, d: RawDelta, e: RawDelta)
    requires PlainFiles(base) && PlainFiles(head)
    requires d in KeyedDeltas(base, head) && OneSided(d) && HasForm(d.key, p) && FileOf(d) == file
    requires e in KeyedDeltas(base, head) && OneSided(e)
    ensures Akin(d, e) <==> HasForm(e.key, p) && FileOf(e) == file
  {
    hide KeyedDeltas, Group, StemOf, Crossed, HasForm, Plain;
    OneSidedDeltas(base, head, d);
    OneSidedDeltas(base, head, e);
    if d.change == Removed { GroupFiles(base, d.key); } else { GroupFiles(head, d.key); }
    if e.change == Removed { GroupFiles(base, e.key); } else { GroupFiles(head, e.key); }
    PlainIsNotCrossed(d, e);
    PlainIsNotCrossed(e, d);
    FormIsStem(d.key, p);
    FormIsStem(e.key, p);
    if q :| StemOf(q, d.key) && StemOf(q, e.key) { StemUnique(q, p + [COLON], d.key); }
  }

  lemma ReplacedIsPair(base: seq<Entry>, head: seq<Entry>, p: Text, file: Text, k: Text, l: Text)
    requires PlainFiles(base) && PlainFiles(head) && Went(base, head, k, p, file) && Went(head, base, l, p, file)
    ensures OnlyPair(KeyedDeltas(base, head), RemovedDelta(base, k), AddedDelta(head, l))
       <==> Replaced(base, head, p, file, k, l)
  {
    hide KeyedDeltas, Group, HasForm, PlainFiles, Akin;
    var ds, r, a := KeyedDeltas(base, head), RemovedDelta(base, k), AddedDelta(head, l);
    OneSidedDeltas(base, head, r);
    OneSidedDeltas(base, head, a);
    AkinHaveForm(base, head, p, file, r, a);
    if Replaced(base, head, p, file, k, l) {
      forall e | e in ds && OneSided(e) && Akin(r, e) ensures e == r || e == a {
        OneSidedDeltas(base, head, e);
        AkinHaveForm(base, head, p, file, r, e);
        assert e.change == Removed ==> Went(base, head, e.key, p, file);
        assert e.change == Added ==> Went(head, base, e.key, p, file);
      }
    }
    if OnlyPair(ds, r, a) {
      forall x | Went(base, head, x, p, file) ensures x == k {
        OneSidedDeltas(base, head, RemovedDelta(base, x));
        AkinHaveForm(base, head, p, file, r, RemovedDelta(base, x));
      }
      forall x | Went(head, base, x, p, file) ensures x == l {
        OneSidedDeltas(base, head, AddedDelta(head, x));
        AkinHaveForm(base, head, p, file, r, AddedDelta(head, x));
      }
    }
  }

  /**
   * Hooks of one form and file: if one alone went and one alone came, they are one change; with any other counts each
   * stays removed or added.
   */
  lemma HooksPair(base: seq<Entry>, head: seq<Entry>, p: Text, file: Text, k: Text, l: Text)
    requires PlainFiles(base) && PlainFiles(head)
    ensures var result := PairHooks(KeyedDeltas(base, head));
            && (Replaced(base, head, p, file, k, l) ==>
                  RawDelta(l, Hook, Changed, Some(Group(base, k)[0]), Some(Group(head, l)[0])) in result)
            && (Went(base, head, k, p, file) ==>
                  (RemovedDelta(base, k) in result <==> !exists m :: Replaced(base, head, p, file, k, m)))
            && (Went(head, base, l, p, file) ==>
                  (AddedDelta(head, l) in result <==> !exists m :: Replaced(base, head, p, file, m, l)))
  {
    hide KeyedDeltas, Group, PlainFiles, Akin, PairHooks, Went, Replaced, OnlyPair, InPair;
    KeyedDeltasFacts(base, head);
    if Replaced(base, head, p, file, k, l) { ReplacedPairs(base, head, p, file, k, l); }
    if Went(base, head, k, p, file) { WentStays(base, head, p, file, k); }
    if Went(head, base, l, p, file) { CameStays(base, head, p, file, l); }
  }

  lemma ReplacedPairs(base: seq<Entry>, head: seq<Entry>, p: Text, file: Text, k: Text, l: Text)
    requires PlainFiles(base) && PlainFiles(head) && Replaced(base, head, p, file, k, l)
    ensures Group(base, k) != [] && Group(head, l) != []
    ensures RawDelta(l, Hook, Changed, Some(Group(base, k)[0]), Some(Group(head, l)[0]))
         in PairHooks(KeyedDeltas(base, head))
  {
    hide KeyedDeltas, Group, PlainFiles, PairHooks, HasForm, OnlyPair;
    KeyedDeltasFacts(base, head);
    ReplacedIsPair(base, head, p, file, k, l);
    PairsExactly(KeyedDeltas(base, head), Joined(RemovedDelta(base, k), AddedDelta(head, l)));
  }

  lemma WentStays(base: seq<Entry>, head: seq<Entry>, p: Text, file: Text, k: Text)
    requires PlainFiles(base) && PlainFiles(head) && Went(base, head, k, p, file)
    ensures RemovedDelta(base, k) in PairHooks(KeyedDeltas(base, head))
       <==> !exists m :: Replaced(base, head, p, file, k, m)
  {
    hide KeyedDeltas, Group, PlainFiles, PairHooks, HasForm, Akin, Replaced;
    var ds, r := KeyedDeltas(base, head), RemovedDelta(base, k);
    KeyedDeltasFacts(base, head);
    OneSidedDeltas(base, head, r);
    PairsExactly(ds, r);
    if x, a :| OnlyPair(ds, x, a) && (r == x || r == a) {
      OneSidedDeltas(base, head, a);
      AkinHaveForm(base, head, p, file, r, a);
      ReplacedIsPair(base, head, p, file, k, a.key);
    }
    if m :| Replaced(base, head, p, file, k, m) {
      ReplacedCame(base, head, p, file, k, m);
      ReplacedIsPair(base, head, p, file, k, m);
    }
  }

  lemma CameStays(base: seq<Entry>, head: seq<Entry>, p: Text, file: Text, l: Text)
    requires PlainFiles(base) && PlainFiles(head) && Went(head, base, l, p, file)
    ensures AddedDelta(head, l) in PairHooks(KeyedDeltas(base, head))
       <==> !exists m :: Replaced(base, head, p, file, m, l)
  {
    hide KeyedDeltas, Group, PlainFiles, PairHooks, HasForm, Akin, Replaced;
    var ds, a := KeyedDeltas(base, head), AddedDelta(head, l);
    KeyedDeltasFacts(base, head);
    OneSidedDeltas(base, head, a);
    PairsExactly(ds, a);
    if r, x :| OnlyPair(ds, r, x) && (a == r || a == x) {
      OneSidedDeltas(base, head, r);
      AkinSymmetric(r, a);
      AkinHaveForm(base, head, p, file, a, r);
      ReplacedIsPair(base, head, p, file, r.key, l);
    }
    if m :| Replaced(base, head, p, file, m, l) {
      ReplacedCame(base, head, p, file, m, l);
      ReplacedIsPair(base, head, p, file, m, l);
    }
  }

  lemma AkinSymmetric(d: RawDelta, e: RawDelta)
    requires HasEntry(d) && HasEntry(e)
    ensures Akin(d, e) <==> Akin(e, d)
  {
    hide StemOf, Crossed;
  }

  lemma ReplacedCame(base: seq<Entry>, head: seq<Entry>, p: Text, file: Text, k: Text, l: Text)
    requires Replaced(base, head, p, file, k, l)
    ensures Went(base, head, k, p, file) && Went(head, base, l, p, file)
  {
  }

  /** A change between two keys is of hooks of one form and one file. */
  lemma PairedHooksAgree(
    base: seq<Entry>, head: seq<Entry>, d: RawDelta, p: Text, q: Text, s: Text, t: Text)
    requires PlainFiles(base) && PlainFiles(head) && d in PairHooks(KeyedDeltas(base, head))
    requires d.base.Some? && d.head.Some? && d.base.value.key != d.head.value.key
    requires d.base.value.key == p + [COLON] + s && d.head.value.key == q + [COLON] + t && COLON !in s && COLON !in t
    ensures p == q && d.base.value.file == d.head.value.file && d.kind == Hook && d.change == Changed
  {
    hide KeyedDeltas, PlainFiles, PairHooks, Akin, StemOf, Group;
    var ds := KeyedDeltas(base, head);
    KeyedDeltasFacts(base, head);
    PairsExactly(ds, d);
    if d !in ds {
      var r, a :| OnlyPair(ds, r, a) && d == Joined(r, a);
      assert WellKeyed(r) && WellKeyed(a);
      assert HasForm(r.key, p) && HasForm(a.key, q);
      AkinHaveForm(base, head, p, FileOf(r), r, a);
      FormIsStem(a.key, p);
      FormIsStem(a.key, q);
      StemUnique(p + [COLON], q + [COLON], a.key);
      assert (p + [COLON])[..|p|] == p && (q + [COLON])[..|q|] == q;
    }
  }

  /** A file with a bar after a colon, and a matcher to go with it: hooks of two files and two matchers are paired. */
  lemma BarsPairAcrossFiles()
    ensures var e := Entry(Hook, Ascii("hook:E::s"), Null, Ascii("b:|c"), None, None, None);
            var f := Entry(Hook, Ascii("hook:E::|b:t"), Null, Ascii("c"), None, None, None);
            PairHooks(KeyedDeltas([e], [f])) == [RawDelta(f.key, Hook, Changed, Some(e), Some(f))]
  {
    hide KeyedDeltas, PairHooks, Ascii;
    var e := Entry(Hook, Ascii("hook:E::s"), Null, Ascii("b:|c"), None, None, None);
    var f := Entry(Hook, Ascii("hook:E::|b:t"), Null, Ascii("c"), None, None, None);
    var r := RawDelta(e.key, Hook, Removed, Some(e), None);
    var a := RawDelta(f.key, Hook, Added, None, Some(f));
    var result := PairHooks(KeyedDeltas([e], [f]));
    TwoHooks(e, f);
    BarsCross(r, a);
    var ds := KeyedDeltas([e], [f]);
    KeyedDeltasFacts([e], [f]);
    assert OnlyPair(ds, r, a);
    ResultKeysUnique(ds);
    assert |result| > 1 ==> result[0].key != result[1].key;
    forall d ensures d in result <==> d == Joined(r, a) {
      PairsExactly(ds, d);
      if d in ds { assert InPair(ds, d); }
      forall x, y | OnlyPair(ds, x, y) ensures x == r && y == a {
        assert x.change == Removed && y.change == Added;
      }
    }
    assert Joined(r, a) in result;
    assert forall i | 0 <= i < |result| :: result[i] in result;
  }

  lemma BarsCross(r: RawDelta, a: RawDelta)
    requires r.key == Ascii("hook:E::s") && a.key == Ascii("hook:E::|b:t") && HasEntry(r) && HasEntry(a)
    requires FileOf(r) == Ascii("b:|c") && FileOf(a) == Ascii("c")
    ensures Akin(r, a) && r.key != a.key
  {
    var p, x := Ascii("hook:E::"), Ascii("b:");
    assert StemOf(p, r.key) by {
      assert r.key[|p|..] == Ascii("s");
      assert Ascii("s")[0] != COLON;
    }
    assert p + [BAR] + x == Ascii("hook:E::|b:");
    assert StemOf(p + [BAR] + x, a.key) by {
      assert a.key[|p + [BAR] + x|..] == Ascii("t");
      assert Ascii("t")[0] != COLON;
    }
    assert FileOf(r) == x + [BAR] + FileOf(a);
  }

  lemma TwoHooks(e: Entry, f: Entry)
    requires e.kind == Hook == f.kind && e.key != f.key
    ensures forall d :: d in KeyedDeltas([e], [f])
                   <==> || d == RawDelta(e.key, Hook, Removed, Some(e), None)
                        || d == RawDelta(f.key, Hook, Added, None, Some(f))
  {
    hide KeyedDeltas, Group, Signature, ValueSignature;
    KeyedDeltasFacts([e], [f]);
    SingleGroup(e, e.key);
    SingleGroup(e, f.key);
    SingleGroup(f, e.key);
    SingleGroup(f, f.key);
    assert forall key :: key in KeySet([e]) + KeySet([f]) <==> key == e.key || key == f.key;
  }

  lemma SingleGroup(e: Entry, key: Text)
    ensures Group([e], key) == if e.key == key then [e] else []
    ensures KeySet([e]) == {e.key}
  {
    assert [e][..0] == [];
    assert SortEntries([e]) == [e] by { assert SortEntries([]) == []; }
    assert [e][1..] == [] && GroupOf([], key) == [];
    assert forall x | x in [e] :: x == e;
    assert e in [e];
  }
}
