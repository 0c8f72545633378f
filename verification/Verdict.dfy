/** What a list of classified deltas amounts to: a label, the categories, an exit code. */
module Verdict {
  import opened Texts
  import opened Diff
  import opened Direction
  import opened Stable
  import Sorting

  const EXIT_OK: nat := 0
  const EXIT_EXPANDS: nat := 1
  const EXIT_ANNOTATE: nat := 2
  const EXIT_INCOMPLETE: nat := 3

  /** A classified delta, as far as the verdict looks at it. */
  datatype Delta = Delta(
    key: Text, change: Change, way: Way, tier: Tier, breadthTier: Option<Tier>, category: Option<Category>,
    breadthUnresolved: bool)

  // ---- --fail-on ----

  const ALL_CATEGORIES: set<Category> :=
    {HookCategory, McpCategory, ModeCategory, WholeToolAllow, DirectoryCategory, HooksReenabledCategory,
     DenyRemovedCategory, EnvCategory, ScopedAllow}

  const DEFAULT_FAILING: set<Category> := ALL_CATEGORIES - {ScopedAllow}

  function CategoryName(c: Category): Text {
    match c
    case HookCategory => Ascii("hook")
    case McpCategory => Ascii("mcp")
    case ModeCategory => Ascii("mode")
    case WholeToolAllow => Ascii("whole-tool-allow")
    case DirectoryCategory => Ascii("directory")
    case HooksReenabledCategory => Ascii("hooks-reenabled")
    case DenyRemovedCategory => Ascii("deny-removed")
    case EnvCategory => Ascii("env")
    case ScopedAllow => Ascii("scoped-allow")
  }

  const PROJECTED_NAME: Text := Ascii("projected")

  /** The failing categories, and whether projected widenings fail too. */
  datatype FailOn = FailOn(categories: set<Category>, projected: bool)

  predicate IsFailName(name: Text) {
    name == PROJECTED_NAME || exists c | c in ALL_CATEGORIES :: CategoryName(c) == name
  }

  /** None for a name that is not known. */
  function ResolveFailOn(names: seq<Text>): Option<FailOn> {
    if exists name | name in names :: !IsFailName(name) then None
    else
      var named := set c | c in ALL_CATEGORIES && CategoryName(c) in names;
      Some(FailOn(if named == {} then DEFAULT_FAILING else named, PROJECTED_NAME in names))
  }

  lemma AllCategories(c: Category)
    ensures c in ALL_CATEGORIES
  {
  }

  /** Known names resolve; categories that are named replace the default set, and naming none but projected keeps it. */
  lemma NamesResolve(names: seq<Text>)
    ensures ResolveFailOn(names).Some? <==> forall name | name in names :: IsFailName(name)
    ensures ResolveFailOn(names).Some? ==>
      var r := ResolveFailOn(names).value;
      && (r.projected <==> PROJECTED_NAME in names)
      && (if forall name | name in names :: name == PROJECTED_NAME then r.categories == DEFAULT_FAILING
          else forall c :: c in r.categories <==> CategoryName(c) in names)
  {
    hide CategoryName;
    forall c: Category ensures c in ALL_CATEGORIES { AllCategories(c); }
    if ResolveFailOn(names).Some? {
      ProjectedIsNoCategory();
      var named := set c | c in ALL_CATEGORIES && CategoryName(c) in names;
      forall name | name in names && name != PROJECTED_NAME ensures named != {} {
        assert IsFailName(name);
        var c :| c in ALL_CATEGORIES && CategoryName(c) == name;
        assert c in named;
      }
      if forall name | name in names :: name == PROJECTED_NAME {
        assert named == {};
      }
    }
  }

  lemma ProjectedIsNoCategory()
    ensures forall c: Category :: CategoryName(c) != PROJECTED_NAME
  {
    forall c: Category ensures CategoryName(c) != PROJECTED_NAME {
      assert |PROJECTED_NAME| == 9 && PROJECTED_NAME[0] == 0x70;
      if c == DirectoryCategory { assert CategoryName(c)[0] == 0x64; }
    }
  }

  // ---- deltas ----

  predicate IsUndecided(d: Delta) { d.tier != Proven || d.breadthUnresolved }

  predicate IsProjectedWidening(d: Delta) {
    d.way == Widens && (d.tier == Projected || d.breadthTier == Some(Projected))
  }

  predicate IsProvenFailing(d: Delta, failOn: FailOn) {
    d.way == Widens && d.tier == Proven && d.category.Some? && d.category.value in failOn.categories
  }

  function Filter(ds: seq<Delta>, keep: Delta -> bool): seq<Delta> {
    if ds == [] then [] else (if keep(ds[0]) then [ds[0]] else []) + Filter(ds[1..], keep)
  }

  lemma {:induction false} FilterMembers(ds: seq<Delta>, keep: Delta -> bool)
    ensures forall d :: d in Filter(ds, keep) <==> d in ds && keep(d)
  {
    if ds != [] {
      FilterMembers(ds[1..], keep);
      assert forall d :: d in ds <==> d == ds[0] || d in ds[1..];
    }
  }

  // ---- the lists of a diff ----

  datatype Lists = Lists(added: seq<Delta>, removed: seq<Delta>, changed: seq<Delta>, unresolved: seq<Delta>)

  predicate KeyBefore(a: Delta, b: Delta) { Less(a.key, b.key) }

  predicate IsDecided(d: Delta) { !IsUndecided(d) }
  predicate IsAdded(d: Delta) { d.change == Added }
  predicate IsRemoved(d: Delta) { d.change == Removed }
  predicate IsChanged(d: Delta) { d.change == Changed || d.change == Moved }

  /** The deltas, parted into what is undecided and, by change, what is decided; each list sorted by key. */
  function Partition(ds: seq<Delta>): Lists {
    var decided := Filter(ds, IsDecided);
    Lists(
      SortBy(Filter(decided, IsAdded), KeyBefore),
      SortBy(Filter(decided, IsRemoved), KeyBefore),
      SortBy(Filter(decided, IsChanged), KeyBefore),
      SortBy(Filter(ds, IsUndecided), KeyBefore))
  }

  function All(lists: Lists): seq<Delta> { lists.added + lists.removed + lists.changed + lists.unresolved }

  lemma KeyOrderIsWeak()
    ensures WeakOrder(KeyBefore)
  {
    hide Less;
    Sorting.LessIsWeak();
    forall a, b, c | KeyBefore(a, b) ensures KeyBefore(a, c) || KeyBefore(c, b) {
      assert Less(a.key, c.key) || Less(c.key, b.key);
    }
    forall a, b | KeyBefore(a, b) ensures !KeyBefore(b, a) {
      assert !Less(b.key, a.key);
    }
  }

  lemma {:induction false} FilterSplits(ds: seq<Delta>, keep: Delta -> bool, rest: Delta -> bool)
    requires forall d :: keep(d) <==> !rest(d)
    ensures multiset(Filter(ds, keep)) + multiset(Filter(ds, rest)) == multiset(ds)
  {
    if ds != [] {
      FilterSplits(ds[1..], keep, rest);
      assert ds == [ds[0]] + ds[1..];
    }
  }

  lemma {:induction false} FilterThreeWays(ds: seq<Delta>, p: Delta -> bool, q: Delta -> bool, r: Delta -> bool)
    requires forall d :: (p(d) && !q(d) && !r(d)) || (!p(d) && q(d) && !r(d)) || (!p(d) && !q(d) && r(d))
    ensures multiset(Filter(ds, p)) + multiset(Filter(ds, q)) + multiset(Filter(ds, r)) == multiset(ds)
  {
    if ds != [] {
      FilterThreeWays(ds[1..], p, q, r);
      assert ds == [ds[0]] + ds[1..];
    }
  }

  /** Every delta is in exactly one of the lists, as often as it was given. */
  lemma PartitionConserves(ds: seq<Delta>)
    ensures multiset(All(Partition(ds))) == multiset(ds)
    ensures forall d :: d in Partition(ds).unresolved <==> d in ds && IsUndecided(d)
  {
    hide SortBy, IsUndecided;
    KeyOrderIsWeak();
    FilterSplits(ds, IsDecided, IsUndecided);
    var decided := Filter(ds, IsDecided);
    FilterThreeWays(decided, IsAdded, IsRemoved, IsChanged);
    SortBySorts(Filter(decided, IsAdded), KeyBefore);
    SortBySorts(Filter(decided, IsRemoved), KeyBefore);
    SortBySorts(Filter(decided, IsChanged), KeyBefore);
    SortBySorts(Filter(ds, IsUndecided), KeyBefore);
    FilterMembers(ds, IsUndecided);
    var lists := Partition(ds);
    assert multiset(All(lists))
        == multiset(lists.added) + multiset(lists.removed) + multiset(lists.changed) + multiset(lists.unresolved);
  }

  // ---- the verdict ----

  datatype Label = IncompleteScan | Expands | Undecided | NoChange | Pass

  datatype Judgement = Judgement(expands: bool, categories: set<Category>, outcome: Label, exit: nat)

  ghost predicate SomeExpansion(ds: seq<Delta>, failOn: FailOn) { exists d :: d in ds && IsProvenFailing(d, failOn) }

  ghost predicate SomeFailure(ds: seq<Delta>, failOn: FailOn) {
    SomeExpansion(ds, failOn) || (failOn.projected && exists d :: d in ds && IsProjectedWidening(d))
  }

  ghost predicate SomeUndecided(ds: seq<Delta>) { exists d :: d in ds && IsUndecided(d) }

  /** What the exit code documents: 3 incomplete, 1 expansion or strictly undecided, 2 undecided, 0 otherwise. */
  ghost function ExitOf(ds: seq<Delta>, incomplete: nat, failOn: FailOn, strict: bool): nat {
    if incomplete > 0 then EXIT_INCOMPLETE
    else if SomeFailure(ds, failOn) then EXIT_EXPANDS
    else if SomeUndecided(ds) then if strict then EXIT_EXPANDS else EXIT_ANNOTATE
    else EXIT_OK
  }

  /** computeVerdict as it runs, over the deltas of all lists. */
  method ComputeVerdict(lists: Lists, incomplete: nat, failOn: FailOn, strict: bool) returns (v: Judgement)
    ensures v.exit == ExitOf(All(lists), incomplete, failOn, strict)
    ensures v.expands <==> SomeExpansion(All(lists), failOn)
    ensures forall c :: c in v.categories <==> exists d :: d in All(lists) && d.way == Widens && d.category == Some(c)
    ensures v.outcome == NoChange <==> incomplete == 0 && All(lists) == []
    ensures v.outcome == IncompleteScan <==> incomplete > 0
    ensures v.outcome == Expands <==> incomplete == 0 && SomeFailure(All(lists), failOn)
    ensures v.outcome == Undecided
       <==> incomplete == 0 && !SomeFailure(All(lists), failOn) && SomeUndecided(All(lists))
    ensures v.outcome == Pass
       <==> && incomplete == 0 && All(lists) != []
            && !SomeFailure(All(lists), failOn) && !SomeUndecided(All(lists))
  {
    hide IsUndecided, IsProjectedWidening, IsProvenFailing, Filter, SortBy, All;
    KeyOrderIsWeak();
    SortBySorts(All(lists), KeyBefore);
    var all := SortBy(All(lists), KeyBefore);
    hide WeakOrder, Sorted, KeyBefore;
    var provenFailing := Filter(all, d => IsProvenFailing(d, failOn));
    FilterMembers(all, d => IsProvenFailing(d, failOn));
    var projectedFailing := if failOn.projected then Filter(all, d => IsProjectedWidening(d)
      && d !in provenFailing) else [];
    FilterMembers(all, d => IsProjectedWidening(d) && d !in provenFailing);
    var undecided := Filter(all, IsUndecided);
    FilterMembers(all, IsUndecided);
    var categories := set d | d in all && d.way == Widens && d.category.Some? :: d.category.value;
    var expands := provenFailing != [];
    EmptyIff(provenFailing);
    EmptyIff(projectedFailing);
    EmptyIff(undecided);
    CategoriesAre(all, All(lists), categories);
    if incomplete > 0 {
      return Judgement(expands, categories, IncompleteScan, EXIT_INCOMPLETE);
    } else if expands || projectedFailing != [] {
      return Judgement(expands, categories, Expands, EXIT_EXPANDS);
    } else if undecided != [] {
      return Judgement(expands, categories, Undecided, if strict then EXIT_EXPANDS else EXIT_ANNOTATE);
    } else if all == [] {
      return Judgement(expands, categories, NoChange, EXIT_OK);
    } else {
      return Judgement(expands, categories, Pass, EXIT_OK);
    }
  }

  lemma EmptyIff(ds: seq<Delta>)
    ensures ds != [] <==> exists d :: d in ds
  {
    if ds != [] { assert ds[0] in ds; }
  }

  lemma CategoriesAre(all: seq<Delta>, ds: seq<Delta>, categories: set<Category>)
    requires forall d :: d in all <==> d in ds
    requires categories == set d | d in all && d.way == Widens && d.category.Some? :: d.category.value
    ensures forall c :: c in categories <==> exists d :: d in ds && d.way == Widens && d.category == Some(c)
  {
    forall d | d in ds && d.way == Widens && d.category.Some? ensures d.category.value in categories {
      assert d in all;
    }
  }

  /** The severity of an exit code: clean, annotated, failing, incomplete. */
  function Severity(exit: nat): nat {
    if exit == EXIT_OK then 0 else if exit == EXIT_ANNOTATE then 1 else if exit == EXIT_EXPANDS then 2 else 3
  }

  /** Severity never drops when deltas, incomplete records or failing categories are added, or strict is set. */
  lemma SeverityGrows(
    ds: seq<Delta>, incomplete: nat, failOn: FailOn, strict: bool,
    more: seq<Delta>, moreIncomplete: nat, widerFailOn: FailOn, stricter: bool)
    requires (forall d | d in ds :: d in more) && incomplete <= moreIncomplete
    requires failOn.categories <= widerFailOn.categories && (failOn.projected ==> widerFailOn.projected)
      && (strict ==> stricter)
    ensures Severity(ExitOf(ds, incomplete, failOn, strict)) <= Severity(ExitOf(more, moreIncomplete, widerFailOn,
      stricter))
  {
    hide IsUndecided, IsProjectedWidening;
    if SomeExpansion(ds, failOn) {
      var d :| d in ds && IsProvenFailing(d, failOn);
      assert d in more && IsProvenFailing(d, widerFailOn);
    }
  }

  /** A scan with nothing to report exits 0 exactly when nothing fails and nothing is undecided. */
  lemma CleanIff(ds: seq<Delta>, incomplete: nat, failOn: FailOn, strict: bool)
    ensures ExitOf(ds, incomplete, failOn, strict) == EXIT_OK
       <==> && incomplete == 0
            && (forall d | d in ds :: !IsUndecided(d) && !IsProvenFailing(d, failOn) && !(failOn.projected && IsProjectedWidening(d)))
  {
    hide IsUndecided, IsProjectedWidening, IsProvenFailing;
  }

  // ---- the exit codes in terms of the deltas ----

  /** A widening that is proven and of a failing category, or, if those fail too, projected in direction or breadth. */
  predicate FailsBuild(d: Delta, failOn: FailOn) {
    d.way == Widens
    && ((d.tier == Proven && exists c | c in failOn.categories :: d.category == Some(c))
        || (failOn.projected && Projected in {d.tier, if d.breadthTier.Some? then d.breadthTier.value else Proven}))
  }

  /** Direction and breadth are both settled. */
  predicate Settled(d: Delta) { d.tier == Proven && !d.breadthUnresolved }

  /** Which exit code is given when, by tier, breadth and category. */
  lemma ExitCodes(ds: seq<Delta>, incomplete: nat, failOn: FailOn, strict: bool)
    ensures var exit := ExitOf(ds, incomplete, failOn, strict);
            var fails, settled := exists d :: d in ds && FailsBuild(d, failOn), forall d | d in ds :: Settled(d);
            && (exit == 3 <==> incomplete > 0)
            && (exit == 1 <==> incomplete == 0 && (fails || (strict && !settled)))
            && (exit == 2 <==> incomplete == 0 && !fails && !settled && !strict)
            && (exit == 0 <==> incomplete == 0 && !fails && settled)
  {
    forall d ensures FailsBuild(d, failOn) <==> IsProvenFailing(d, failOn) || (failOn.projected && IsProjectedWidening(d)) {
    }
    forall d ensures Settled(d) <==> !IsUndecided(d) {
    }
  }

  /** Each list of a diff holds exactly the deltas of its kind, in the order of their keys. */
  lemma PartitionByChange(ds: seq<Delta>, d: Delta)
    ensures var lists := Partition(ds);
            && (d in lists.unresolved <==> d in ds && !Settled(d))
            && (d in lists.added <==> d in ds && Settled(d) && d.change == Added)
            && (d in lists.removed <==> d in ds && Settled(d) && d.change == Removed)
            && (d in lists.changed <==> d in ds && Settled(d) && d.change in {Changed, Moved})
            && InKeyOrder(lists.added) && InKeyOrder(lists.removed) && InKeyOrder(lists.changed)
            && InKeyOrder(lists.unresolved)
  {
    hide SortBy, Less;
    KeyOrderIsWeak();
    var decided := Filter(ds, IsDecided);
    FilterMembers(ds, IsDecided);
    FilterMembers(ds, IsUndecided);
    FilterMembers(decided, IsAdded);
    FilterMembers(decided, IsRemoved);
    FilterMembers(decided, IsChanged);
    SortBySorts(Filter(decided, IsAdded), KeyBefore);
    SortBySorts(Filter(decided, IsRemoved), KeyBefore);
    SortBySorts(Filter(decided, IsChanged), KeyBefore);
    SortBySorts(Filter(ds, IsUndecided), KeyBefore);
    forall list | Sorted(list, KeyBefore) ensures InKeyOrder(list) { SortedInKeyOrder(list); }
  }

  ghost predicate InKeyOrder(ds: seq<Delta>) {
    forall i, j | 0 <= i < j < |ds| :: ds[i].key == ds[j].key || Less(ds[i].key, ds[j].key)
  }

  lemma SortedInKeyOrder(ds: seq<Delta>)
    requires Sorted(ds, KeyBefore)
    ensures InKeyOrder(ds)
  {
    hide Less;
    Sorting.LessIsStrictTotal();
    forall i, j | 0 <= i < j < |ds| ensures ds[i].key == ds[j].key || Less(ds[i].key, ds[j].key) {
      assert !KeyBefore(ds[j], ds[i]);
    }
  }

  /** Each documented name resolves to its own category alone. */
  lemma NamedCategories(c: Category, name: Text)
    requires (c, name) in {
      (HookCategory, Ascii("hook")), (McpCategory, Ascii("mcp")), (ModeCategory, Ascii("mode")),
      (WholeToolAllow, Ascii("whole-tool-allow")), (DirectoryCategory, Ascii("directory")),
      (HooksReenabledCategory, Ascii("hooks-reenabled")), (DenyRemovedCategory, Ascii("deny-removed")),
      (EnvCategory, Ascii("env")), (ScopedAllow, Ascii("scoped-allow"))}
    ensures ResolveFailOn([name]) == Some(FailOn({c}, false))
    ensures ResolveFailOn([]) == Some(FailOn(ALL_CATEGORIES - {ScopedAllow}, false))
  {
    hide CategoryName, Ascii;
    forall a: Category ensures a in ALL_CATEGORIES { AllCategories(a); }
    NamesAre(c, name);
    CategoryNamesDiffer(c);
    ProjectedIsNoCategory();
    var names := [name];
    assert forall n :: n in names <==> n == name;
    assert name != PROJECTED_NAME && IsFailName(name);
    NamesResolve(names);
    NamesResolve([]);
    assert names[0] in names && !forall n | n in names :: n == PROJECTED_NAME;
    assert ResolveFailOn(names).value.categories == {c};
  }

  lemma NamesAre(c: Category, name: Text)
    requires (c, name) in {
      (HookCategory, Ascii("hook")), (McpCategory, Ascii("mcp")), (ModeCategory, Ascii("mode")),
      (WholeToolAllow, Ascii("whole-tool-allow")), (DirectoryCategory, Ascii("directory")),
      (HooksReenabledCategory, Ascii("hooks-reenabled")), (DenyRemovedCategory, Ascii("deny-removed")),
      (EnvCategory, Ascii("env")), (ScopedAllow, Ascii("scoped-allow"))}
    ensures CategoryName(c) == name
  {
    hide Ascii;
  }

  lemma CategoryNamesDiffer(c: Category)
    ensures forall a: Category | CategoryName(a) == CategoryName(c) :: a == c
  {
    forall a: Category | CategoryName(a) == CategoryName(c) ensures a == c {
      var s, t := CategoryName(a), CategoryName(c);
      assert |s| == |t| && |s| > 2 && s[0] == t[0] && s[1] == t[1] && s[2] == t[2];
    }
  }
}
