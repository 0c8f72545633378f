/** cloudEstimate: baselines, their median rate, and the intervals that are set against it. */
module CloudEstimates {
  import opened Texts
  import opened Stable
  import opened Estimate
  import opened Calibrations

  const BASELINE_LIMIT: nat := 5

  // ---- baselines ----

  predicate Active(c: Calibration, accountId: Text, now: int) {
    c.accountId == accountId && !c.revoked && c.methodVersion == METHOD_VERSION && c.endedAt >= now - 30 * DAY
      && c.tokensPerPoint > 0.0
  }

  function FilterActive(cs: seq<Calibration>, accountId: Text, now: int): seq<Calibration> {
    if cs == [] then []
    else (if Active(cs[0], accountId, now) then [cs[0]] else []) + FilterActive(cs[1..], accountId, now)
  }

  predicate ConfirmedLater(a: Calibration, b: Calibration) { a.confirmedAt > b.confirmedAt }

  /** The active calibrations, most recently confirmed first. */
  function ActiveCalibrations(cs: seq<Calibration>, accountId: Text, now: int): seq<Calibration> {
    SortBy(FilterActive(cs, accountId, now), ConfirmedLater)
  }

  predicate Overlaps(a: Calibration, b: Calibration) { a.startedAt < b.endedAt && a.endedAt > b.startedAt }

  predicate SameScope(a: Calibration, b: Calibration) { a.windowKey == b.windowKey && a.windowMinutes
    == b.windowMinutes }

  predicate OverlapsAny(c: Calibration, chosen: seq<Calibration>) {
    exists i :: 0 <= i < |chosen| && Overlaps(c, chosen[i])
  }

  function Choose(chosen: seq<Calibration>, c: Calibration, selected: Calibration): seq<Calibration> {
    if !SameScope(c, selected) || |chosen| >= BASELINE_LIMIT || OverlapsAny(c, chosen) then chosen else chosen + [c]
  }

  function Baselines(active: seq<Calibration>, selected: Calibration): seq<Calibration> {
    if active == [] then [] else Choose(Baselines(active[..|active| - 1], selected), active[|active| - 1], selected)
  }

  method SelectBaselines(active: seq<Calibration>, selected: Calibration) returns (baselines: seq<Calibration>)
    ensures baselines == Baselines(active, selected)
  {
    baselines := [];
    for i := 0 to |active|
      invariant baselines == Baselines(active[..i], selected)
    {
      var c := active[i];
      assert active[..i + 1][..i] == active[..i];
      if !SameScope(c, selected) || |baselines| >= BASELINE_LIMIT {
        continue;
      }
      if OverlapsAny(c, baselines) {
        continue;
      }
      baselines := baselines + [c];
    }
    assert active[..|active|] == active;
  }

  ghost predicate Apart(chosen: seq<Calibration>) {
    forall i, j | 0 <= i < j < |chosen| :: !Overlaps(chosen[i], chosen[j])
  }

  /** Nothing of the scope can be added: it is chosen, or overlaps a choice, or the limit is reached. */
  ghost predicate Maximal(chosen: seq<Calibration>, active: seq<Calibration>, selected: Calibration) {
    forall c | c in active && SameScope(c, selected) :: c in chosen || OverlapsAny(c, chosen) || |chosen|
      == BASELINE_LIMIT
  }

  /** The baselines: at most five, of the selected scope, no two overlapping, and as many as the scope allows. */
  lemma {:induction false} BaselinesAreMaximal(active: seq<Calibration>, selected: Calibration)
    ensures var chosen := Baselines(active, selected);
            && |chosen| <= BASELINE_LIMIT && Apart(chosen) && Maximal(chosen, active, selected)
            && (forall i | 0 <= i < |chosen| :: chosen[i] in active && SameScope(chosen[i], selected))
            && (active != [] && active[0] == selected ==> chosen != [] && chosen[0] == selected)
  {
    hide Overlaps, SameScope, OverlapsAny;
    if active != [] {
      var n := |active| - 1;
      var init, c := active[..n], active[n];
      assert forall x :: x in active <==> x in init || x == c;
      BaselinesAreMaximal(init, selected);
      var chosen := Baselines(init, selected);
      SameScopeItself(selected);
      NoneOverlapped(c, chosen);
      forall x | x in init && OverlapsAny(x, chosen)
        ensures OverlapsAny(x, chosen + [c]) { StillOverlaps(x, chosen, c); }
      if n > 0 && active[0] == selected { assert init[0] == selected; }
    }
  }

  /** b overlaps c in time. */
  ghost predicate Meets(b: Calibration, c: Calibration) { b.startedAt < c.endedAt && c.startedAt < b.endedAt }

  /** What is passed over yields to calibrations confirmed no earlier: to one that overlaps it, or to five. */
  ghost predicate Yields(c: Calibration, chosen: seq<Calibration>) {
    || (exists i :: 0 <= i < |chosen| && Meets(chosen[i], c) && chosen[i].confirmedAt >= c.confirmedAt)
    || (|chosen| == 5 && forall i | 0 <= i < |chosen| :: chosen[i].confirmedAt >= c.confirmedAt)
  }

  /** The baselines are chosen most recently confirmed first. */
  lemma {:induction false} BaselinesPreferRecent(active: seq<Calibration>, selected: Calibration)
    requires forall i, j | 0 <= i < j < |active| :: active[i].confirmedAt >= active[j].confirmedAt
    ensures var chosen := Baselines(active, selected);
            && (forall c | c in chosen :: c in active)
            && forall c | c in active && SameScope(c, selected) :: c in chosen || Yields(c, chosen)
  {
    hide SameScope, Overlaps;
    if active != [] {
      var n := |active| - 1;
      var init, last := active[..n], active[n];
      BaselinesPreferRecent(init, selected);
      BaselinesAreMaximal(init, selected);
      var before, chosen := Baselines(init, selected), Baselines(active, selected);
      forall c | c in before ensures c in active && c.confirmedAt >= last.confirmedAt {
        var i :| 0 <= i < |init| && init[i] == c;
        assert active[i] == c;
      }
      forall c | c in active && SameScope(c, selected) ensures c in chosen || Yields(c, chosen) {
        if c in init { StillYields(c, before, chosen); } else { LastYields(last, before, selected); }
      }
    }
  }

  lemma StillYields(c: Calibration, before: seq<Calibration>, chosen: seq<Calibration>)
    requires c in before || Yields(c, before)
    requires chosen == before || (|before| < 5 && |chosen| == |before| + 1 && chosen[..|before|] == before)
    ensures c in chosen || Yields(c, chosen)
  {
    assert forall i | 0 <= i < |before| :: chosen[i] == before[i];
  }

  lemma LastYields(c: Calibration, before: seq<Calibration>, selected: Calibration)
    requires SameScope(c, selected) && |before| <= 5 && forall b | b in before :: b.confirmedAt >= c.confirmedAt
    ensures c in Choose(before, c, selected) || Yields(c, Choose(before, c, selected))
  {
    if OverlapsAny(c, before) {
      var i :| 0 <= i < |before| && Overlaps(c, before[i]);
      assert before[i] in before && Meets(before[i], c);
    }
  }

  lemma SameScopeItself(c: Calibration)
    ensures SameScope(c, c)
  {
  }

  lemma NoneOverlapped(c: Calibration, chosen: seq<Calibration>)
    ensures !OverlapsAny(c, chosen) ==> forall i | 0 <= i < |chosen| :: !Overlaps(chosen[i], c) && !Overlaps(c, chosen[i])
    ensures !OverlapsAny(c, [])
  {
    forall i | 0 <= i < |chosen| && Overlaps(chosen[i], c) ensures Overlaps(c, chosen[i]) {
    }
  }

  lemma StillOverlaps(x: Calibration, chosen: seq<Calibration>, c: Calibration)
    requires OverlapsAny(x, chosen)
    ensures OverlapsAny(x, chosen + [c])
  {
    var i :| 0 <= i < |chosen| && Overlaps(x, chosen[i]);
    assert (chosen + [c])[i] == chosen[i];
  }

  // ---- rates ----

  predicate Lower(a: real, b: real) { a < b }

  function UnsortedRates(baselines: seq<Calibration>): seq<real> {
    seq(|baselines|, i requires 0 <= i < |baselines| => baselines[i].tokensPerPoint)
  }

  function Rates(baselines: seq<Calibration>): (rates: seq<real>)
    ensures |rates| == |baselines|
  {
    SortBySorts(UnsortedRates(baselines), Lower);
    SortBy(UnsortedRates(baselines), Lower)
  }

  function Median(rates: seq<real>): real
    requires rates != []
  {
    var middle := |rates| / 2;
    if |rates| % 2 == 1 then rates[middle] else (rates[middle - 1] + rates[middle]) / 2.0
  }

  /** The spread of sorted rates, relative to their median. */
  function Spread(rates: seq<real>): real
    requires rates != [] && Median(rates) != 0.0
  {
    (rates[|rates| - 1] - rates[0]) / Median(rates)
  }

  lemma MedianIsBetween(rates: seq<real>)
    requires rates != [] && Sorted(rates, Lower)
    ensures rates[0] <= Median(rates) <= rates[|rates| - 1]
  {
    var n, middle := |rates|, |rates| / 2;
    assert 0 < middle ==> !Lower(rates[middle], rates[0]);
    assert middle < n - 1 ==> !Lower(rates[n - 1], rates[middle]);
    assert 0 < middle - 1 ==> !Lower(rates[middle - 1], rates[0]);
    assert 0 <= middle - 1 < n - 1 ==> !Lower(rates[n - 1], rates[middle - 1]);
  }

  function CountRates(rates: seq<real>, keep: real -> bool): nat {
    if rates == [] then 0 else (if keep(rates[0]) then 1 else 0) + CountRates(rates[1..], keep)
  }

  lemma {:induction false} CountRatesConcat(a: seq<real>, b: seq<real>, keep: real -> bool)
    ensures CountRates(a + b, keep) == CountRates(a, keep) + CountRates(b, keep)
  {
    if a == [] {
      assert a + b == b;
    } else {
      CountRatesConcat(a[1..], b, keep);
      assert (a + b)[1..] == a[1..] + b;
    }
  }

  lemma {:induction false} CountRatesBounds(rates: seq<real>, keep: real -> bool)
    ensures CountRates(rates, keep) <= |rates|
    ensures (forall i | 0 <= i < |rates| :: !keep(rates[i])) ==> CountRates(rates, keep) == 0
  {
    if rates != [] { CountRatesBounds(rates[1..], keep); }
  }

  lemma {:induction false} InsertCountsRates(rates: seq<real>, r: real, keep: real -> bool)
    ensures CountRates(Insert(rates, r, Lower), keep) == CountRates(rates, keep) + (if keep(r) then 1 else 0)
  {
    if rates == [] {
      assert [r][1..] == [];
    } else if Lower(r, rates[0]) {
      assert ([r] + rates)[1..] == rates;
    } else {
      InsertCountsRates(rates[1..], r, keep);
      assert ([rates[0]] + Insert(rates[1..], r, Lower))[1..] == Insert(rates[1..], r, Lower);
    }
  }

  lemma {:induction false} SortingCountsRates(rates: seq<real>, keep: real -> bool)
    ensures CountRates(SortBy(rates, Lower), keep) == CountRates(rates, keep)
  {
    hide Insert;
    if rates != [] {
      var init, last := rates[..|rates| - 1], rates[|rates| - 1];
      SortingCountsRates(init, keep);
      InsertCountsRates(SortBy(init, Lower), last, keep);
      assert rates == init + [last] && [last][1..] == [];
      CountRatesConcat(init, [last], keep);
    }
  }

  /** How many rates are lower, and how many higher. */
  function CountLower(rates: seq<real>, x: real): nat { CountRates(rates, r => r < x) }
  function CountHigher(rates: seq<real>, x: real): nat { CountRates(rates, r => x < r) }

  lemma RankedRate(rates: seq<real>, k: nat)
    requires Sorted(rates, Lower) && k < |rates|
    ensures CountLower(rates, rates[k]) <= k && CountHigher(rates, rates[k]) <= |rates| - 1 - k
  {
    var x := rates[k];
    var lower, higher := (r: real) => r < x, (r: real) => x < r;
    assert rates[..k] + rates[k..] == rates && rates[..k + 1] + rates[k + 1..] == rates;
    CountRatesConcat(rates[..k], rates[k..], lower);
    CountRatesBounds(rates[..k], lower);
    forall i | 0 <= i < |rates[k..]| ensures !lower(rates[k..][i]) { assert i > 0 ==> !Lower(rates[k + i], rates[k]); }
    CountRatesBounds(rates[k..], lower);
    CountRatesConcat(rates[..k + 1], rates[k + 1..], higher);
    var first := rates[..k + 1];
    forall i | 0 <= i < |first| ensures !higher(first[i]) { assert i < k ==> !Lower(rates[k], rates[i]); }
    CountRatesBounds(first, higher);
    CountRatesBounds(rates[k + 1..], higher);
    assert CountLower(rates, x) == CountRates(rates, lower) && CountHigher(rates, x) == CountRates(rates, higher);
  }

  /** x is a rate with at most the given numbers of rates below and above it. */
  ghost predicate Ranked(rates: seq<real>, x: real, below: nat, above: nat) {
    x in rates && CountLower(rates, x) <= below && CountHigher(rates, x) <= above
  }

  /** The two rates in the middle of an even number. */
  ghost predicate InMiddle(rates: seq<real>, a: real, b: real) {
    var half := |rates| / 2;
    half > 0 && Ranked(rates, a, half - 1, half) && Ranked(rates, b, half, half - 1)
  }

  lemma RankedBaseline(baselines: seq<Calibration>, k: nat)
    requires k < |baselines|
    ensures Ranked(UnsortedRates(baselines), Rates(baselines)[k], k, |baselines| - 1 - k)
  {
    hide SortBy, CountRates;
    var rates, unsorted := Rates(baselines), UnsortedRates(baselines);
    SortBySorts(unsorted, Lower);
    var x := rates[k];
    RankedRate(rates, k);
    SortingCountsRates(unsorted, r => r < x);
    SortingCountsRates(unsorted, r => x < r);
    assert x in rates;
  }

  lemma RatesOf(baselines: seq<Calibration>)
    ensures |UnsortedRates(baselines)| == |baselines|
  {
  }

  /** The median: as many rates below as above it; of an even number, the mean of the two in the middle. */
  lemma MedianSplits(baselines: seq<Calibration>)
    requires baselines != []
    ensures var rates, m, half := UnsortedRates(baselines), Median(Rates(baselines)), |baselines| / 2;
            if |baselines| % 2 == 1 then Ranked(rates, m, half, half)
            else exists a, b :: InMiddle(rates, a, b) && m + m == a + b
  {
    hide Ranked, UnsortedRates, Rates;
    var rates, half := Rates(baselines), |baselines| / 2;
    RankedBaseline(baselines, half);
    if |baselines| % 2 == 0 {
      RankedBaseline(baselines, half - 1);
      assert Median(rates) + Median(rates) == rates[half - 1] + rates[half];
      assert |UnsortedRates(baselines)| == |baselines| by { RatesOf(baselines); }
      assert InMiddle(UnsortedRates(baselines), rates[half - 1], rates[half]);
    }
  }

  /**
   * The median of the baselines' rates is positive and among them; at a spread of at most 35%, each is that close
   * to it.
   */
  lemma RatesAreClose(baselines: seq<Calibration>)
    requires baselines != [] && forall i | 0 <= i < |baselines| :: baselines[i].tokensPerPoint > 0.0
    ensures var rates := Rates(baselines);
            && Median(rates) > 0.0 && multiset(rates) == multiset(UnsortedRates(baselines))
            && (Spread(rates) <= 0.35 ==>
                  forall i | 0 <= i < |baselines| ::
                    -0.35 * Median(rates) <= baselines[i].tokensPerPoint - Median(rates) <= 0.35 * Median(rates))
  {
    hide Median, SortBy;
    var rates := Rates(baselines);
    SortBySorts(UnsortedRates(baselines), Lower);
    MedianIsBetween(rates);
    var n := |rates|;
    assert rates[0] in UnsortedRates(baselines);
    Divided(rates[n - 1] - rates[0], Median(rates), 0.35);
    forall i | 0 <= i < |baselines| ensures rates[0] <= baselines[i].tokensPerPoint <= rates[n - 1] {
      assert UnsortedRates(baselines)[i] in UnsortedRates(baselines);
      InRange(rates, baselines[i].tokensPerPoint);
    }
  }

  lemma InRange(rates: seq<real>, r: real)
    requires Sorted(rates, Lower) && r in rates
    ensures rates[0] <= r <= rates[|rates| - 1]
  {
    var k :| 0 <= k < |rates| && rates[k] == r;
    assert 0 < k ==> !Lower(rates[k], rates[0]);
    assert k < |rates| - 1 ==> !Lower(rates[|rates| - 1], rates[k]);
  }

  lemma Divided(x: real, y: real, bound: real)
    requires y > 0.0
    ensures x / y <= bound <==> x <= bound * y
  {
    Quotient(x, y);
    var q := x / y;
    if q <= bound { Scaled(q, bound, y); }
    if q > bound { ScaledStrictly(bound, q, y); }
  }

  lemma Scaled(a: real, b: real, y: real)
    requires a <= b && y > 0.0
    ensures a * y <= b * y
  {
  }

  lemma ScaledStrictly(a: real, b: real, y: real)
    requires a < b && y > 0.0
    ensures a * y < b * y
  {
    assert (b - a) * y > 0.0;
  }

  /** The spread is the largest difference between two baselines' rates, as a part of the median. */
  lemma SpreadIsLargest(baselines: seq<Calibration>)
    requires baselines != [] && Median(Rates(baselines)) > 0.0
    ensures var largest := Spread(Rates(baselines)) * Median(Rates(baselines));
            && (forall i, j | 0 <= i < |baselines| && 0 <= j < |baselines| ::
                  baselines[i].tokensPerPoint - baselines[j].tokensPerPoint <= largest)
            && exists i, j :: 0 <= i < |baselines| && 0 <= j < |baselines|
                 && baselines[i].tokensPerPoint - baselines[j].tokensPerPoint == largest
  {
    hide Median, Rates, Spread;
    var rates := Rates(baselines);
    SpreadTimes(rates);
    var i, j := Extremes(baselines);
    assert baselines[i].tokensPerPoint - baselines[j].tokensPerPoint == rates[|rates| - 1] - rates[0];
  }

  lemma SpreadTimes(rates: seq<real>)
    requires rates != [] && Median(rates) > 0.0
    ensures Spread(rates) * Median(rates) == rates[|rates| - 1] - rates[0]
  {
    hide Median;
    Quotient(rates[|rates| - 1] - rates[0], Median(rates));
  }

  /** The baselines of the highest and the lowest rate. */
  lemma Extremes(baselines: seq<Calibration>) returns (i: nat, j: nat)
    requires baselines != []
    ensures i < |baselines| && j < |baselines|
    ensures var rates := Rates(baselines);
            && baselines[i].tokensPerPoint == rates[|rates| - 1] && baselines[j].tokensPerPoint == rates[0]
            && forall k | 0 <= k < |baselines| :: rates[0] <= baselines[k].tokensPerPoint <= rates[|rates| - 1]
  {
    hide SortBy;
    var rates, unsorted := Rates(baselines), UnsortedRates(baselines);
    SortBySorts(unsorted, Lower);
    forall k | 0 <= k < |baselines| ensures rates[0] <= baselines[k].tokensPerPoint <= rates[|rates| - 1] {
      assert unsorted[k] in unsorted;
      InRange(rates, baselines[k].tokensPerPoint);
    }
    assert rates[|rates| - 1] in unsorted && rates[0] in unsorted;
    i :| 0 <= i < |unsorted| && unsorted[i] == rates[|rates| - 1];
    j :| 0 <= j < |unsorted| && unsorted[j] == rates[0];
  }

  // ---- intervals ----

  datatype Interval = Interval(start: int, end: int, points: real, local: real)

  /** Whether the span between two consecutive readings counts. */
  predicate Counts(data: EstimateData, accountId: Text, a: Quota, b: Quota, after: int, now: int) {
    && a.observedAt >= after && Continuous(a, b) && CeilHour(b.observedAt) <= now
    && ProblemOf(data, accountId, a.observedAt, b.observedAt, now).None?
  }

  function IntervalBetween(data: EstimateData, accountId: Text, a: Quota, b: Quota): Interval {
    Interval(a.observedAt, b.observedAt, b.usedPercent - a.usedPercent,
             IntervalTokens(data.hourly, accountId, a.observedAt, b.observedAt))
  }

  /** The intervals among the first observations. */
  function Intervals(data: EstimateData, accountId: Text, observations: seq<Quota>, after: int,
    now: int): seq<Interval> {
    if |observations| < 2 then []
    else
      var n := |observations| - 1;
      var before := Intervals(data, accountId, observations[..n], after, now);
      if Counts(data, accountId, observations[n - 1], observations[n], after, now) then
        before + [IntervalBetween(data, accountId, observations[n - 1], observations[n])]
      else before
  }

  method CollectIntervals(data: EstimateData, accountId: Text, observations: seq<Quota>, after: int, now: int)
    returns (intervals: seq<Interval>)
    requires observations != []
    ensures intervals == Intervals(data, accountId, observations, after, now)
  {
    hide IntervalBetween, ProblemOf, Continuous;
    intervals := [];
    for i := 1 to |observations|
      invariant intervals == Intervals(data, accountId, observations[..i], after, now)
    {
      var a, b := observations[i - 1], observations[i];
      assert observations[..i + 1][..i] == observations[..i];
      if a.observedAt < after || !Continuous(a, b) || CeilHour(b.observedAt) > now {
        continue;
      }
      // Only gaps over which every enabled local collector vouches for its hours are counted.
      var problem := FindProblem(data, accountId, a.observedAt, b.observedAt, now);
      if problem.Some? {
        continue;
      }
      intervals := intervals + [IntervalBetween(data, accountId, a, b)];
    }
    assert observations[..|observations|] == observations;
  }

  /** Intervals one after the other, each of positive length, non-negative points and prorated local tokens. */
  ghost predicate Disjoint(intervals: seq<Interval>, data: EstimateData, accountId: Text, after: int, until: int) {
    && (forall i | 0 <= i < |intervals| ::
          && after <= intervals[i].start < intervals[i].end <= until
          && intervals[i].end - intervals[i].start <= 3 * HOUR
          && intervals[i].points >= 0.0
          && intervals[i].local == IntervalTokens(data.hourly, accountId, intervals[i].start, intervals[i].end))
    && (forall i, j | 0 <= i < j < |intervals| :: intervals[i].end <= intervals[j].start)
  }

  lemma {:induction false} IntervalsAreDisjoint(
    data: EstimateData, accountId: Text, observations: seq<Quota>, after: int, now: int)
    requires observations != [] && StrictlyByTime(observations)
    ensures Disjoint(Intervals(data, accountId, observations, after, now), data, accountId, after,
                     observations[|observations| - 1].observedAt)
  {
    hide IntervalTokens, ProblemOf;
    if |observations| >= 2 {
      IntervalsAreDisjoint(data, accountId, observations[..|observations| - 1], after, now);
    }
  }

  function SumPoints(intervals: seq<Interval>): real {
    if intervals == [] then 0.0 else SumPoints(intervals[..|intervals| - 1]) + intervals[|intervals| - 1].points
  }

  function SumLocal(intervals: seq<Interval>): real {
    if intervals == [] then 0.0 else SumLocal(intervals[..|intervals| - 1]) + intervals[|intervals| - 1].local
  }

  /** The length of all intervals, in milliseconds. */
  function SumLength(intervals: seq<Interval>): int {
    if intervals == [] then 0
    else SumLength(intervals[..|intervals| - 1]) + (intervals[|intervals| - 1].end - intervals[|intervals| - 1].start)
  }

  function SumHours(intervals: seq<Interval>): real {
    if intervals == [] then 0.0
    else
      var last := intervals[|intervals| - 1];
      SumHours(intervals[..|intervals| - 1]) + (last.end - last.start) as real / HOUR as real
  }

  lemma {:induction false} HoursOfLength(intervals: seq<Interval>)
    ensures SumHours(intervals) == SumLength(intervals) as real / HOUR as real
  {
    if intervals != [] { HoursOfLength(intervals[..|intervals| - 1]); }
  }

  /** The intervals take no more time, and no more tokens, than the span from the first to the last. */
  lemma {:induction false} IntervalsWithinSpan(intervals: seq<Interval>, data: EstimateData, accountId: Text,
    after: int, until: int)
    requires intervals != [] && Disjoint(intervals, data, accountId, after, until)
    ensures var first, last := intervals[0].start, intervals[|intervals| - 1].end;
            && 0 < SumLength(intervals) <= last - first
            && (NonNegative(data.hourly) ==> SumLocal(intervals) <= IntervalTokens(data.hourly, accountId, first, last))
  {
    hide IntervalTokens;
    var n := |intervals| - 1;
    if n > 0 {
      var first, last := intervals[0].start, intervals[n].end;
      IntervalsWithinSpan(intervals[..n], data, accountId, after, until);
      TokensSplit(data.hourly, accountId, first, intervals[n - 1].end, last);
      TokensSplit(data.hourly, accountId, intervals[n - 1].end, intervals[n].start, last);
      if NonNegative(data.hourly) { TokensNonNegative(data.hourly, accountId, intervals[n - 1].end,
        intervals[n].start); }
    }
  }

  /** Where every pair of readings counts, points, tokens and time add up to those of the whole span. */
  lemma {:induction false} UnbrokenIntervalsAddUp(
    data: EstimateData, accountId: Text, observations: seq<Quota>, after: int, now: int)
    requires observations != []
    requires forall i | 0 < i < |observations| :: Counts(data, accountId, observations[i - 1], observations[i], after, now)
    ensures var intervals := Intervals(data, accountId, observations, after, now);
            var first, last := observations[0], observations[|observations| - 1];
            && SumPoints(intervals) == last.usedPercent - first.usedPercent
            && SumLocal(intervals) == IntervalTokens(data.hourly, accountId, first.observedAt, last.observedAt)
            && SumLength(intervals) == last.observedAt - first.observedAt
            && first.observedAt <= last.observedAt
  {
    hide IntervalTokens, ProblemOf;
    var n := |observations| - 1;
    if n == 0 {
      EmptySpan(data.hourly, accountId, observations[0].observedAt);
    } else {
      UnbrokenIntervalsAddUp(data, accountId, observations[..n], after, now);
      var intervals := Intervals(data, accountId, observations, after, now);
      assert Counts(data, accountId, observations[n - 1], observations[n], after, now);
      assert intervals[..|intervals| - 1] == Intervals(data, accountId, observations[..n], after, now);
      TokensSplit(data.hourly, accountId, observations[0].observedAt, observations[n - 1].observedAt,
                  observations[n].observedAt);
    }
  }

  // ---- the estimate ----

  datatype CloudEstimate = CloudEstimate(
    windowKey: Text, windowMinutes: int, localTokens: real, unobservedTokens: real, totalTokens: real, points: real,
    tokensPerPoint: real, baselineCount: nat, coveredHours: real, startedAt: int, endedAt: int,
      intervals: seq<Interval>)

  datatype EstimateFailure =
    | NotSupported | NoReadings | NoBaseline | BaselinesDisagree | ConflictingReadings | StaleReading | NoIntervals
    | TooFewIntervalPoints | LocalExceedsTotal

  predicate Usable(q: Quota, accountId: Text) { q.accountId == accountId && AllModelWindow(q) && !q.historyOnly }

  predicate Observed(q: Quota, accountId: Text, selected: Calibration, now: int) {
    Usable(q, accountId) && q.windowKey == selected.windowKey && q.windowMinutes == selected.windowMinutes
      && q.observedAt <= now
  }

  function ObservedReadings(quotas: seq<Quota>, accountId: Text, selected: Calibration, now: int): seq<Quota> {
    if quotas == [] then []
    else (if Observed(quotas[0], accountId, selected, now) then [quotas[0]] else [])
         + ObservedReadings(quotas[1..], accountId, selected, now)
  }

  lemma {:induction false} ObservedReadingsAre(quotas: seq<Quota>, accountId: Text, selected: Calibration, now: int)
    ensures forall q :: q in ObservedReadings(quotas, accountId, selected, now)
                   <==> q in quotas && Observed(q, accountId, selected, now)
  {
    hide Observed;
    if quotas != [] {
      ObservedReadingsAre(quotas[1..], accountId, selected, now);
      assert forall q :: q in quotas <==> q == quotas[0] || q in quotas[1..];
    }
  }

  /** The instant after which intervals count: a day ago, or the end of the latest baseline. */
  function After(baselines: seq<Calibration>, now: int): int {
    if baselines == [] then now - DAY
    else Max(After(baselines[..|baselines| - 1], now), baselines[|baselines| - 1].endedAt)
  }

  lemma {:induction false} AfterBaselines(baselines: seq<Calibration>, now: int)
    ensures After(baselines, now) >= now - DAY
    ensures forall i | 0 <= i < |baselines| :: After(baselines, now) >= baselines[i].endedAt
    ensures After(baselines, now) == now - DAY
         || exists i :: 0 <= i < |baselines| && After(baselines, now) == baselines[i].endedAt
  {
    if baselines != [] { AfterBaselines(baselines[..|baselines| - 1], now); }
  }

  /** The estimate that the intervals give at a rate. */
  function Settle(selected: Calibration, rate: real, baselineCount: nat, intervals: seq<Interval>)
    : Result<CloudEstimate, EstimateFailure>
  {
    var points, local := SumPoints(intervals), SumLocal(intervals);
    if intervals == [] then Failure(NoIntervals)
    else if points < 3.0 then Failure(TooFewIntervalPoints)
    else if local > points * rate then Failure(LocalExceedsTotal)
    else
      Success(CloudEstimate(
                selected.windowKey, selected.windowMinutes, local, points * rate - local, points * rate, points, rate,
                baselineCount, SumHours(intervals), intervals[0].start, intervals[|intervals| - 1].end, intervals))
  }

  /** The readings that an estimate for a scope is taken from. */
  function Observations(data: EstimateData, accountId: Text, selected: Calibration, now: int, idBefore: IdOrder)
    : Option<seq<Quota>>
  {
    OrderedQuotas(ObservedReadings(data.quotas, accountId, selected, now), idBefore)
  }

  function EstimateFrom(
    data: EstimateData, accountId: Text, baselines: seq<Calibration>, selected: Calibration, now: int,
      idBefore: IdOrder)
    : Result<CloudEstimate, EstimateFailure>
    requires baselines != [] && Median(Rates(baselines)) != 0.0
  {
    var observations := Observations(data, accountId, selected, now, idBefore);
    if Spread(Rates(baselines)) > 0.35 then Failure(BaselinesDisagree)
    else if observations.None? || observations.value == [] then Failure(ConflictingReadings)
    else
      var latest := observations.value[|observations.value| - 1];
      if now - latest.observedAt > 2 * HOUR || latest.resetsAt <= now then Failure(StaleReading)
      else
        Settle(selected, Median(Rates(baselines)), |baselines|,
               Intervals(data, accountId, observations.value, After(baselines, now), now))
  }

  /** The active calibrations have positive rates, so that the chosen ones have a positive median. */
  lemma ChosenRates(cs: seq<Calibration>, accountId: Text, now: int)
    ensures var active := ActiveCalibrations(cs, accountId, now);
            active != [] ==>
              && Baselines(active, active[0]) != []
              && Median(Rates(Baselines(active, active[0]))) > 0.0
    ensures forall c | c in ActiveCalibrations(cs, accountId, now) :: c in cs && Active(c, accountId, now)
  {
    hide Median, Rates, SortBy, Active, FilterActive, Choose;
    var active := ActiveCalibrations(cs, accountId, now);
    ActiveAre(cs, accountId, now);
    if active != [] {
      BaselinesAreMaximal(active, active[0]);
      var chosen := Baselines(active, active[0]);
      forall i | 0 <= i < |chosen| ensures chosen[i].tokensPerPoint > 0.0 { ActiveRate(chosen[i], accountId, now); }
      RatesAreClose(chosen);
    }
  }

  lemma ActiveRate(c: Calibration, accountId: Text, now: int)
    requires Active(c, accountId, now)
    ensures c.tokensPerPoint > 0.0
  {
  }

  lemma {:induction false} FilterActiveAre(cs: seq<Calibration>, accountId: Text, now: int)
    ensures forall c :: c in FilterActive(cs, accountId, now) <==> c in cs && Active(c, accountId, now)
  {
    hide Active;
    if cs != [] {
      FilterActiveAre(cs[1..], accountId, now);
      assert forall c :: c in cs <==> c == cs[0] || c in cs[1..];
    }
  }

  /** The active calibrations, and the most recently confirmed of them first. */
  lemma ActiveAre(cs: seq<Calibration>, accountId: Text, now: int)
    ensures var active := ActiveCalibrations(cs, accountId, now);
            && (forall c :: c in active <==> c in cs && Active(c, accountId, now))
            && (forall c | c in active :: active[0].confirmedAt >= c.confirmedAt)
  {
    hide Active, FilterActive;
    FilterActiveAre(cs, accountId, now);
    SortBySorts(FilterActive(cs, accountId, now), ConfirmedLater);
    var active := ActiveCalibrations(cs, accountId, now);
    forall c | c in active ensures active[0].confirmedAt >= c.confirmedAt {
      var i :| 0 <= i < |active| && active[i] == c;
      assert 0 < i ==> !ConfirmedLater(active[i], active[0]);
    }
  }

  predicate HasReadings(data: EstimateData, accountId: Text) {
    exists i :: 0 <= i < |data.quotas| && Usable(data.quotas[i], accountId)
  }

  function EstimateOf(data: EstimateData, accountId: Text, calibrations: seq<Calibration>, now: int, idBefore: IdOrder)
    : Result<CloudEstimate, EstimateFailure>
  {
    var active := ActiveCalibrations(calibrations, accountId, now);
    ChosenRates(calibrations, accountId, now);
    if !IsClaude(data, accountId) then Failure(NotSupported)
    else if !HasReadings(data, accountId) then Failure(NoReadings)
    else if active == [] then Failure(NoBaseline)
    else EstimateFrom(data, accountId, Baselines(active, active[0]), active[0], now, idBefore)
  }

  /** cloudEstimate as it runs. */
  method EstimateCloud(data: EstimateData, accountId: Text, calibrations: seq<Calibration>, now: int, idBefore: IdOrder)
    returns (r: Result<CloudEstimate, EstimateFailure>)
    ensures r == EstimateOf(data, accountId, calibrations, now, idBefore)
  {
    hide Median, Rates, SortBy, Baselines, OrderedQuotas, Intervals, After, SumPoints, SumLocal, ObservedReadings,
         ActiveCalibrations;
    if !IsClaude(data, accountId) {
      return Failure(NotSupported);
    }
    if !HasReadings(data, accountId) {
      return Failure(NoReadings);
    }
    var active := ActiveCalibrations(calibrations, accountId, now);
    if active == [] {
      return Failure(NoBaseline);
    }
    var selected := active[0];
    var baselines := SelectBaselines(active, selected);
    ChosenRates(calibrations, accountId, now);
    var rates := Rates(baselines);
    var rate := Median(rates);
    if (rates[|rates| - 1] - rates[0]) / rate > 0.35 {
      return Failure(BaselinesDisagree);
    }
    var observations := OrderQuotas(ObservedReadings(data.quotas, accountId, selected, now), idBefore);
    if observations.None? || observations.value == [] {
      return Failure(ConflictingReadings);
    }
    var latest := observations.value[|observations.value| - 1];
    if now - latest.observedAt > 2 * HOUR || latest.resetsAt <= now {
      return Failure(StaleReading);
    }
    var intervals := CollectIntervals(data, accountId, observations.value, After(baselines, now), now);
    return Settle(selected, rate, |baselines|, intervals);
  }

  // ---- main results ----

  /**
   * An estimate's intervals are disjoint, lie between the end of every baseline and now, and cover at most 24 hours;
   * their local tokens never exceed the proration of the whole span (when no hour counts fewer than none), and local
   * plus unobserved is the total.
   */
  lemma EstimatesAreBounded(
    data: EstimateData, accountId: Text, calibrations: seq<Calibration>, now: int, idBefore: IdOrder, e: CloudEstimate)
    requires WeakOrder(idBefore)
    requires EstimateOf(data, accountId, calibrations, now, idBefore) == Success(e)
    ensures var active := ActiveCalibrations(calibrations, accountId, now);
            && active != []
            && var baselines := Baselines(active, active[0]);
               && (forall i, k | 0 <= i < |e.intervals| && 0 <= k < |baselines| ::
                 baselines[k].endedAt <= e.intervals[i].start)
               && Disjoint(e.intervals, data, accountId, now - DAY, now)
               && e.intervals != [] && e.startedAt == e.intervals[0].start && e.endedAt
                 == e.intervals[|e.intervals| - 1].end
               && 0.0 < e.coveredHours <= 24.0
               && e.localTokens == SumLocal(e.intervals)
               && (NonNegative(data.hourly) ==>
                     e.localTokens <= IntervalTokens(data.hourly, accountId, e.startedAt, e.endedAt))
               && e.localTokens + e.unobservedTokens == e.totalTokens == e.points * e.tokensPerPoint
               && e.unobservedTokens >= 0.0 && e.points == SumPoints(e.intervals) >= 3.0
  {
    hide Median, Rates, SortBy, Baselines, OrderedQuotas, Intervals, After, SumPoints, SumLocal, ObservedReadings,
         ActiveCalibrations, IntervalTokens, SumHours, SumLength, Disjoint, IsClaude, HasReadings;
    var active := ActiveCalibrations(calibrations, accountId, now);
    ChosenRates(calibrations, accountId, now);
    var selected := active[0];
    var baselines := Baselines(active, selected);
    var observations := Observations(data, accountId, selected, now, idBefore).value;
    ObservationsAreOrdered(data, accountId, selected, now, idBefore);
    var after := After(baselines, now);
    AfterBaselines(baselines, now);
    IntervalsAreDisjoint(data, accountId, observations, after, now);
    WiderBounds(e.intervals, data, accountId, after, observations[|observations| - 1].observedAt, now - DAY, now);
    IntervalsWithinSpan(e.intervals, data, accountId, now - DAY, now);
    SpanIsADay(e.intervals, data, accountId, now);
    HoursOfLength(e.intervals);
    StartsAfter(e.intervals, data, accountId, after, observations[|observations| - 1].observedAt);
  }

  lemma ObservationsAreOrdered(data: EstimateData, accountId: Text, selected: Calibration, now: int, idBefore: IdOrder)
    requires WeakOrder(idBefore) && Observations(data, accountId, selected, now, idBefore).Some?
    ensures var observations := Observations(data, accountId, selected, now, idBefore).value;
            StrictlyByTime(observations) && forall i | 0 <= i < |observations| :: observations[i].observedAt <= now
  {
    hide OrderedQuotas, WeakOrder, Represented, ObservedReadings, Usable;
    var rows := ObservedReadings(data.quotas, accountId, selected, now);
    ObservedReadingsAre(data.quotas, accountId, selected, now);
    OrderedQuotasDecides(rows, idBefore);
  }

  lemma WiderBounds(
    intervals: seq<Interval>, data: EstimateData, accountId: Text, after: int, until: int, earlier: int, later: int)
    requires Disjoint(intervals, data, accountId, after, until) && earlier <= after && until <= later
    ensures Disjoint(intervals, data, accountId, earlier, later)
  {
  }

  lemma StartsAfter(intervals: seq<Interval>, data: EstimateData, accountId: Text, after: int, until: int)
    requires Disjoint(intervals, data, accountId, after, until)
    ensures forall i | 0 <= i < |intervals| :: after <= intervals[i].start
  {
  }

  lemma SpanIsADay(intervals: seq<Interval>, data: EstimateData, accountId: Text, now: int)
    requires Disjoint(intervals, data, accountId, now - DAY, now) && intervals != []
    ensures intervals[|intervals| - 1].end - intervals[0].start <= DAY
  {
  }

  /** Of the account, not revoked, by the method in use, not older than 30 days, and with a positive rate. */
  ghost predicate StillCounts(c: Calibration, accountId: Text, now: int) {
    (c.accountId, c.revoked, c.methodVersion) == (accountId, false, Ascii("local-equivalent-v1-prorated-hours"))
    && now <= c.endedAt + 30 * DAY && 0.0 < c.tokensPerPoint
  }

  lemma ActiveStillCounts(c: Calibration, accountId: Text, now: int)
    ensures Active(c, accountId, now) <==> StillCounts(c, accountId, now)
  {
    hide Ascii;
  }

  lemma ApartInTime(chosen: seq<Calibration>)
    requires Apart(chosen)
    ensures forall i, j | 0 <= i < j < |chosen| ::
              chosen[i].endedAt <= chosen[j].startedAt || chosen[j].endedAt <= chosen[i].startedAt
  {
    forall i, j | 0 <= i < j < |chosen|
      ensures chosen[i].endedAt <= chosen[j].startedAt || chosen[j].endedAt <= chosen[i].startedAt
    {
      assert !Overlaps(chosen[i], chosen[j]);
    }
  }

  /**
   * The baselines behind an estimate: at most five and maximal for the scope of the most recently confirmed calibration,
   * no two overlapping, each active, and each rate within 35% of the median that the estimate uses.
   */
  lemma BaselinesAreSound(
    data: EstimateData, accountId: Text, calibrations: seq<Calibration>, now: int, idBefore: IdOrder, e: CloudEstimate)
    requires EstimateOf(data, accountId, calibrations, now, idBefore) == Success(e)
    ensures var active := ActiveCalibrations(calibrations, accountId, now);
            && active != []
            && (forall c :: c in active <==> c in calibrations && Active(c, accountId, now))
            && (forall c | c in active :: active[0].confirmedAt >= c.confirmedAt)
            && var baselines := Baselines(active, active[0]);
               && 1 <= |baselines| == e.baselineCount <= BASELINE_LIMIT && baselines[0] == active[0]
               && Apart(baselines) && Maximal(baselines, active, active[0])
               && (forall i | 0 <= i < |baselines| :: baselines[i] in active && SameScope(baselines[i], active[0]))
               && (forall i | 0 <= i < |baselines| ::
                     -0.35 * e.tokensPerPoint <= baselines[i].tokensPerPoint - e.tokensPerPoint <= 0.35 * e.tokensPerPoint)
               && (forall i | 0 <= i < |baselines| :: StillCounts(baselines[i], accountId, now))
               && (forall i, j | 0 <= i < j < |baselines| ::
                     baselines[i].endedAt <= baselines[j].startedAt || baselines[j].endedAt <= baselines[i].startedAt)
               && (forall c | c in active && (c.windowKey, c.windowMinutes) == (active[0].windowKey, active[0].windowMinutes) ::
                     c in baselines || Yields(c, baselines))
  {
    hide Median, Rates, SortBy, Baselines, Observations, Intervals, After, SumPoints, SumLocal, ActiveCalibrations,
         Active, IsClaude, HasReadings, Apart, Maximal, SumHours, SameScope, StillCounts, Yields;
    var active := ActiveCalibrations(calibrations, accountId, now);
    ChosenRates(calibrations, accountId, now);
    ActiveAre(calibrations, accountId, now);
    BaselinesAreMaximal(active, active[0]);
    var baselines := Baselines(active, active[0]);
    forall i | 0 <= i < |baselines|
      ensures baselines[i].tokensPerPoint > 0.0 && StillCounts(baselines[i], accountId, now)
    {
      ActiveRate(baselines[i], accountId, now);
      ActiveStillCounts(baselines[i], accountId, now);
    }
    ApartInTime(baselines);
    RatesAreClose(baselines);
    ActiveInOrder(calibrations, accountId, now);
    BaselinesPreferRecent(active, active[0]);
    forall c: Calibration | (c.windowKey, c.windowMinutes) == (active[0].windowKey, active[0].windowMinutes)
      ensures SameScope(c, active[0])
    {
      ScopeIs(c, active[0]);
    }
  }

  lemma ScopeIs(a: Calibration, b: Calibration)
    ensures SameScope(a, b) <==> (a.windowKey, a.windowMinutes) == (b.windowKey, b.windowMinutes)
  {
  }

  lemma ActiveInOrder(cs: seq<Calibration>, accountId: Text, now: int)
    ensures var active := ActiveCalibrations(cs, accountId, now);
            forall i, j | 0 <= i < j < |active| :: active[i].confirmedAt >= active[j].confirmedAt
  {
    hide FilterActive;
    SortBySorts(FilterActive(cs, accountId, now), ConfirmedLater);
    var active := ActiveCalibrations(cs, accountId, now);
    forall i, j | 0 <= i < j < |active| ensures active[i].confirmedAt >= active[j].confirmedAt {
      assert !ConfirmedLater(active[j], active[i]);
    }
  }

  // ---- when there is an estimate ----

  /** The readings up to now of an account's shared window that count. */
  ghost function CurrentReadings(quotas: seq<Quota>, accountId: Text, windowKey: Text, minutes: int, now: int): set<Quota> {
    set q | q in quotas && q.accountId == accountId && !q.historyOnly && q.observedAt <= now
      && (windowKey, minutes) in ALL_MODEL_WINDOWS && q.windowKey == windowKey && q.windowMinutes == minutes
  }

  /** The latest reading is at most two hours old, and its window is still open. */
  ghost predicate Fresh(readings: set<Quota>, now: int) {
    exists q :: IsLatest(q, readings) && now - 2 * HOUR <= q.observedAt && now < q.resetsAt
  }

  ghost predicate IsLatest(q: Quota, readings: set<Quota>) {
    q in readings && forall r | r in readings :: r.observedAt <= q.observedAt
  }

  lemma ObservedAreCurrent(quotas: seq<Quota>, accountId: Text, selected: Calibration, now: int)
    ensures var readings := CurrentReadings(quotas, accountId, selected.windowKey, selected.windowMinutes, now);
            forall q :: q in ObservedReadings(quotas, accountId, selected, now) <==> q in readings
  {
    hide Ascii;
    ObservedReadingsAre(quotas, accountId, selected, now);
  }

  /** The latest kept reading stands for the latest readings. */
  lemma LatestIsFresh(kept: seq<Quota>, rows: seq<Quota>, readings: set<Quota>, now: int)
    requires StrictlyByTime(kept) && Covers(kept, rows) && (forall q :: q in rows <==> q in readings)
    ensures Fresh(readings, now)
       <==> kept != [] && now - kept[|kept| - 1].observedAt <= 2 * HOUR && now < kept[|kept| - 1].resetsAt
  {
    hide Represented;
    if kept != [] {
      var latest := kept[|kept| - 1];
      assert latest in rows && latest in readings;
      forall r | r in readings ensures r.observedAt <= latest.observedAt {
        assert r in rows;
        var k := Representative(kept, r);
      }
      assert IsLatest(latest, readings);
    }
    if q :| IsLatest(q, readings) && now - 2 * HOUR <= q.observedAt && now < q.resetsAt {
      assert q in rows;
      var k := Representative(kept, q);
      assert kept[|kept| - 1] in rows;
      assert k == |kept| - 1;
    }
  }

  /** An estimate is given exactly when all that it needs is there. */
  lemma EstimateSucceedsIff(
    data: EstimateData, accountId: Text, calibrations: seq<Calibration>, now: int, idBefore: IdOrder)
    requires WeakOrder(idBefore)
    ensures forall c :: c in ActiveCalibrations(calibrations, accountId, now)
                   <==> c in calibrations && StillCounts(c, accountId, now)
    ensures var active := ActiveCalibrations(calibrations, accountId, now);
            (EstimateOf(data, accountId, calibrations, now, idBefore).Success?
             <==> && Account(accountId, Ascii("claude")) in data.accounts && active != []
                  && Baselines(active, active[0]) != [] && Median(Rates(Baselines(active, active[0]))) != 0.0
                  && Supported(data, accountId, active[0], Baselines(active, active[0]), now, idBefore))
  {
    hide Median, Rates, SortBy, Baselines, OrderedQuotas, Intervals, After, SumPoints, SumLocal, ObservedReadings,
         ActiveCalibrations, Ascii, WeakOrder, HasReadings, EstimateFrom, Supported, Active, StillCounts;
    var active := ActiveCalibrations(calibrations, accountId, now);
    ActiveAre(calibrations, accountId, now);
    forall c ensures Active(c, accountId, now) <==> StillCounts(c, accountId, now) { ActiveStillCounts(c, accountId, now); }
    ChosenRates(calibrations, accountId, now);
    if active != [] {
      SupportedIff(data, accountId, active[0], Baselines(active, active[0]), now, idBefore);
    }
  }

  /** The baselines agree, the readings are undisputed and fresh, and the intervals say enough and not too much. */
  ghost predicate Supported(
    data: EstimateData, accountId: Text, selected: Calibration, baselines: seq<Calibration>, now: int,
    idBefore: IdOrder)
    requires baselines != [] && Median(Rates(baselines)) != 0.0
  {
    var readings := CurrentReadings(data.quotas, accountId, selected.windowKey, selected.windowMinutes, now);
    var observations := Observations(data, accountId, selected, now, idBefore);
    && Spread(Rates(baselines)) <= 0.35 && Undisputed(readings) && Fresh(readings, now) && observations.Some?
    && var intervals := Intervals(data, accountId, observations.value, After(baselines, now), now);
       && intervals != [] && 3.0 <= SumPoints(intervals)
       && SumLocal(intervals) <= SumPoints(intervals) * Median(Rates(baselines))
  }

  lemma SupportedIff(
    data: EstimateData, accountId: Text, selected: Calibration, baselines: seq<Calibration>, now: int, idBefore: IdOrder)
    requires WeakOrder(idBefore) && baselines != [] && Median(Rates(baselines)) != 0.0
    ensures EstimateFrom(data, accountId, baselines, selected, now, idBefore).Success?
       <==> Supported(data, accountId, selected, baselines, now, idBefore)
    ensures Supported(data, accountId, selected, baselines, now, idBefore) ==> HasReadings(data, accountId)
  {
    hide Median, Rates, SortBy, OrderedQuotas, Intervals, After, SumPoints, SumLocal, ObservedReadings,
         WeakOrder, SumHours, CurrentReadings, Fresh, Undisputed, Conflict, Covers, StrictlyByTime, HasReadings;
    var readings := CurrentReadings(data.quotas, accountId, selected.windowKey, selected.windowMinutes, now);
    var rows := ObservedReadings(data.quotas, accountId, selected, now);
    ObservedAreCurrent(data.quotas, accountId, selected, now);
    OrderedQuotasDecides(rows, idBefore);
    OneWindow(data.quotas, accountId, selected, now);
    HasCurrentReadings(data, accountId, selected, now);
    DisputeIsConflict(rows, readings);
    if Observations(data, accountId, selected, now, idBefore).Some? {
      LatestIsFresh(Observations(data, accountId, selected, now, idBefore).value, rows, readings, now);
    }
  }

  lemma OneWindow(quotas: seq<Quota>, accountId: Text, selected: Calibration, now: int)
    ensures var readings := CurrentReadings(quotas, accountId, selected.windowKey, selected.windowMinutes, now);
            forall a, b | a in readings && b in readings :: a.windowKey == b.windowKey
  {
  }

  lemma HasCurrentReadings(data: EstimateData, accountId: Text, selected: Calibration, now: int)
    ensures Fresh(CurrentReadings(data.quotas, accountId, selected.windowKey, selected.windowMinutes, now), now) ==>
              HasReadings(data, accountId)
  {
    hide Ascii;
    var readings := CurrentReadings(data.quotas, accountId, selected.windowKey, selected.windowMinutes, now);
    if Fresh(readings, now) {
      var q :| IsLatest(q, readings);
      var i :| 0 <= i < |data.quotas| && data.quotas[i] == q;
      assert Usable(data.quotas[i], accountId);
    }
  }

  // ---- which intervals count ----

  /** Two readings next to each other, in the time that counts, that continue each other over a covered span. */
  ghost predicate Measured(
    data: EstimateData, accountId: Text, readings: set<Quota>, a: Quota, b: Quota, after: int, now: int)
  {
    && Adjacent(readings, a, b) && after <= a.observedAt && CeilHour(b.observedAt) <= now
    && a.resetsAt == b.resetsAt && b.observedAt - a.observedAt <= 3 * HOUR && a.usedPercent <= b.usedPercent
    && Covered(data, accountId, a.observedAt, b.observedAt, now)
  }

  /** The interval between two readings. */
  ghost predicate Measures(x: Interval, data: EstimateData, accountId: Text, a: Quota, b: Quota) {
    && x.start == a.observedAt && x.end == b.observedAt && x.points == b.usedPercent - a.usedPercent
    && x.local == IntervalTokens(data.hourly, accountId, a.observedAt, b.observedAt)
  }

  lemma {:induction false} IntervalsOfPairs(
    data: EstimateData, accountId: Text, observations: seq<Quota>, after: int, now: int, x: Interval)
    ensures x in Intervals(data, accountId, observations, after, now)
       <==> exists i :: 0 < i < |observations| && Counts(data, accountId, observations[i - 1], observations[i], after, now)
                        && x == IntervalBetween(data, accountId, observations[i - 1], observations[i])
  {
    hide Counts, IntervalBetween;
    if |observations| >= 2 {
      var n := |observations| - 1;
      IntervalsOfPairs(data, accountId, observations[..n], after, now, x);
    }
  }

  /** The intervals are those of the measured pairs of readings, no more and no fewer. */
  lemma IntervalsAreMeasured(
    data: EstimateData, accountId: Text, selected: Calibration, after: int, now: int, idBefore: IdOrder, x: Interval)
    requires WeakOrder(idBefore) && Observations(data, accountId, selected, now, idBefore).Some?
    ensures var observations := Observations(data, accountId, selected, now, idBefore).value;
            var readings := CurrentReadings(data.quotas, accountId, selected.windowKey, selected.windowMinutes, now);
            (x in Intervals(data, accountId, observations, after, now)
             <==> exists a, b :: Measured(data, accountId, readings, a, b, after, now)
                                 && Measures(x, data, accountId, a, b))
  {
    hide OrderedQuotas, Intervals, ObservedReadings, WeakOrder, CurrentReadings, Covers, StrictlyByTime, Counts,
         IntervalBetween, Measured, Measures;
    var observations := Observations(data, accountId, selected, now, idBefore).value;
    var readings := CurrentReadings(data.quotas, accountId, selected.windowKey, selected.windowMinutes, now);
    ObservedAreCurrent(data.quotas, accountId, selected, now);
    OrderedQuotasDecides(ObservedReadings(data.quotas, accountId, selected, now), idBefore);
    OneScope(data.quotas, accountId, selected, now);
    IntervalsOfPairs(data, accountId, observations, after, now, x);
    var rows := ObservedReadings(data.quotas, accountId, selected, now);
    if i :| 0 < i < |observations| && Counts(data, accountId, observations[i - 1], observations[i], after, now)
                        && x == IntervalBetween(data, accountId, observations[i - 1], observations[i]) {
      PairIsMeasured(data, accountId, rows, readings, observations, i, after, now);
    }
    if a, b :| Measured(data, accountId, readings, a, b, after, now) && Measures(x, data, accountId, a, b) {
      var i := MeasuredIsPair(data, accountId, rows, readings, observations, a, b, after, now, x);
    }
  }

  /** The intervals of an estimate are those of the measured pairs since a day ago or the last baseline. */
  lemma EstimateIsMeasured(
    data: EstimateData, accountId: Text, calibrations: seq<Calibration>, now: int, idBefore: IdOrder, e: CloudEstimate,
    x: Interval)
    requires WeakOrder(idBefore)
    requires EstimateOf(data, accountId, calibrations, now, idBefore) == Success(e)
    ensures var active := ActiveCalibrations(calibrations, accountId, now);
            && active != [] && Baselines(active, active[0]) != []
            && var readings := CurrentReadings(data.quotas, accountId, active[0].windowKey, active[0].windowMinutes, now);
               var after := After(Baselines(active, active[0]), now);
               && Fresh(readings, now) && (e.windowKey, e.windowMinutes) == (active[0].windowKey, active[0].windowMinutes)
               && e.tokensPerPoint == Median(Rates(Baselines(active, active[0])))
               && (x in e.intervals
                   <==> exists a, b :: Measured(data, accountId, readings, a, b, after, now)
                                       && Measures(x, data, accountId, a, b))
  {
    hide Median, Rates, SortBy, Baselines, Observations, Intervals, After, SumPoints, SumLocal, ActiveCalibrations,
         CurrentReadings, Fresh, Measured, Measures, IsClaude, HasReadings, SumHours, Spread, Undisputed;
    var active := ActiveCalibrations(calibrations, accountId, now);
    ChosenRates(calibrations, accountId, now);
    SupportedIff(data, accountId, active[0], Baselines(active, active[0]), now, idBefore);
    IntervalsAreMeasured(data, accountId, active[0], After(Baselines(active, active[0]), now), now, idBefore, x);
  }

  lemma OneScope(quotas: seq<Quota>, accountId: Text, selected: Calibration, now: int)
    ensures var readings := CurrentReadings(quotas, accountId, selected.windowKey, selected.windowMinutes, now);
            SameScopes(readings)
  {
  }

  ghost predicate SameScopes(readings: set<Quota>) {
    forall a, b | a in readings && b in readings :: a.windowKey == b.windowKey && a.windowMinutes == b.windowMinutes
  }

  lemma PairIsMeasured(
    data: EstimateData, accountId: Text, rows: seq<Quota>, readings: set<Quota>, kept: seq<Quota>, i: nat, after: int,
    now: int)
    requires (forall q :: q in rows <==> q in readings) && StrictlyByTime(kept) && Covers(kept, rows)
    requires 0 < i < |kept| && Counts(data, accountId, kept[i - 1], kept[i], after, now)
    ensures Measured(data, accountId, readings, kept[i - 1], kept[i], after, now)
    ensures Measures(IntervalBetween(data, accountId, kept[i - 1], kept[i]), data, accountId, kept[i - 1], kept[i])
  {
    hide Represented, ProblemOf, Covered, IntervalTokens;
    var a, b := kept[i - 1], kept[i];
    NoProblemIffCovered(data, accountId, a.observedAt, b.observedAt, now);
    assert a in rows && b in rows;
    forall q | q in readings ensures q.observedAt <= a.observedAt || b.observedAt <= q.observedAt {
      assert q in rows;
      var k := Representative(kept, q);
    }
  }

  lemma MeasuredIsPair(
    data: EstimateData, accountId: Text, rows: seq<Quota>, readings: set<Quota>, kept: seq<Quota>, a: Quota, b: Quota,
    after: int, now: int, x: Interval) returns (j: nat)
    requires (forall q :: q in rows <==> q in readings) && StrictlyByTime(kept) && Covers(kept, rows)
    requires SameScopes(readings) && Measured(data, accountId, readings, a, b, after, now)
    requires Measures(x, data, accountId, a, b)
    ensures 0 < j < |kept| && Counts(data, accountId, kept[j - 1], kept[j], after, now)
    ensures x == IntervalBetween(data, accountId, kept[j - 1], kept[j])
  {
    hide Represented, ProblemOf, Covered, IntervalTokens;
    assert a in rows && b in rows;
    var i := Representative(kept, a);
    j := Representative(kept, b);
    assert forall k | 0 <= k < |kept| :: kept[k] in readings;
    assert i < j;
    assert kept[i + 1].observedAt <= a.observedAt || b.observedAt <= kept[i + 1].observedAt;
    assert i + 1 == j;
    NoProblemIffCovered(data, accountId, a.observedAt, b.observedAt, now);
  }
}
