/** The arithmetic of cloud estimates: readings, proration, coverage, calibrations and intervals. */
module Estimate {
  import opened Texts
  import opened Stable

  const HOUR: int := 3_600_000
  const DAY: int := 24 * HOUR

  /** An allowance reading; instants are in milliseconds. */
  datatype Quota = Quota(
    id: Text, accountId: Text, windowKey: Text, windowMinutes: int, resetsAt: int, observedAt: int, usedPercent: real,
    historyOnly: bool)

  /** Tokens counted locally in the hour that starts at an instant. */
  datatype HourRow = HourRow(accountId: Text, hour: int, totalTokens: real)

  datatype Coverage = Coverage(since: Option<int>, unavailableRoots: nat, malformedLines: nat)

  datatype Source = Source(
    accountId: Text, mode: Text, disabled: bool, lastSeenAt: Option<int>, coverage: Option<Coverage>)

  datatype Account = Account(id: Text, provider: Text)

  datatype EstimateData =
    EstimateData(accounts: seq<Account>, quotas: seq<Quota>, hourly: seq<HourRow>, sources: seq<Source>)

  datatype Calibration = Calibration(
    accountId: Text, windowKey: Text, windowMinutes: int, startedAt: int, endedAt: int, tokensPerPoint: real,
    methodVersion: Text, confirmedAt: int, revoked: bool)

  const METHOD_VERSION: Text := Ascii("local-equivalent-v1-prorated-hours")

  // ---- readings ----

  predicate AllModelWindow(q: Quota) {
    || (q.windowKey == Ascii("five_hour") && q.windowMinutes == 300)
    || (q.windowKey == Ascii("seven_day") && q.windowMinutes == 10080)
  }

  predicate SameWindow(a: Quota, b: Quota) {
    a.windowKey == b.windowKey && a.windowMinutes == b.windowMinutes && a.resetsAt == b.resetsAt
  }

  predicate Continuous(a: Quota, b: Quota) {
    && SameWindow(a, b) && b.observedAt > a.observedAt && b.observedAt - a.observedAt <= 3 * HOUR
    && b.usedPercent >= a.usedPercent
  }

  /** The same reading: window and percent. */
  predicate Agree(a: Quota, b: Quota) { SameWindow(a, b) && a.usedPercent == b.usedPercent }

  /** Some total order of ids. */
  type IdOrder = (Text, Text) -> bool

  predicate ReadingBefore(a: Quota, b: Quota, idBefore: IdOrder) {
    a.observedAt < b.observedAt || (a.observedAt == b.observedAt && idBefore(a.id, b.id))
  }

  function ReadingOrder(idBefore: IdOrder): (Quota, Quota) -> bool {
    (a: Quota, b: Quota) => ReadingBefore(a, b, idBefore)
  }

  lemma ReadingOrderIsWeak(idBefore: IdOrder)
    requires WeakOrder(idBefore)
    ensures WeakOrder(ReadingOrder(idBefore))
  {
    var before := ReadingOrder(idBefore);
    forall a, b, c | before(a, b) ensures before(a, c) || before(c, b) {
      assert idBefore(a.id, b.id) ==> idBefore(a.id, c.id) || idBefore(c.id, b.id);
    }
    forall a, b | before(a, b) ensures !before(b, a) {
      assert idBefore(a.id, b.id) ==> !idBefore(b.id, a.id);
    }
  }

  /** The reading kept for each instant, and the instants in the order in which they were first seen. */
  datatype Kept = Kept(rowsByTime: map<int, Quota>, times: seq<int>)

  /** One more reading; None when it disagrees with the one kept for its instant. */
  function Keep(kept: Kept, q: Quota): (r: Option<Kept>)
    ensures Complete(kept) && r.Some? ==> Complete(r.value)
  {
    if q.observedAt !in kept.rowsByTime then
      Some(Kept(kept.rowsByTime[q.observedAt := q], kept.times + [q.observedAt]))
    else if Agree(kept.rowsByTime[q.observedAt], q) then Some(kept)
    else None
  }

  function KeepAll(rows: seq<Quota>): (r: Option<Kept>)
    ensures r.Some? ==> Complete(r.value)
  {
    if rows == [] then Some(Kept(map[], []))
    else
      match KeepAll(rows[..|rows| - 1])
      case None => None
      case Some(kept) => Keep(kept, rows[|rows| - 1])
  }

  predicate Complete(kept: Kept) { forall i | 0 <= i < |kept.times| :: kept.times[i] in kept.rowsByTime }

  function InOrder(kept: Kept): seq<Quota>
    requires Complete(kept)
  {
    seq(|kept.times|, i requires 0 <= i < |kept.times| => kept.rowsByTime[kept.times[i]])
  }

  ghost predicate ByTime(rows: seq<Quota>) {
    forall i, j | 0 <= i < j < |rows| :: rows[i].observedAt <= rows[j].observedAt
  }

  /** Two readings of the same instant disagree. */
  ghost predicate Conflict(rows: seq<Quota>) {
    exists a, b :: a in rows && b in rows && a.observedAt == b.observedAt && !Agree(a, b)
  }

  /** One kept reading for every instant, agreeing with all readings of that instant. */
  ghost predicate Represents(kept: Kept, rows: seq<Quota>) {
    && (forall t | t in kept.rowsByTime :: kept.rowsByTime[t].observedAt == t && kept.rowsByTime[t] in rows)
    && (forall q | q in rows :: q.observedAt in kept.rowsByTime && Agree(kept.rowsByTime[q.observedAt], q))
    && (forall t :: t in kept.times <==> t in kept.rowsByTime)
    && (forall i, j | 0 <= i < j < |kept.times| :: kept.times[i] < kept.times[j])
  }

  lemma KeepStep(init: seq<Quota>, q: Quota, kept: Kept)
    requires ByTime(init + [q]) && Represents(kept, init)
    ensures Keep(kept, q).Some? ==> Represents(Keep(kept, q).value, init + [q])
    ensures Keep(kept, q).None? ==> Conflict(init + [q])
  {
    var rows := init + [q];
    assert forall x :: x in rows <==> x in init || x == q;
    if q.observedAt !in kept.rowsByTime {
      forall t | t in kept.times ensures t < q.observedAt {
        var x := kept.rowsByTime[t];
        var i :| 0 <= i < |init| && init[i] == x;
        assert rows[i] == x && rows[|init|] == q;
      }
    } else if !Agree(kept.rowsByTime[q.observedAt], q) {
      assert kept.rowsByTime[q.observedAt] in rows && q in rows;
    }
  }

  lemma {:induction false} KeepAllDecides(rows: seq<Quota>)
    requires ByTime(rows)
    ensures KeepAll(rows).None? ==> Conflict(rows)
    ensures KeepAll(rows).Some? ==> Represents(KeepAll(rows).value, rows) && !Conflict(rows)
  {
    hide Keep, Represents, Agree;
    if rows == [] {
      NothingKept();
    } else {
      var n := |rows| - 1;
      var init, q := rows[..n], rows[n];
      assert rows == init + [q];
      KeepAllDecides(init);
      if KeepAll(init).None? {
        var a, b :| a in init && b in init && a.observedAt == b.observedAt && !Agree(a, b);
        assert a in rows && b in rows;
      } else {
        KeepStep(init, q, KeepAll(init).value);
        if KeepAll(rows).Some? { RepresentedAgree(KeepAll(rows).value, rows); }
      }
    }
  }

  lemma NothingKept()
    ensures Represents(Kept(map[], []), [])
  {
  }

  lemma RepresentedAgree(kept: Kept, rows: seq<Quota>)
    requires Represents(kept, rows)
    ensures !Conflict(rows)
  {
    forall a, b | a in rows && b in rows && a.observedAt == b.observedAt ensures Agree(a, b) {
      assert Agree(kept.rowsByTime[a.observedAt], a) && Agree(kept.rowsByTime[b.observedAt], b);
    }
  }

  /** The readings in order, one per instant; None when two readings of one instant disagree. */
  function OrderedQuotas(rows: seq<Quota>, idBefore: IdOrder): Option<seq<Quota>> {
    match KeepAll(SortBy(rows, ReadingOrder(idBefore)))
    case None => None
    case Some(kept) => Some(InOrder(kept))
  }

  lemma SortedByTime(rows: seq<Quota>, idBefore: IdOrder)
    requires WeakOrder(idBefore)
    ensures ByTime(SortBy(rows, ReadingOrder(idBefore)))
    ensures forall q :: q in SortBy(rows, ReadingOrder(idBefore)) <==> q in rows
  {
    ReadingOrderIsWeak(idBefore);
    SortBySorts(rows, ReadingOrder(idBefore));
    var s := SortBy(rows, ReadingOrder(idBefore));
    forall i, j | 0 <= i < j < |s| ensures s[i].observedAt <= s[j].observedAt {
      assert !ReadingOrder(idBefore)(s[j], s[i]);
    }
  }

  ghost predicate StrictlyByTime(rows: seq<Quota>) {
    forall i, j | 0 <= i < j < |rows| :: rows[i].observedAt < rows[j].observedAt
  }

  /** Some kept reading is of q's instant and agrees with q. */
  ghost predicate Represented(q: Quota, kept: seq<Quota>) {
    exists i :: 0 <= i < |kept| && kept[i].observedAt == q.observedAt && Agree(kept[i], q)
  }

  /** Every reading is represented by the one of its instant. */
  ghost predicate Covers(kept: seq<Quota>, rows: seq<Quota>) {
    && (forall i | 0 <= i < |kept| :: kept[i] in rows)
    && (forall q | q in rows :: Represented(q, kept))
  }

  /**
   * No readings come back exactly when two of one instant disagree; else one per instant, strictly increasing in
   * time.
   */
  lemma OrderedQuotasDecides(rows: seq<Quota>, idBefore: IdOrder)
    requires WeakOrder(idBefore)
    ensures OrderedQuotas(rows, idBefore).None? <==> Conflict(rows)
    ensures OrderedQuotas(rows, idBefore).Some? ==>
      StrictlyByTime(OrderedQuotas(rows, idBefore).value) && Covers(OrderedQuotas(rows, idBefore).value, rows)
  {
    hide SortBy, KeepAll, Agree;
    var sorted := SortBy(rows, ReadingOrder(idBefore));
    SortedByTime(rows, idBefore);
    KeepAllDecides(sorted);
    assert Conflict(rows) <==> Conflict(sorted);
    if KeepAll(sorted).Some? { KeptCovers(KeepAll(sorted).value, sorted, rows); }
  }

  lemma KeptCovers(kept: Kept, sorted: seq<Quota>, rows: seq<Quota>)
    requires Represents(kept, sorted) && Complete(kept) && forall q :: q in sorted <==> q in rows
    ensures StrictlyByTime(InOrder(kept)) && Covers(InOrder(kept), rows)
  {
    hide Agree;
    var r := InOrder(kept);
    forall i | 0 <= i < |r| ensures r[i].observedAt == kept.times[i] && r[i] in rows {
      assert kept.times[i] in kept.rowsByTime;
    }
    forall q | q in rows ensures Represented(q, r) {
      assert q in sorted && q.observedAt in kept.times;
      var i :| 0 <= i < |kept.times| && kept.times[i] == q.observedAt;
      assert r[i] == kept.rowsByTime[q.observedAt];
    }
  }

  /** orderedQuotas as it runs. */
  method OrderQuotas(rows: seq<Quota>, idBefore: IdOrder) returns (r: Option<seq<Quota>>)
    ensures r == OrderedQuotas(rows, idBefore)
  {
    hide SortBy, Agree, ReadingOrder;
    var sorted := SortBy(rows, ReadingOrder(idBefore));
    var rowsByTime: map<int, Quota> := map[];
    var times: seq<int> := [];
    for i := 0 to |sorted|
      invariant KeepAll(sorted[..i]) == Some(Kept(rowsByTime, times))
    {
      var q := sorted[i];
      assert sorted[..i + 1][..i] == sorted[..i];
      if q.observedAt in rowsByTime && !Agree(rowsByTime[q.observedAt], q) {
        RefusedForGood(sorted, i + 1);
        return None;
      }
      if q.observedAt !in rowsByTime {
        rowsByTime := rowsByTime[q.observedAt := q];
        times := times + [q.observedAt];
      }
    }
    assert sorted[..|sorted|] == sorted;
    return Some(InOrder(Kept(rowsByTime, times)));
  }

  lemma {:induction false} RefusedForGood(rows: seq<Quota>, n: nat)
    requires n <= |rows| && KeepAll(rows[..n]).None?
    ensures KeepAll(rows).None?
    decreases |rows|
  {
    hide Keep;
    if n == |rows| {
      assert rows[..n] == rows;
    } else {
      assert rows[..|rows| - 1][..n] == rows[..n];
      RefusedForGood(rows[..|rows| - 1], n);
    }
  }

  // ---- proration ----

  function Min(a: int, b: int): int { if a < b then a else b }
  function Max(a: int, b: int): int { if a < b then b else a }

  /** How much of the hour that starts at an instant lies between start and end. */
  function Overlap(hour: int, start: int, end: int): int {
    Max(0, Min(end, hour + HOUR) - Max(start, hour))
  }

  function Share(row: HourRow, accountId: Text, start: int, end: int): real {
    if row.accountId != accountId then 0.0
    else row.totalTokens * Overlap(row.hour, start, end) as real / HOUR as real
  }

  /** Tokens of an account between two instants, hours prorated uniformly. */
  function IntervalTokens(rows: seq<HourRow>, accountId: Text, start: int, end: int): real {
    if rows == [] then 0.0
    else IntervalTokens(rows[..|rows| - 1], accountId, start, end) + Share(rows[|rows| - 1], accountId, start, end)
  }

  lemma ShareSplits(row: HourRow, accountId: Text, start: int, middle: int, end: int)
    requires start <= middle <= end
    ensures Share(row, accountId, start, end) == Share(row, accountId, start, middle)
      + Share(row, accountId, middle, end)
  {
    var a, b, c := Overlap(row.hour, start, middle) as real, Overlap(row.hour, middle, end) as real,
      Overlap(row.hour, start, end) as real;
    assert c == a + b;
    assert row.totalTokens * c == row.totalTokens * a + row.totalTokens * b;
  }

  /** Proration is additive over adjacent spans. */
  lemma {:induction false} TokensSplit(rows: seq<HourRow>, accountId: Text, start: int, middle: int, end: int)
    requires start <= middle <= end
    ensures IntervalTokens(rows, accountId, start, end)
         == IntervalTokens(rows, accountId, start, middle) + IntervalTokens(rows, accountId, middle, end)
  {
    hide Share;
    if rows != [] {
      TokensSplit(rows[..|rows| - 1], accountId, start, middle, end);
      ShareSplits(rows[|rows| - 1], accountId, start, middle, end);
    }
  }

  /** Rows count one by one: what two lists give together is what each gives alone. */
  lemma {:induction false} TokensConcat(a: seq<HourRow>, b: seq<HourRow>, accountId: Text, start: int, end: int)
    ensures IntervalTokens(a + b, accountId, start, end)
         == IntervalTokens(a, accountId, start, end) + IntervalTokens(b, accountId, start, end)
    decreases |b|
  {
    hide Share;
    if b == [] {
      assert a + b == a;
    } else {
      var n := |b| - 1;
      assert (a + b)[..|a + b| - 1] == a + b[..n];
      TokensConcat(a, b[..n], accountId, start, end);
    }
  }

  /** One row within its hour: its tokens times the part of the hour that the span takes. */
  lemma HourIsProrated(row: HourRow, start: int, end: int)
    requires row.hour <= start <= end <= row.hour + HOUR
    ensures IntervalTokens([row], row.accountId, start, end) * HOUR as real == row.totalTokens * (end - start) as real
  {
    assert [row][..0] == [];
    assert IntervalTokens([row], row.accountId, start, end) == Share(row, row.accountId, start, end);
    assert Overlap(row.hour, start, end) == end - start;
    var x := row.totalTokens * (end - start) as real;
    assert x / HOUR as real * HOUR as real == x;
  }

  /** Rows of other accounts and rows whose hours lie apart from the span count nothing. */
  predicate Outside(row: HourRow, accountId: Text, start: int, end: int) {
    row.accountId != accountId || end <= row.hour || row.hour + HOUR <= start
  }

  lemma {:induction false} OutsideCountsNothing(rows: seq<HourRow>, accountId: Text, start: int, end: int)
    requires forall i | 0 <= i < |rows| :: Outside(rows[i], accountId, start, end)
    ensures IntervalTokens(rows, accountId, start, end) == 0.0
  {
    if rows != [] {
      var row := rows[|rows| - 1];
      OutsideCountsNothing(rows[..|rows| - 1], accountId, start, end);
      assert row.accountId == accountId ==> Overlap(row.hour, start, end) == 0;
    }
  }

  /** All tokens of an account's rows. */
  function TotalTokens(rows: seq<HourRow>, accountId: Text): real {
    if rows == [] then 0.0
    else (if rows[0].accountId == accountId then rows[0].totalTokens else 0.0) + TotalTokens(rows[1..], accountId)
  }

  /** A span over all hours of an account gives all their tokens. */
  lemma {:induction false} WholeHoursCountInFull(rows: seq<HourRow>, accountId: Text, start: int, end: int)
    requires forall i | 0 <= i < |rows| && rows[i].accountId == accountId ::
               start <= rows[i].hour && rows[i].hour + HOUR <= end
    ensures IntervalTokens(rows, accountId, start, end) == TotalTokens(rows, accountId)
  {
    hide TotalTokens;
    if rows == [] {
      assert TotalTokens(rows, accountId) == 0.0 by { NoTokens(accountId); }
    } else {
      var first, rest := rows[0], rows[1..];
      WholeHoursCountInFull(rest, accountId, start, end);
      TokensConcat([first], rest, accountId, start, end);
      assert [first] + rest == rows;
      FullHour(first, accountId, start, end);
      FirstTokens(rows, accountId);
    }
  }

  lemma NoTokens(accountId: Text)
    ensures TotalTokens([], accountId) == 0.0
  {
  }

  lemma FirstTokens(rows: seq<HourRow>, accountId: Text)
    requires rows != []
    ensures TotalTokens(rows, accountId)
         == (if rows[0].accountId == accountId then rows[0].totalTokens else 0.0) + TotalTokens(rows[1..], accountId)
  {
  }

  lemma FullHour(row: HourRow, accountId: Text, start: int, end: int)
    requires row.accountId == accountId ==> start <= row.hour && row.hour + HOUR <= end
    ensures IntervalTokens([row], accountId, start, end) == if row.accountId == accountId then row.totalTokens else 0.0
  {
    assert [row][..0] == [];
    assert IntervalTokens([row], accountId, start, end) == Share(row, accountId, start, end);
    if row.accountId == accountId {
      assert Overlap(row.hour, start, end) == HOUR;
      assert row.totalTokens * HOUR as real / HOUR as real == row.totalTokens;
    }
  }

  predicate NonNegative(rows: seq<HourRow>) { forall i | 0 <= i < |rows| :: rows[i].totalTokens >= 0.0 }

  lemma {:induction false} TokensNonNegative(rows: seq<HourRow>, accountId: Text, start: int, end: int)
    requires NonNegative(rows)
    ensures IntervalTokens(rows, accountId, start, end) >= 0.0
  {
    if rows != [] {
      TokensNonNegative(rows[..|rows| - 1], accountId, start, end);
      var row := rows[|rows| - 1];
      var share := Overlap(row.hour, start, end) as real;
      assert row.totalTokens * share >= 0.0;
      assert row.totalTokens * share / HOUR as real >= 0.0;
    }
  }

  // ---- coverage ----

  datatype CoverageProblem = NoCollector | BoundaryHourOpen | CollectorsBehind | CollectionIncomplete

  /** The first full hour at or after an instant. */
  function CeilHour(t: int): (r: int)
    ensures t <= r < t + HOUR && r % HOUR == 0
  {
    (t + HOUR - 1) / HOUR * HOUR
  }

  predicate LocalSource(s: Source, accountId: Text) {
    s.accountId == accountId && s.mode == Ascii("local") && !s.disabled
  }

  predicate CaughtUp(s: Source, completeThrough: int, now: int) {
    s.lastSeenAt.Some? && now - s.lastSeenAt.value <= 2 * HOUR && s.lastSeenAt.value >= completeThrough
  }

  predicate Collecting(s: Source, start: int) {
    && s.coverage.Some? && s.coverage.value.since.Some? && s.coverage.value.since.value <= start
    && s.coverage.value.unavailableRoots == 0 && s.coverage.value.malformedLines == 0
  }

  /** A span is covered: its boundary hour is over, and every local collector saw all of it. */
  ghost predicate Covered(data: EstimateData, accountId: Text, start: int, end: int, now: int) {
    var local := set s | s in data.sources && s.accountId == accountId && s.mode == Ascii("local") && !s.disabled;
    && local != {} && CeilHour(end) <= now
    && (forall s | s in local :: Saw(s, start, CeilHour(end), now))
  }

  /**
   * A collector has reported within two hours and not before the span's last hour was over, and has collected since
   * before the span without losing a root or a line.
   */
  ghost predicate Saw(s: Source, start: int, through: int, now: int) {
    exists seen, since ::
      && s.lastSeenAt == Some(seen) && through <= seen && now - 2 * HOUR <= seen
      && s.coverage == Some(Coverage(Some(since), 0, 0)) && since <= start
  }

  lemma SawIff(s: Source, start: int, through: int, now: int)
    ensures Saw(s, start, through, now) <==> CaughtUp(s, through, now) && Collecting(s, start)
  {
    if CaughtUp(s, through, now) && Collecting(s, start) {
      var seen, since := s.lastSeenAt.value, s.coverage.value.since.value;
      assert s.lastSeenAt == Some(seen) && s.coverage == Some(Coverage(Some(since), 0, 0));
    }
  }

  function LocalSources(sources: seq<Source>, accountId: Text): seq<Source> {
    if sources == [] then []
    else (if LocalSource(sources[0], accountId) then [sources[0]] else []) + LocalSources(sources[1..], accountId)
  }

  lemma {:induction false} LocalSourcesAre(sources: seq<Source>, accountId: Text)
    ensures forall s :: s in LocalSources(sources, accountId) <==> s in sources && LocalSource(s, accountId)
  {
    hide LocalSource;
    if sources != [] {
      LocalSourcesAre(sources[1..], accountId);
      assert forall s :: s in sources <==> s == sources[0] || s in sources[1..];
    }
  }

  function SourceProblem(sources: seq<Source>, start: int, completeThrough: int, now: int): Option<CoverageProblem> {
    if sources == [] then None
    else if !CaughtUp(sources[0], completeThrough, now) then Some(CollectorsBehind)
    else if !Collecting(sources[0], start) then Some(CollectionIncomplete)
    else SourceProblem(sources[1..], start, completeThrough, now)
  }

  function ProblemOf(data: EstimateData, accountId: Text, start: int, end: int, now: int): Option<CoverageProblem> {
    var sources := LocalSources(data.sources, accountId);
    if sources == [] then Some(NoCollector)
    else if CeilHour(end) > now then Some(BoundaryHourOpen)
    else SourceProblem(sources, start, CeilHour(end), now)
  }

  /** coverageProblem as it runs: the collectors in turn, the first problem wins. */
  method FindProblem(data: EstimateData, accountId: Text, start: int, end: int, now: int)
    returns (problem: Option<CoverageProblem>)
    ensures problem == ProblemOf(data, accountId, start, end, now)
  {
    hide LocalSources, CaughtUp, Collecting;
    var sources := LocalSources(data.sources, accountId);
    if sources == [] {
      return Some(NoCollector);
    }
    var completeThrough := CeilHour(end);
    if completeThrough > now {
      return Some(BoundaryHourOpen);
    }
    for i := 0 to |sources|
      invariant SourceProblem(sources[i..], start, completeThrough, now)
        == SourceProblem(sources, start, completeThrough, now)
    {
      assert sources[i..][1..] == sources[i + 1..];
      if !CaughtUp(sources[i], completeThrough, now) {
        return Some(CollectorsBehind);
      }
      if !Collecting(sources[i], start) {
        return Some(CollectionIncomplete);
      }
    }
    return None;
  }

  lemma {:induction false} NoSourceProblem(sources: seq<Source>, start: int, completeThrough: int, now: int)
    ensures SourceProblem(sources, start, completeThrough, now).None?
       <==> forall s | s in sources :: CaughtUp(s, completeThrough, now) && Collecting(s, start)
  {
    hide CaughtUp, Collecting;
    if sources != [] {
      NoSourceProblem(sources[1..], start, completeThrough, now);
      assert sources[0] in sources;
      assert forall s :: s in sources <==> s == sources[0] || s in sources[1..];
    }
  }

  /** There is no problem exactly when the span is covered. */
  lemma NoProblemIffCovered(data: EstimateData, accountId: Text, start: int, end: int, now: int)
    ensures ProblemOf(data, accountId, start, end, now).None? <==> Covered(data, accountId, start, end, now)
  {
    hide CaughtUp, Collecting, LocalSources, Saw, Ascii;
    var sources := LocalSources(data.sources, accountId);
    LocalSourcesAre(data.sources, accountId);
    NoSourceProblem(sources, start, CeilHour(end), now);
    var local := set s | s in data.sources && s.accountId == accountId && s.mode == Ascii("local") && !s.disabled;
    assert forall s :: s in local <==> s in sources;
    forall s ensures Saw(s, start, CeilHour(end), now) <==> CaughtUp(s, CeilHour(end), now) && Collecting(s, start) {
      SawIff(s, start, CeilHour(end), now);
    }
    if sources != [] { assert sources[0] in sources; }
  }
}
