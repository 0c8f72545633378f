/** calibrationPreview: a local-only period between two readings, and its tokens per percentage point. */
module Calibrations {
  import opened Texts
  import opened Stable
  import opened Estimate

  datatype Result<T, E> = Success(value: T) | Failure(error: E)

  datatype Preview = Preview(
    accountId: Text, windowKey: Text, windowMinutes: int, startSampleId: Text, endSampleId: Text, startedAt: int,
      endedAt: int,
    localTokens: real, percentDelta: real, tokensPerPoint: real, methodVersion: Text, samples: nat)

  datatype PreviewFailure =
    | NotClaude | NotOneWindow | BadPeriod | Interrupted | TooFewPoints | Uncovered(problem: CoverageProblem) | NoLocalActivity

  predicate IsClaude(data: EstimateData, accountId: Text) {
    exists i :: 0 <= i < |data.accounts| && data.accounts[i] == Account(accountId, Ascii("claude"))
  }

  /** The first reading of an account with an id. */
  function FindReading(quotas: seq<Quota>, id: Text, accountId: Text): Option<Quota> {
    if quotas == [] then None
    else if quotas[0].id == id && quotas[0].accountId == accountId then Some(quotas[0])
    else FindReading(quotas[1..], id, accountId)
  }

  lemma {:induction false} FoundReading(quotas: seq<Quota>, id: Text, accountId: Text)
    ensures var q := FindReading(quotas, id, accountId);
            q.Some? ==> q.value in quotas && q.value.id == id && q.value.accountId == accountId
  {
    if quotas != [] { FoundReading(quotas[1..], id, accountId); }
  }

  predicate InSpan(q: Quota, accountId: Text, start: Quota, end: Quota) {
    q.accountId == accountId && q.windowKey == start.windowKey && start.observedAt <= q.observedAt <= end.observedAt
  }

  function SpanReadings(quotas: seq<Quota>, accountId: Text, start: Quota, end: Quota): seq<Quota> {
    if quotas == [] then []
    else (if InSpan(quotas[0], accountId, start, end) then [quotas[0]] else [])
         + SpanReadings(quotas[1..], accountId, start, end)
  }

  lemma {:induction false} SpanReadingsAre(quotas: seq<Quota>, accountId: Text, start: Quota, end: Quota)
    ensures forall q :: q in SpanReadings(quotas, accountId, start, end) <==> q in quotas && InSpan(q, accountId, start, end)
  {
    hide InSpan;
    if quotas != [] {
      SpanReadingsAre(quotas[1..], accountId, start, end);
      assert forall q :: q in quotas <==> q == quotas[0] || q in quotas[1..];
    }
  }

  function Samples(data: EstimateData, accountId: Text, start: Quota, end: Quota,
    idBefore: IdOrder): Option<seq<Quota>> {
    OrderedQuotas(SpanReadings(data.quotas, accountId, start, end), idBefore)
  }

  predicate Unbroken(samples: seq<Quota>) {
    forall i | 0 <= i < |samples| - 1 :: Continuous(samples[i], samples[i + 1])
  }

  function CalibrationPreview(
    data: EstimateData, accountId: Text, startId: Text, endId: Text, now: int, idBefore: IdOrder)
    : Result<Preview, PreviewFailure>
  {
    var start, end := FindReading(data.quotas, startId, accountId), FindReading(data.quotas, endId, accountId);
    if !IsClaude(data, accountId) then Failure(NotClaude)
    else if start.None? || end.None? || !AllModelWindow(start.value) || !SameWindow(start.value, end.value) then
      Failure(NotOneWindow)
    else PreviewSpan(data, accountId, start.value, end.value, now, idBefore)
  }

  function PreviewSpan(data: EstimateData, accountId: Text, start: Quota, end: Quota, now: int, idBefore: IdOrder)
    : Result<Preview, PreviewFailure>
  {
    var samples := Samples(data, accountId, start, end, idBefore);
    var delta := end.usedPercent - start.usedPercent;
    if end.observedAt - start.observedAt < 2 * HOUR || start.observedAt < now - 9 * DAY || end.observedAt > now then
      Failure(BadPeriod)
    else if samples.None? || |samples.value| < 3 || !Unbroken(samples.value) then Failure(Interrupted)
    else if delta < 3.0 then Failure(TooFewPoints)
    else
      match ProblemOf(data, accountId, start.observedAt, end.observedAt, now)
      case Some(problem) => Failure(Uncovered(problem))
      case None =>
        var local := IntervalTokens(data.hourly, accountId, start.observedAt, end.observedAt);
        if local <= 0.0 then Failure(NoLocalActivity)
        else
          Success(Preview(accountId, start.windowKey, start.windowMinutes, start.id, end.id, start.observedAt,
            end.observedAt,
                          local, delta, local / delta, METHOD_VERSION, |samples.value|))
  }

  // ---- sums over the samples ----

  function SampleTokens(rows: seq<HourRow>, accountId: Text, samples: seq<Quota>): real {
    if |samples| < 2 then 0.0
    else
      var n := |samples| - 1;
      SampleTokens(rows, accountId, samples[..n]) + IntervalTokens(rows, accountId, samples[n - 1].observedAt,
        samples[n].observedAt)
  }

  function SamplePoints(samples: seq<Quota>): real {
    if |samples| < 2 then 0.0
    else
      var n := |samples| - 1;
      SamplePoints(samples[..n]) + (samples[n].usedPercent - samples[n - 1].usedPercent)
  }

  lemma {:induction false} SamplesTelescope(rows: seq<HourRow>, accountId: Text, samples: seq<Quota>)
    requires samples != [] && StrictlyByTime(samples)
    ensures SampleTokens(rows, accountId, samples)
         == IntervalTokens(rows, accountId, samples[0].observedAt, samples[|samples| - 1].observedAt)
    ensures SamplePoints(samples) == samples[|samples| - 1].usedPercent - samples[0].usedPercent
  {
    var n := |samples| - 1;
    if n == 0 {
      EmptySpan(rows, accountId, samples[0].observedAt);
    } else {
      SamplesTelescope(rows, accountId, samples[..n]);
      TokensSplit(rows, accountId, samples[0].observedAt, samples[n - 1].observedAt, samples[n].observedAt);
    }
  }

  lemma {:induction false} EmptySpan(rows: seq<HourRow>, accountId: Text, t: int)
    ensures IntervalTokens(rows, accountId, t, t) == 0.0
  {
    if rows != [] { EmptySpan(rows[..|rows| - 1], accountId, t); }
  }

  /**
   * The samples of a span begin with a reading that agrees with its start, and end with one that agrees with its
   * end.
   */
  lemma SamplesSpan(data: EstimateData, accountId: Text, start: Quota, end: Quota, idBefore: IdOrder)
    requires WeakOrder(idBefore) && start in data.quotas && end in data.quotas
    requires start.accountId == accountId == end.accountId && SameWindow(start, end)
      && start.observedAt <= end.observedAt
    requires Samples(data, accountId, start, end, idBefore).Some?
    ensures var samples := Samples(data, accountId, start, end, idBefore).value;
            && samples != [] && StrictlyByTime(samples)
            && samples[0].observedAt == start.observedAt && Agree(samples[0], start)
            && samples[|samples| - 1].observedAt == end.observedAt && Agree(samples[|samples| - 1], end)
  {
    hide Agree, OrderedQuotas, SpanReadings, Covers, StrictlyByTime, WeakOrder, Conflict;
    var rows := SpanReadings(data.quotas, accountId, start, end);
    SpanReadingsAre(data.quotas, accountId, start, end);
    OrderedQuotasDecides(rows, idBefore);
    assert start in rows && end in rows;
    EndSamples(Samples(data, accountId, start, end, idBefore).value, rows, start, end);
  }

  lemma EndSamples(samples: seq<Quota>, rows: seq<Quota>, start: Quota, end: Quota)
    requires StrictlyByTime(samples) && Covers(samples, rows) && start in rows && end in rows
    requires forall q | q in rows :: start.observedAt <= q.observedAt <= end.observedAt
    ensures samples != [] && samples[0].observedAt == start.observedAt && Agree(samples[0], start)
    ensures samples[|samples| - 1].observedAt == end.observedAt && Agree(samples[|samples| - 1], end)
  {
    hide Agree, Represented;
    var i := Representative(samples, start);
    var j := Representative(samples, end);
    assert samples[0] in rows && samples[|samples| - 1] in rows;
  }

  lemma Representative(kept: seq<Quota>, q: Quota) returns (i: nat)
    requires Represented(q, kept)
    ensures i < |kept| && kept[i].observedAt == q.observedAt && Agree(kept[i], q)
  {
    hide Agree;
    i :| 0 <= i < |kept| && kept[i].observedAt == q.observedAt && Agree(kept[i], q);
  }

  /**
   * A calibration's tokens and points are the sums over its consecutive samples, and its rate gives the tokens
   * back.
   */
  lemma CalibrationTelescopes(
    data: EstimateData, accountId: Text, startId: Text, endId: Text, now: int, idBefore: IdOrder, p: Preview)
    requires WeakOrder(idBefore)
    requires CalibrationPreview(data, accountId, startId, endId, now, idBefore) == Success(p)
    ensures exists start, end :: start in data.quotas && end in data.quotas && start.id == startId && end.id == endId
              && start.observedAt == p.startedAt && end.observedAt == p.endedAt <= now
              && Samples(data, accountId, start, end, idBefore).Some?
              && var samples := Samples(data, accountId, start, end, idBefore).value;
                 && |samples| == p.samples >= 3 && StrictlyByTime(samples) && Unbroken(samples)
                 && p.localTokens == SampleTokens(data.hourly, accountId, samples)
                 && p.percentDelta == SamplePoints(samples)
                 && (p.windowKey, p.windowMinutes) == (start.windowKey, start.windowMinutes)
    ensures p.tokensPerPoint * p.percentDelta == p.localTokens > 0.0 && p.percentDelta >= 3.0
    ensures (p.accountId, p.startSampleId, p.endSampleId, p.methodVersion)
         == (accountId, startId, endId, Ascii("local-equivalent-v1-prorated-hours"))
    ensures Covered(data, accountId, p.startedAt, p.endedAt, now)
  {
    hide Agree, OrderedQuotas, SpanReadings, ProblemOf, FindReading, IntervalTokens, Covered, SampleTokens,
         SamplePoints, AllModelWindow;
    var start, end := FindReading(data.quotas, startId, accountId).value,
      FindReading(data.quotas, endId, accountId).value;
    FoundReading(data.quotas, startId, accountId);
    FoundReading(data.quotas, endId, accountId);
    SamplesSpan(data, accountId, start, end, idBefore);
    var samples := Samples(data, accountId, start, end, idBefore).value;
    SamplesTelescope(data.hourly, accountId, samples);
    AgreePercent(samples[0], start);
    AgreePercent(samples[|samples| - 1], end);
    NoProblemIffCovered(data, accountId, p.startedAt, p.endedAt, now);
    Quotient(p.localTokens, p.percentDelta);
  }

  lemma AgreePercent(a: Quota, b: Quota)
    requires Agree(a, b)
    ensures a.usedPercent == b.usedPercent
  {
  }

  lemma Quotient(x: real, y: real)
    requires y != 0.0
    ensures x / y * y == x
  {
  }

  // ---- when there is a preview ----

  /** The readings of a span. */
  ghost function SpanOf(quotas: seq<Quota>, accountId: Text, windowKey: Text, start: int, end: int): set<Quota> {
    set q | q in quotas && q.accountId == accountId && q.windowKey == windowKey && start <= q.observedAt <= end
  }

  /** Readings of one instant tell the same. */
  ghost predicate Undisputed(span: set<Quota>) {
    forall a, b | a in span && b in span && a.observedAt == b.observedAt ::
      a.windowMinutes == b.windowMinutes && a.resetsAt == b.resetsAt && a.usedPercent == b.usedPercent
  }

  /** b is the reading next after a: no other comes between. */
  ghost predicate Adjacent(span: set<Quota>, a: Quota, b: Quota) {
    a in span && b in span && a.observedAt < b.observedAt
    && forall q | q in span :: q.observedAt <= a.observedAt || b.observedAt <= q.observedAt
  }

  /** From each reading to the next: the same window, at most three hours, and no fewer percent. */
  ghost predicate Steady(span: set<Quota>) {
    forall a, b | Adjacent(span, a, b) ::
      && a.windowMinutes == b.windowMinutes && a.resetsAt == b.resetsAt
      && b.observedAt - a.observedAt <= 3 * HOUR && a.usedPercent <= b.usedPercent
  }

  /** The windows that all models share, and their lengths in minutes. */
  const ALL_MODEL_WINDOWS: set<(Text, int)> := {(Ascii("five_hour"), 300), (Ascii("seven_day"), 10080)}

  /** What a local-only period between two readings must be like to calibrate by it. */
  ghost predicate Calibrates(data: EstimateData, accountId: Text, start: Quota, end: Quota, now: int) {
    var span := SpanOf(data.quotas, accountId, start.windowKey, start.observedAt, end.observedAt);
    && (start.windowKey, start.windowMinutes) in ALL_MODEL_WINDOWS
    && (start.windowKey, start.windowMinutes, start.resetsAt) == (end.windowKey, end.windowMinutes, end.resetsAt)
    && start.observedAt + 2 * HOUR <= end.observedAt <= now <= start.observedAt + 9 * DAY
    && Undisputed(span) && Steady(span) && (exists q :: q in span && start.observedAt < q.observedAt < end.observedAt)
    && start.usedPercent + 3.0 <= end.usedPercent
    && Covered(data, accountId, start.observedAt, end.observedAt, now)
    && IntervalTokens(data.hourly, accountId, start.observedAt, end.observedAt) > 0.0
  }

  lemma SpanReadingsAreSpan(quotas: seq<Quota>, accountId: Text, start: Quota, end: Quota)
    ensures var span := SpanOf(quotas, accountId, start.windowKey, start.observedAt, end.observedAt);
            forall q :: q in SpanReadings(quotas, accountId, start, end) <==> q in span
  {
    SpanReadingsAre(quotas, accountId, start, end);
  }

  lemma DisputeIsConflict(rows: seq<Quota>, span: set<Quota>)
    requires (forall q :: q in rows <==> q in span) && forall a, b | a in span && b in span :: a.windowKey == b.windowKey
    ensures Undisputed(span) <==> !Conflict(rows)
  {
    if Undisputed(span) {
      forall a, b | a in rows && b in rows && a.observedAt == b.observedAt ensures Agree(a, b) {
      }
    } else {
      var a, b :| a in span && b in span && a.observedAt == b.observedAt && !Agree(a, b);
      assert a in rows && b in rows;
    }
  }

  /** With one sample for each instant, the samples are unbroken exactly if the readings are steady. */
  lemma UnbrokenIsSteady(rows: seq<Quota>, span: set<Quota>, samples: seq<Quota>)
    requires (forall q :: q in rows <==> q in span) && forall a, b | a in span && b in span :: a.windowKey == b.windowKey
    requires StrictlyByTime(samples) && Covers(samples, rows)
    ensures Unbroken(samples) <==> Steady(span)
  {
    hide Agree, Represented, Continuous, Covers, StrictlyByTime, Adjacent;
    if Steady(span) {
      forall i | 0 <= i < |samples| - 1 ensures Continuous(samples[i], samples[i + 1]) {
        SamplesAreAdjacent(rows, span, samples, i);
        AdjacentAreIn(span, samples[i], samples[i + 1]);
        SteadyIsContinuous(span, samples[i], samples[i + 1]);
      }
    }
    if Unbroken(samples) {
      forall a, b | Adjacent(span, a, b)
        ensures a.windowMinutes == b.windowMinutes && a.resetsAt == b.resetsAt
        ensures b.observedAt - a.observedAt <= 3 * HOUR && a.usedPercent <= b.usedPercent
      {
        AdjacentSamples(rows, span, samples, a, b);
      }
    }
  }

  /** Consecutive samples are adjacent readings. */
  lemma SamplesAreAdjacent(rows: seq<Quota>, span: set<Quota>, samples: seq<Quota>, i: nat)
    requires (forall q :: q in rows <==> q in span) && StrictlyByTime(samples) && Covers(samples, rows)
    requires i < |samples| - 1
    ensures Adjacent(span, samples[i], samples[i + 1])
  {
    hide Agree, Represented;
    assert samples[i] in rows && samples[i + 1] in rows;
    forall q | q in span ensures q.observedAt <= samples[i].observedAt || samples[i + 1].observedAt <= q.observedAt {
      assert q in rows;
      var k := Representative(samples, q);
    }
  }

  lemma AdjacentAreIn(span: set<Quota>, a: Quota, b: Quota)
    requires Adjacent(span, a, b)
    ensures a in span && b in span
  {
  }

  lemma SteadyIsContinuous(span: set<Quota>, a: Quota, b: Quota)
    requires Steady(span) && Adjacent(span, a, b) && a.windowKey == b.windowKey
    ensures Continuous(a, b)
  {
  }

  lemma AdjacentSamples(rows: seq<Quota>, span: set<Quota>, samples: seq<Quota>, a: Quota, b: Quota)
    requires (forall q :: q in rows <==> q in span) && StrictlyByTime(samples) && Covers(samples, rows)
    requires Unbroken(samples) && Adjacent(span, a, b)
    ensures a.windowMinutes == b.windowMinutes && a.resetsAt == b.resetsAt
    ensures b.observedAt - a.observedAt <= 3 * HOUR && a.usedPercent <= b.usedPercent
  {
    hide Agree, Represented;
    assert a in rows && b in rows;
    var i := Representative(samples, a);
    var j := Representative(samples, b);
    assert forall k | 0 <= k < |samples| :: samples[k] in span;
    assert i < j;
    assert samples[i + 1].observedAt <= a.observedAt || b.observedAt <= samples[i + 1].observedAt;
    assert Continuous(samples[i], samples[i + 1]);
    ContinuousLike(samples[i], samples[j], a, b);
  }

  lemma ContinuousLike(x: Quota, y: Quota, a: Quota, b: Quota)
    requires Continuous(x, y) && Agree(x, a) && Agree(y, b)
    requires x.observedAt == a.observedAt && y.observedAt == b.observedAt
    ensures Continuous(a, b)
  {
  }

  /** There are three samples exactly if some reading lies inside the span. */
  lemma ThreeSamples(samples: seq<Quota>, rows: seq<Quota>, start: Quota, end: Quota)
    requires StrictlyByTime(samples) && Covers(samples, rows) && start in rows && end in rows
    requires start.observedAt < end.observedAt
    requires forall q | q in rows :: start.observedAt <= q.observedAt <= end.observedAt
    ensures |samples| >= 3 <==> exists q :: q in rows && start.observedAt < q.observedAt < end.observedAt
  {
    hide Agree, Represented;
    EndSamples(samples, rows, start, end);
    if |samples| >= 3 { assert samples[1] in rows; }
    if q :| q in rows && start.observedAt < q.observedAt < end.observedAt {
      var k := Representative(samples, q);
      assert 0 < k < |samples| - 1;
    }
  }

  /** A preview succeeds exactly for the readings of a Claude account between which the period calibrates. */
  lemma PreviewSucceedsIff(
    data: EstimateData, accountId: Text, startId: Text, endId: Text, now: int, idBefore: IdOrder)
    requires WeakOrder(idBefore)
    ensures var start, end := FindReading(data.quotas, startId, accountId), FindReading(data.quotas, endId, accountId);
            (CalibrationPreview(data, accountId, startId, endId, now, idBefore).Success?
             <==> && Account(accountId, Ascii("claude")) in data.accounts && start.Some? && end.Some?
                  && Calibrates(data, accountId, start.value, end.value, now))
  {
    hide OrderedQuotas, SpanReadings, ProblemOf, FindReading, IntervalTokens, Covered, Undisputed, Steady, Ascii,
         Conflict, Unbroken, Covers, StrictlyByTime, SpanOf, Samples, WeakOrder;
    var s, e := FindReading(data.quotas, startId, accountId), FindReading(data.quotas, endId, accountId);
    FoundReading(data.quotas, startId, accountId);
    FoundReading(data.quotas, endId, accountId);
    if s.Some? && e.Some? && s.value.windowKey == e.value.windowKey && s.value.observedAt < e.value.observedAt {
      SamplesIff(data, accountId, s.value, e.value, idBefore);
      NoProblemIffCovered(data, accountId, s.value.observedAt, e.value.observedAt, now);
    }
  }

  lemma SamplesIff(data: EstimateData, accountId: Text, start: Quota, end: Quota, idBefore: IdOrder)
    requires WeakOrder(idBefore) && start in data.quotas && end in data.quotas
    requires start.accountId == accountId == end.accountId && start.windowKey == end.windowKey
    requires start.observedAt < end.observedAt
    ensures var samples := Samples(data, accountId, start, end, idBefore);
            var span := SpanOf(data.quotas, accountId, start.windowKey, start.observedAt, end.observedAt);
            (samples.Some? && |samples.value| >= 3 && Unbroken(samples.value)
             <==> && Undisputed(span) && Steady(span)
                  && exists q :: q in span && start.observedAt < q.observedAt < end.observedAt)
  {
    hide OrderedQuotas, SpanReadings, Undisputed, Steady, Conflict, Unbroken, Covers, StrictlyByTime, WeakOrder;
    var span := SpanOf(data.quotas, accountId, start.windowKey, start.observedAt, end.observedAt);
    var rows := SpanReadings(data.quotas, accountId, start, end);
    SpanReadingsAreSpan(data.quotas, accountId, start, end);
    OrderedQuotasDecides(rows, idBefore);
    DisputeIsConflict(rows, span);
    if Undisputed(span) {
      var samples := Samples(data, accountId, start, end, idBefore).value;
      ThreeSamples(samples, rows, start, end);
      UnbrokenIsSteady(rows, span, samples);
    }
  }
}
