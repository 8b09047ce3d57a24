/** The segment reporter: one row per joint segment of the region, activity, region-label,
    step and handling-height streams, with ids turned into display names, plus the total
    walking time. Times are ticks of 10 ms from the measurement's start tick. */
module Report {
  import opened Results
  import opened Samples
  import opened Seqs
  import opened Sync

  /** A sample value: a uuid string (regions, region labels) or an integer id or count. */
  datatype Value = Text(s: string) | Int(n: int)

  /** The id-to-name tables of the layout (regions, region labels) and of the plot info
      (base activities, handling heights). */
  datatype NameMaps = NameMaps(
    regions: map<Value, string>,
    activities: map<Value, string>,
    labels: map<Value, string>,
    heights: map<Value, string>)

  /** One row of the measurement's export. */
  datatype Row = Row(
    setId: string,
    start: int,
    end: int,
    region: string,
    activity: string,
    regionLabel: string,
    numSteps: int,
    handlingHeight: string)

  datatype Extraction = Extraction(rows: seq<Row>, totalWalking: int)

  const UnknownRegion: string := "Unknown Region"
  const UnknownActivity: string := "Unknown Activity"
  const UnknownLabel: string := "Unknown Label"
  const UnknownHeight: string := "Unknown Height"
  const Walk: string := "Walk"

  /** `dict.get(id, fallback)`: ids missing from a table are shown with the fallback label. */
  function Lookup(m: map<Value, string>, x: Sample<Value>, fallback: string): (r: string)
    ensures r == fallback || r in m.Values
    ensures x.Known? && x.v in m ==> r == m[x.v]
    ensures (x.NaN? || x.v !in m) ==> r == fallback
  {
    if x.Known? && x.v in m then m[x.v] else fallback
  }

  predicate IsCount(x: Sample<Value>) {
    x.Known? && x.v.Int?
  }

  /** `int(np.sum(step_ts))`: the total of the step stream; a NaN or text sample fails. */
  function StepTotal(steps: seq<Sample<Value>>): (r: Result<int>)
    ensures r.Ok? <==> forall i :: 0 <= i < |steps| ==> IsCount(steps[i])
    ensures r.Err? ==> r.error == NonNumericSteps
    ensures r.Ok? ==> r.value == Sum(seq(|steps|, i requires 0 <= i < |steps| && IsCount(steps[i]) => steps[i].v.n))
  {
    if |steps| == 0 then Ok(0)
    else
      var n := |steps| - 1;
      var front :- StepTotal(steps[..n]);
      if IsCount(steps[n]) then
        ghost var all := seq(|steps|, i requires 0 <= i < |steps| && IsCount(steps[i]) => steps[i].v.n);
        assert all[..n] == seq(n, i requires 0 <= i < n && IsCount(steps[..n][i]) => steps[..n][i].v.n);
        Ok(front + steps[n].v.n)
      else Err(NonNumericSteps)
  }

  /** The walking time of a list of rows: the durations of the rows whose activity is "Walk". */
  function WalkTotal(rows: seq<Row>): int {
    Sum(seq(|rows|, k requires 0 <= k < |rows| => WalkContribution(rows[k])))
  }

  /** What one row adds to the walking total: its duration if its activity is "Walk". */
  function WalkContribution(row: Row): int {
    if row.activity == Walk then row.end - row.start else 0
  }

  /** The walking total of rows is that of all but the last plus the last row's contribution. */
  lemma WalkTotalSnoc(rows: seq<Row>)
    requires |rows| > 0
    ensures WalkTotal(rows) == WalkTotal(rows[..|rows| - 1]) + WalkContribution(rows[|rows| - 1])
  {
    var n := |rows| - 1;
    assert seq(|rows|, k requires 0 <= k < |rows| => WalkContribution(rows[k]))[..n]
        == seq(n, k requires 0 <= k < n => WalkContribution(rows[..n][k]));
  }

  /** The accumulation loop of the report: `total_walking_duration` starts at 0 and grows by the
      duration of every row whose activity name is "Walk". */
  method AccumulateWalking(rows: seq<Row>) returns (total: int)
    ensures total == WalkTotal(rows)
  {
    total := 0;
    var i := 0;
    while i < |rows|
      invariant 0 <= i <= |rows|
      invariant total == WalkTotal(rows[..i])
    {
      if rows[i].activity == Walk {
        total := total + (rows[i].end - rows[i].start);
      }
      WalkTotalSnoc(rows[..i + 1]);
      assert rows[..i + 1][..i] == rows[..i];
      i := i + 1;
    }
    assert rows[..|rows|] == rows;
  }

  /** For rows that do not run backwards, the walking total is at least 0 and at most the sum of
      all row durations. */
  lemma {:induction false} WalkTotalWithinDurations(rows: seq<Row>)
    requires forall k :: 0 <= k < |rows| ==> rows[k].start <= rows[k].end
    ensures 0 <= WalkTotal(rows) <= Sum(Durations(rows))
    decreases |rows|
  {
    if |rows| > 0 {
      var n := |rows| - 1;
      WalkTotalWithinDurations(rows[..n]);
      WalkTotalSnoc(rows);
      assert Durations(rows)[..n] == Durations(rows[..n]);
    }
  }

  predicate SameLength(region: seq<Sample<Value>>, activity: seq<Sample<Value>>, regionLabels: seq<Sample<Value>>,
                       steps: seq<Sample<Value>>, heights: seq<Sample<Value>>) {
    |activity| == |region| && |regionLabels| == |region| && |steps| == |region| && |heights| == |region|
  }

  /** The five streams the export synchronises, in the order of its tuple components. */
  function ExportStreams(region: seq<Sample<Value>>, activity: seq<Sample<Value>>, regionLabels: seq<Sample<Value>>,
                         steps: seq<Sample<Value>>, heights: seq<Sample<Value>>): (r: seq<seq<Sample<Value>>>)
    ensures |r| == 5 && r[0] == region && r[1] == activity && r[2] == regionLabels && r[3] == steps && r[4] == heights
    ensures SameLength(region, activity, regionLabels, steps, heights) ==> EqualLengths(r)
  {
    [region, activity, regionLabels, steps, heights]
  }

  /** Consecutive rows meet, each is non-empty, and together they span `len` ticks from `baseTicks`. */
  predicate Spans(rows: seq<Row>, baseTicks: int, len: int) {
    && |rows| > 0
    && rows[0].start == baseTicks
    && rows[|rows| - 1].end == baseTicks + len
    && (forall k :: 0 <= k < |rows| - 1 ==> rows[k].end == rows[k + 1].start)
    && (forall k :: 0 <= k < |rows| ==> rows[k].start < rows[k].end)
  }

  /** The row shows the names of the streams' values at tick `t` of the measurement. */
  predicate Describes(row: Row, t: int, names: NameMaps,
                      region: seq<Sample<Value>>, activity: seq<Sample<Value>>, regionLabels: seq<Sample<Value>>,
                      heights: seq<Sample<Value>>)
    requires |activity| == |region| && |regionLabels| == |region| && |heights| == |region|
  {
    && 0 <= t < |region|
    && row.region == Lookup(names.regions, region[t], UnknownRegion)
    && row.activity == Lookup(names.activities, activity[t], UnknownActivity)
    && row.regionLabel == Lookup(names.labels, regionLabels[t], UnknownLabel)
    && row.handlingHeight == Lookup(names.heights, heights[t], UnknownHeight)
  }

  /** Each row shows the names of the streams' values at its first tick. */
  predicate ShowsNames(rows: seq<Row>, baseTicks: int, names: NameMaps,
                       region: seq<Sample<Value>>, activity: seq<Sample<Value>>, regionLabels: seq<Sample<Value>>,
                       heights: seq<Sample<Value>>)
    requires |activity| == |region| && |regionLabels| == |region| && |heights| == |region|
  {
    forall k :: 0 <= k < |rows| ==> Describes(rows[k], rows[k].start - baseTicks, names, region, activity, regionLabels, heights)
  }

  /** The rows of an export: they span the measurement, every row carries the set id and the
      step total, and each shows the names of the streams' values at its first tick. */
  predicate Tabulates(rows: seq<Row>, setId: string, baseTicks: int, names: NameMaps, numSteps: int,
                      region: seq<Sample<Value>>, activity: seq<Sample<Value>>, regionLabels: seq<Sample<Value>>,
                      heights: seq<Sample<Value>>)
    requires |activity| == |region| && |regionLabels| == |region| && |heights| == |region|
  {
    && Spans(rows, baseTicks, |region|)
    && (forall k :: 0 <= k < |rows| ==> rows[k].setId == setId && rows[k].numSteps == numSteps)
    && ShowsNames(rows, baseTicks, names, region, activity, regionLabels, heights)
  }

  /** One row per segment of a synchronisation of the five export streams. */
  function SegmentRows(setId: string, baseTicks: int, names: NameMaps, numSteps: int,
                       j: Joint<Sample<Value>>): (r: seq<Row>)
    requires |j.timestamps| == |j.segments| + 1
    requires forall k :: 0 <= k < |j.segments| ==> |j.segments[k]| == 5
    ensures |r| == |j.segments|
    ensures forall k :: 0 <= k < |r| ==>
      && r[k].start == baseTicks + j.timestamps[k] && r[k].end == baseTicks + j.timestamps[k + 1]
      && r[k].setId == setId && r[k].numSteps == numSteps
  {
    seq(|j.segments|, k requires 0 <= k < |j.segments| => SegmentRow(setId, baseTicks, names, numSteps, j, k))
  }

  /** The row of segment `k`: its tick bounds and the names of its tuple. */
  function SegmentRow(setId: string, baseTicks: int, names: NameMaps, numSteps: int,
                      j: Joint<Sample<Value>>, k: nat): Row
    requires k < |j.segments| && |j.timestamps| == |j.segments| + 1 && |j.segments[k]| == 5
  {
    Row(setId,
        baseTicks + j.timestamps[k],
        baseTicks + j.timestamps[k + 1],
        Lookup(names.regions, j.segments[k][0], UnknownRegion),
        Lookup(names.activities, j.segments[k][1], UnknownActivity),
        Lookup(names.labels, j.segments[k][2], UnknownLabel),
        numSteps,
        Lookup(names.heights, j.segments[k][4], UnknownHeight))
  }

  /** The row describes absolute tick `p` of a measurement that starts at `baseTicks`. */
  predicate DescribesTick(row: Row, baseTicks: int, p: int, names: NameMaps,
                          region: seq<Sample<Value>>, activity: seq<Sample<Value>>, regionLabels: seq<Sample<Value>>,
                          heights: seq<Sample<Value>>)
    requires |activity| == |region| && |regionLabels| == |region| && |heights| == |region|
  {
    Describes(row, p - baseTicks, names, region, activity, regionLabels, heights)
  }

  /** `j` cuts `len` ticks, from tick 0, into non-empty segments of five-value tuples. */
  predicate Segmentation(j: Joint<Sample<Value>>, len: int) {
    && |j.timestamps| == |j.segments| + 1 && j.timestamps[0] == 0 && j.timestamps[|j.segments|] == len
    && StrictlyIncreasing(j.timestamps)
    && forall k :: 0 <= k < |j.segments| ==> |j.segments[k]| == 5
  }

  /** Within each segment of `j` the four named streams keep the values of its tuple. */
  predicate HoldsStreams(j: Joint<Sample<Value>>, region: seq<Sample<Value>>, activity: seq<Sample<Value>>, regionLabels: seq<Sample<Value>>,
                         heights: seq<Sample<Value>>)
    requires Segmentation(j, |region|)
    requires |activity| == |region| && |regionLabels| == |region| && |heights| == |region|
  {
    forall k, p :: 0 <= k < |j.segments| && j.timestamps[k] <= p < j.timestamps[k + 1] ==>
      && region[p] == j.segments[k][0] && activity[p] == j.segments[k][1]
      && regionLabels[p] == j.segments[k][2] && heights[p] == j.segments[k][4]
  }

  /** The synchronisation of the five export streams, with the facts the row lemmas use. */
  lemma ExportSync(region: seq<Sample<Value>>, activity: seq<Sample<Value>>, regionLabels: seq<Sample<Value>>,
                   steps: seq<Sample<Value>>, heights: seq<Sample<Value>>)
    returns (j: Joint<Sample<Value>>)
    requires SameLength(region, activity, regionLabels, steps, heights) && |region| > 0
    ensures Synchronise(ExportStreams(region, activity, regionLabels, steps, heights), true) == Ok(j)
    ensures Segmentation(j, |region|)
    ensures HoldsStreams(j, region, activity, regionLabels, heights)
  {
    var streams := ExportStreams(region, activity, regionLabels, steps, heights);
    j := SyncSegmentation(streams);
    forall k, p | 0 <= k < |j.segments| && j.timestamps[k] <= p < j.timestamps[k + 1]
      ensures && region[p] == j.segments[k][0] && activity[p] == j.segments[k][1]
              && regionLabels[p] == j.segments[k][2] && heights[p] == j.segments[k][4]
    {
      assert streams[0][p] == j.segments[k][0] && streams[1][p] == j.segments[k][1];
      assert streams[2][p] == j.segments[k][2] && streams[4][p] == j.segments[k][4];
    }
  }

  /** The rows of a segmentation tile the `len` ticks it covers. */
  lemma SegmentRowsSpan(setId: string, baseTicks: int, names: NameMaps, numSteps: int, j: Joint<Sample<Value>>, len: int)
    requires Segmentation(j, len) && len > 0
    ensures Spans(SegmentRows(setId, baseTicks, names, numSteps, j), baseTicks, len)
  {
    var rows := SegmentRows(setId, baseTicks, names, numSteps, j);
    var ts := j.timestamps;
    forall k | 0 <= k < |rows|
      ensures rows[k].start < rows[k].end
    {
      assert ts[k] < ts[k + 1];
    }
  }

  /** The rows of a segmentation on which the streams are constant describe every tick they cover. */
  lemma SegmentRowsConstant(setId: string, baseTicks: int, names: NameMaps, numSteps: int,
      region: seq<Sample<Value>>, activity: seq<Sample<Value>>, regionLabels: seq<Sample<Value>>,
      heights: seq<Sample<Value>>, j: Joint<Sample<Value>>)
    requires Segmentation(j, |region|)
    requires |activity| == |region| && |regionLabels| == |region| && |heights| == |region|
    requires HoldsStreams(j, region, activity, regionLabels, heights)
    ensures var rows := SegmentRows(setId, baseTicks, names, numSteps, j);
      forall k, p :: 0 <= k < |rows| && rows[k].start <= p < rows[k].end ==>
        DescribesTick(rows[k], baseTicks, p, names, region, activity, regionLabels, heights)
  {
    var rows := SegmentRows(setId, baseTicks, names, numSteps, j);
    var ts := j.timestamps;
    forall k, p | 0 <= k < |rows| && rows[k].start <= p < rows[k].end
      ensures DescribesTick(rows[k], baseTicks, p, names, region, activity, regionLabels, heights)
    {
      assert ts[k] <= p - baseTicks < ts[k + 1];
      assert ts[k + 1] <= |region|;
    }
  }

  /** Every row of an export describes every tick it covers. */
  lemma ExportRowsConstant(setId: string, baseTicks: int, names: NameMaps, numSteps: int,
      region: seq<Sample<Value>>, activity: seq<Sample<Value>>, regionLabels: seq<Sample<Value>>,
      steps: seq<Sample<Value>>, heights: seq<Sample<Value>>, j: Joint<Sample<Value>>)
    requires SameLength(region, activity, regionLabels, steps, heights)
    requires Synchronise(ExportStreams(region, activity, regionLabels, steps, heights), true) == Ok(j)
    ensures Segmentation(j, |region|)
    ensures var rows := SegmentRows(setId, baseTicks, names, numSteps, j);
      forall k, p :: 0 <= k < |rows| && rows[k].start <= p < rows[k].end ==>
        DescribesTick(rows[k], baseTicks, p, names, region, activity, regionLabels, heights)
  {
    var j' := ExportSync(region, activity, regionLabels, steps, heights);
    SegmentRowsConstant(setId, baseTicks, names, numSteps, region, activity, regionLabels, heights, j);
  }

  /** Rows that describe every tick they cover describe, in particular, their first. */
  lemma ShowsNamesOfEveryTick(rows: seq<Row>, baseTicks: int, names: NameMaps,
      region: seq<Sample<Value>>, activity: seq<Sample<Value>>, regionLabels: seq<Sample<Value>>,
      heights: seq<Sample<Value>>)
    requires |activity| == |region| && |regionLabels| == |region| && |heights| == |region|
    requires forall k :: 0 <= k < |rows| ==> rows[k].start < rows[k].end
    requires forall k, p :: 0 <= k < |rows| && rows[k].start <= p < rows[k].end ==>
      DescribesTick(rows[k], baseTicks, p, names, region, activity, regionLabels, heights)
    ensures ShowsNames(rows, baseTicks, names, region, activity, regionLabels, heights)
  {
    forall k | 0 <= k < |rows|
      ensures Describes(rows[k], rows[k].start - baseTicks, names, region, activity, regionLabels, heights)
    {
      assert DescribesTick(rows[k], baseTicks, rows[k].start, names, region, activity, regionLabels, heights);
    }
  }

  /** The rows of a segmentation on which the streams are constant tabulate the measurement. */
  lemma SegmentRowsTabulate(setId: string, baseTicks: int, names: NameMaps, numSteps: int,
      region: seq<Sample<Value>>, activity: seq<Sample<Value>>, regionLabels: seq<Sample<Value>>,
      heights: seq<Sample<Value>>, j: Joint<Sample<Value>>)
    requires Segmentation(j, |region|) && |region| > 0
    requires |activity| == |region| && |regionLabels| == |region| && |heights| == |region|
    requires HoldsStreams(j, region, activity, regionLabels, heights)
    ensures Tabulates(SegmentRows(setId, baseTicks, names, numSteps, j), setId, baseTicks, names, numSteps,
                      region, activity, regionLabels, heights)
  {
    SegmentRowsSpan(setId, baseTicks, names, numSteps, j, |region|);
    SegmentRowsConstant(setId, baseTicks, names, numSteps, region, activity, regionLabels, heights, j);
    ShowsNamesOfEveryTick(SegmentRows(setId, baseTicks, names, numSteps, j), baseTicks, names,
                          region, activity, regionLabels, heights);
  }

  /** The rows of an export tabulate the measurement. */
  lemma ExportRowsTabulate(setId: string, baseTicks: int, names: NameMaps, numSteps: int,
      region: seq<Sample<Value>>, activity: seq<Sample<Value>>, regionLabels: seq<Sample<Value>>,
      steps: seq<Sample<Value>>, heights: seq<Sample<Value>>, j: Joint<Sample<Value>>)
    requires SameLength(region, activity, regionLabels, steps, heights)
    requires Synchronise(ExportStreams(region, activity, regionLabels, steps, heights), true) == Ok(j)
    ensures Segmentation(j, |region|)
    ensures Tabulates(SegmentRows(setId, baseTicks, names, numSteps, j), setId, baseTicks, names, numSteps,
                      region, activity, regionLabels, heights)
  {
    var j' := ExportSync(region, activity, regionLabels, steps, heights);
    SegmentRowsTabulate(setId, baseTicks, names, numSteps, region, activity, regionLabels, heights, j);
  }

  /** `extract_measurement_data`: rows for the joint segments of the five loaded streams. */
  function Extract(setId: string, baseTicks: int, names: NameMaps,
                   region: seq<Sample<Value>>, activity: seq<Sample<Value>>, regionLabels: seq<Sample<Value>>,
                   steps: seq<Sample<Value>>, heights: seq<Sample<Value>>): (r: Result<Extraction>)
    requires SameLength(region, activity, regionLabels, steps, heights)
    ensures r.Err? <==> (exists i :: 0 <= i < |steps| && !IsCount(steps[i])) || |region| == 0
    ensures (exists i :: 0 <= i < |steps| && !IsCount(steps[i])) ==> r == Err(NonNumericSteps)
    ensures r.Ok? ==> Tabulates(r.value.rows, setId, baseTicks, names, StepTotal(steps).value,
                                region, activity, regionLabels, heights)
    ensures r.Ok? ==> r.value.totalWalking == WalkTotal(r.value.rows)
  {
    var total := StepTotal(steps);
    if total.Err? then Err(total.error)
    else
    var numSteps := total.value;
    var streams := ExportStreams(region, activity, regionLabels, steps, heights);
    var sync := Synchronise(streams, true);
    if sync.Err? then Err(sync.error)
    else
    var j := sync.value;
    ExportRowsTabulate(setId, baseTicks, names, numSteps, region, activity, regionLabels, steps, heights, j);
    var rows := SegmentRows(setId, baseTicks, names, numSteps, j);
    Ok(Extraction(rows, WalkTotal(rows)))
  }

  /** The sequence of activity names, one per tick. */
  function ActivityNames(names: NameMaps, activity: seq<Sample<Value>>): (r: seq<string>)
    ensures |r| == |activity|
  {
    seq(|activity|, i requires 0 <= i < |activity| => Lookup(names.activities, activity[i], UnknownActivity))
  }

  function Durations(rows: seq<Row>): (r: seq<int>)
    ensures |r| == |rows|
  {
    seq(|rows|, k requires 0 <= k < |rows| => rows[k].end - rows[k].start)
  }

  /** Rows that meet end to start have durations summing to the span they cover. */
  lemma {:induction false} SpanDurations(rows: seq<Row>, baseTicks: int, len: int)
    requires Spans(rows, baseTicks, len)
    ensures Sum(Durations(rows)) == len
    decreases |rows|
  {
    var n := |rows|;
    if n == 1 {
      assert Durations(rows)[..0] == [];
    } else {
      var front := rows[..n - 1];
      SpanDurations(front, baseTicks, rows[n - 1].start - baseTicks);
      assert Durations(rows)[..n - 1] == Durations(front);
    }
  }

  /** The rows of an export cover the whole measurement: their durations add up to its length. */
  lemma ExtractCoversMeasurement(setId: string, baseTicks: int, names: NameMaps,
                                 region: seq<Sample<Value>>, activity: seq<Sample<Value>>, regionLabels: seq<Sample<Value>>,
                                 steps: seq<Sample<Value>>, heights: seq<Sample<Value>>)
    requires SameLength(region, activity, regionLabels, steps, heights)
    ensures var r := Extract(setId, baseTicks, names, region, activity, regionLabels, steps, heights);
      r.Ok? ==> Sum(Durations(r.value.rows)) == |region|
  {
    var r := Extract(setId, baseTicks, names, region, activity, regionLabels, steps, heights);
    if r.Ok? {
      SpanDurations(r.value.rows, baseTicks, |region|);
    }
  }

  /** A successful export is the rows of the synchronisation of its five streams. */
  lemma ExtractRows(setId: string, baseTicks: int, names: NameMaps,
                    region: seq<Sample<Value>>, activity: seq<Sample<Value>>, regionLabels: seq<Sample<Value>>,
                    steps: seq<Sample<Value>>, heights: seq<Sample<Value>>, j: Joint<Sample<Value>>)
    requires SameLength(region, activity, regionLabels, steps, heights)
    requires Synchronise(ExportStreams(region, activity, regionLabels, steps, heights), true) == Ok(j)
    requires Extract(setId, baseTicks, names, region, activity, regionLabels, steps, heights).Ok?
    ensures StepTotal(steps).Ok?
    ensures Segmentation(j, |region|)
    ensures var e := Extract(setId, baseTicks, names, region, activity, regionLabels, steps, heights).value;
      && e.rows == SegmentRows(setId, baseTicks, names, StepTotal(steps).value, j)
      && |e.rows| == |j.segments|
      && e.totalWalking == WalkTotal(e.rows)
  {
  }

  /** A row is the same at every tick it covers: each of its names is the name of the
      streams' value at any tick inside it, not only at its first. */
  lemma ExtractRowsDescribeEveryTick(setId: string, baseTicks: int, names: NameMaps,
                                     region: seq<Sample<Value>>, activity: seq<Sample<Value>>, regionLabels: seq<Sample<Value>>,
                                     steps: seq<Sample<Value>>, heights: seq<Sample<Value>>)
    requires SameLength(region, activity, regionLabels, steps, heights)
    ensures var r := Extract(setId, baseTicks, names, region, activity, regionLabels, steps, heights);
      r.Ok? ==> forall k, p :: 0 <= k < |r.value.rows| && r.value.rows[k].start <= p < r.value.rows[k].end ==>
        DescribesTick(r.value.rows[k], baseTicks, p, names, region, activity, regionLabels, heights)
  {
    var r := Extract(setId, baseTicks, names, region, activity, regionLabels, steps, heights);
    if r.Ok? {
      var j := Synchronise(ExportStreams(region, activity, regionLabels, steps, heights), true).value;
      ExtractRows(setId, baseTicks, names, region, activity, regionLabels, steps, heights, j);
      ExportRowsConstant(setId, baseTicks, names, StepTotal(steps).value, region, activity, regionLabels, steps, heights, j);
    }
  }

  /** Rows laid over constant runs of activity names: the walking total counts the "Walk" ticks. */
  lemma RowsCountWalking(rows: seq<Row>, baseTicks: int, ts: seq<nat>, d: seq<string>)
    requires |ts| == |rows| + 1 && ts[0] == 0 && StrictlyIncreasing(ts) && ts[|rows|] == |d|
    requires forall k :: 0 <= k < |rows| ==> rows[k].start == baseTicks + ts[k] && rows[k].end == baseTicks + ts[k + 1]
    requires forall k, p :: 0 <= k < |rows| && ts[k] <= p < ts[k + 1] ==> d[p] == rows[k].activity
    ensures WalkTotal(rows) == multiset(d)[Walk]
  {
    var n := |rows|;
    var labels := seq(n, k requires 0 <= k < n => rows[k].activity);
    var contrib := seq(n, k requires 0 <= k < n => WalkContribution(rows[k]));
    CountOverRuns(d, ts, labels, Walk, contrib);
  }

  /** Rows built from a synchronisation on which the activity stream is constant per segment:
      the walking total counts the "Walk" ticks of that stream. */
  lemma SegmentRowsCountWalking(setId: string, baseTicks: int, names: NameMaps, numSteps: int,
                                activity: seq<Sample<Value>>, j: Joint<Sample<Value>>)
    requires Segmentation(j, |activity|)
    requires forall k, p :: 0 <= k < |j.segments| && j.timestamps[k] <= p < j.timestamps[k + 1] ==>
      activity[p] == j.segments[k][1]
    ensures WalkTotal(SegmentRows(setId, baseTicks, names, numSteps, j)) == multiset(ActivityNames(names, activity))[Walk]
  {
    var rows := SegmentRows(setId, baseTicks, names, numSteps, j);
    var d := ActivityNames(names, activity);
    SegmentRowsShowActivity(setId, baseTicks, names, numSteps, activity, j, rows, d);
    RowsCountWalking(rows, baseTicks, j.timestamps, d);
  }

  /** Every tick of a segment row has that row's activity name. */
  lemma SegmentRowsShowActivity(setId: string, baseTicks: int, names: NameMaps, numSteps: int,
                                activity: seq<Sample<Value>>, j: Joint<Sample<Value>>,
                                rows: seq<Row>, d: seq<string>)
    requires Segmentation(j, |activity|)
    requires forall k, p :: 0 <= k < |j.segments| && j.timestamps[k] <= p < j.timestamps[k + 1] ==>
      activity[p] == j.segments[k][1]
    requires rows == SegmentRows(setId, baseTicks, names, numSteps, j) && d == ActivityNames(names, activity)
    ensures forall k, p :: 0 <= k < |rows| && j.timestamps[k] <= p < j.timestamps[k + 1] ==>
      d[p] == rows[k].activity
  {
    var ts := j.timestamps;
    forall k, p | 0 <= k < |rows| && ts[k] <= p < ts[k + 1]
      ensures d[p] == rows[k].activity
    {
      assert ts[k + 1] <= |activity|;
      assert activity[p] == j.segments[k][1];
    }
  }

  /** The walking total is the number of ticks whose activity is named "Walk". */
  lemma ExtractCountsWalking(setId: string, baseTicks: int, names: NameMaps,
                             region: seq<Sample<Value>>, activity: seq<Sample<Value>>, regionLabels: seq<Sample<Value>>,
                             steps: seq<Sample<Value>>, heights: seq<Sample<Value>>)
    requires SameLength(region, activity, regionLabels, steps, heights)
    ensures var r := Extract(setId, baseTicks, names, region, activity, regionLabels, steps, heights);
      r.Ok? ==> r.value.totalWalking == multiset(ActivityNames(names, activity))[Walk]
  {
    var r := Extract(setId, baseTicks, names, region, activity, regionLabels, steps, heights);
    if r.Ok? {
      var j := ExportSync(region, activity, regionLabels, steps, heights);
      ExtractRows(setId, baseTicks, names, region, activity, regionLabels, steps, heights, j);
      SegmentRowsCountWalking(setId, baseTicks, names, StepTotal(steps).value, activity, j);
    }
  }

  /** An activity id missing from the name table is shown as "Unknown Activity", not an error,
      and contributes no walking time. */
  lemma UnknownActivityExample()
    ensures var names := NameMaps(map[], map[Int(1) := Walk], map[], map[]);
      var r := Extract("set", 0, names, [Known(Text("r1"))], [Known(Int(99))], [NaN], [Known(Int(3))], [Known(Int(0))]);
      && r.Ok?
      && (forall k :: 0 <= k < |r.value.rows| ==> r.value.rows[k].activity == UnknownActivity && r.value.rows[k].numSteps == 3)
      && r.value.totalWalking == 0
  {
    var names := NameMaps(map[], map[Int(1) := Walk], map[], map[]);
    var activity := [Known(Int(99))];
    var steps := [Known(Int(3))];
    assert StepTotal(steps[..0]) == Ok(0);
    ExtractCountsWalking("set", 0, names, [Known(Text("r1"))], activity, [NaN], steps, [Known(Int(0))]);
    assert ActivityNames(names, activity) == [UnknownActivity];
  }
}
