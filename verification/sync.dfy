/** The multi-stream synchroniser: the union of the change points of several equally long
    streams, and for every joint segment the tuple of the streams' values. */
module Sync {
  import opened Results
  import opened Samples
  import opened Seqs
  import opened Codec

  /** Stream `s` changes value at tick `i`; a NaN followed by a NaN is no change. */
  predicate StreamChangesAt<T(==)>(s: seq<Sample<T>>, i: nat) {
    1 <= i < |s| && !SameValue(s[i - 1], s[i])
  }

  /** Some stream changes value at tick `i`. */
  predicate JointChangeAt<T(==)>(streams: seq<seq<Sample<T>>>, i: nat) {
    exists c :: 0 <= c < |streams| && StreamChangesAt(streams[c], i)
  }

  predicate EqualLengths<T>(streams: seq<seq<T>>) {
    forall c :: 0 <= c < |streams| ==> |streams[c]| == |streams[0]|
  }

  /** The synchroniser's output: one tuple per joint segment (one component per stream) and
      the tick at which each segment starts, possibly followed by the length sentinel. */
  datatype Joint<T> = Joint(segments: seq<seq<T>>, timestamps: seq<nat>)

  /** The shape of what `get_multi_dim_id_series` returns for `streams`. */
  ghost predicate SynchronisesAs<T>(streams: seq<seq<Sample<T>>>, j: Joint<Sample<T>>, appendFinal: bool)
    requires |streams| > 0 && EqualLengths(streams)
  {
    var n := |j.segments|;
    var len := |streams[0]|;
    && |j.timestamps| == n + (if appendFinal then 1 else 0)
    && n > 0
    && j.timestamps[0] == 0
    && StrictlyIncreasing(j.timestamps)
    && (forall k :: 0 <= k < n ==> j.timestamps[k] < len)
    && (forall k :: 1 <= k < n ==> JointChangeAt(streams, j.timestamps[k]))
    && (forall i: nat :: JointChangeAt(streams, i) ==> i in j.timestamps)
    && (forall k :: 0 <= k < n ==> |j.segments[k]| == |streams|)
    && (forall k, c :: 0 <= k < n && 0 <= c < |streams| ==> j.segments[k][c] == streams[c][j.timestamps[k]])
    && (appendFinal ==> j.timestamps[n] == len)
  }

  /** The ticks at which joint segments start: 0 and every tick where some stream changes. */
  function JointStarts<T(==)>(streams: seq<seq<Sample<T>>>): (r: seq<nat>)
    requires |streams| > 0 && |streams[0]| > 0 && EqualLengths(streams)
    ensures |r| > 0 && r[0] == 0 && StrictlyIncreasing(r)
    ensures forall k :: 0 <= k < |r| ==> r[k] < |streams[0]|
    ensures forall k :: 1 <= k < |r| ==> JointChangeAt(streams, r[k])
    ensures forall i: nat :: JointChangeAt(streams, i) ==> i in r
  {
    var len := |streams[0]|;
    var changes := IndicesWhere((i: nat) => JointChangeAt(streams, i), 1, len);
    assert forall i: nat :: JointChangeAt(streams, i) ==> 1 <= i < len;
    [0] + changes
  }

  /** The joint segments without the sentinel. */
  function JointRuns<T(==)>(streams: seq<seq<Sample<T>>>): (j: Joint<Sample<T>>)
    requires |streams| > 0 && |streams[0]| > 0 && EqualLengths(streams)
    ensures SynchronisesAs(streams, j, false)
  {
    var starts := JointStarts(streams);
    var segments := seq(|starts|, k requires 0 <= k < |starts| =>
      seq(|streams|, c requires 0 <= c < |streams| => streams[c][starts[k]]));
    Joint(segments, starts)
  }

  /** Appending the common length to the segments without sentinel gives those with it. */
  lemma AppendSentinel<T>(streams: seq<seq<Sample<T>>>, j: Joint<Sample<T>>)
    requires |streams| > 0 && EqualLengths(streams) && SynchronisesAs(streams, j, false)
    ensures SynchronisesAs(streams, Joint(j.segments, j.timestamps + [|streams[0]|]), true)
  {
    var ts := j.timestamps + [|streams[0]|];
    assert forall k :: 0 <= k < |j.timestamps| ==> ts[k] == j.timestamps[k];
    assert StrictlyIncreasing(ts);
    assert forall i: nat :: JointChangeAt(streams, i) ==> i in ts;
  }

  /** `get_multi_dim_id_series`: synchronise equally long streams. No streams at all is
      refused (concatenating no change arrays), and so are empty streams (indexing tick 0). */
  function Synchronise<T(==)>(streams: seq<seq<Sample<T>>>, appendFinal: bool): (r: Result<Joint<Sample<T>>>)
    requires EqualLengths(streams)
    ensures r.Err? <==> |streams| == 0 || |streams[0]| == 0
    ensures |streams| == 0 ==> r == Err(NoStreams)
    ensures |streams| > 0 && |streams[0]| == 0 ==> r == Err(IndexOutOfRange)
    ensures r.Ok? ==> SynchronisesAs(streams, r.value, appendFinal)
  {
    if |streams| == 0 then Err(NoStreams)
    else if |streams[0]| == 0 then Err(IndexOutOfRange)
    else
      var j := JointRuns(streams);
      if !appendFinal then Ok(j)
      else
        AppendSentinel(streams, j);
        Ok(Joint(j.segments, j.timestamps + [|streams[0]|]))
  }

  /** The `c`-th component of every segment tuple. */
  function Column<T>(segments: seq<seq<T>>, c: nat): (r: seq<T>)
    requires forall k :: 0 <= k < |segments| ==> c < |segments[k]|
  {
    seq(|segments|, k requires 0 <= k < |segments| => segments[k][c])
  }

  /** Every stream can be recovered from the joint segments: decoding the stream's component
      of the tuples with the joint timestamps gives the stream back. So each stream is constant
      within every joint segment. */
  lemma SyncReconstructsStreams<T>(streams: seq<seq<Sample<T>>>, c: nat)
    requires EqualLengths(streams) && c < |streams| && |streams[0]| > 0
    ensures Synchronise(streams, true).Ok?
    ensures var j := Synchronise(streams, true).value;
      Decode(Column(j.segments, c), j.timestamps) == Ok(streams[c])
  {
    var j := Synchronise(streams, true).value;
    StreamChangesAreStarts(streams, c, j.timestamps);
    DecodeInvertsSampling(streams[c], Column(j.segments, c), j.timestamps);
  }

  /** A stream changes only at ticks where the synchroniser starts a segment. */
  lemma StreamChangesAreStarts<T>(streams: seq<seq<Sample<T>>>, c: nat, ts: seq<nat>)
    requires c < |streams|
    requires forall i: nat :: JointChangeAt(streams, i) ==> i in ts
    ensures forall i :: 1 <= i < |streams[c]| && streams[c][i - 1] != streams[c][i] ==> i in ts
  {
    forall i | 1 <= i < |streams[c]| && streams[c][i - 1] != streams[c][i]
      ensures i in ts
    {
      assert StreamChangesAt(streams[c], i);
      assert JointChangeAt(streams, i);
    }
  }

  /** Within joint segment `k`, every stream holds the value recorded in the segment's tuple. */
  lemma SyncConstantOnSegments<T>(streams: seq<seq<Sample<T>>>)
    requires EqualLengths(streams) && |streams| > 0 && |streams[0]| > 0
    ensures Synchronise(streams, true).Ok?
    ensures var j := Synchronise(streams, true).value;
      forall k, c, p :: 0 <= k < |j.segments| && 0 <= c < |streams| && j.timestamps[k] <= p < j.timestamps[k + 1] ==>
        streams[c][p] == j.segments[k][c]
  {
    SegmentsHoldStreams(streams, Synchronise(streams, true).value);
  }

  /** Every stream is constant on each segment of a joint segmentation with a sentinel. */
  lemma SegmentsHoldStreams<T>(streams: seq<seq<Sample<T>>>, j: Joint<Sample<T>>)
    requires EqualLengths(streams) && |streams| > 0 && SynchronisesAs(streams, j, true)
    ensures forall k, c, p :: 0 <= k < |j.segments| && 0 <= c < |streams| && j.timestamps[k] <= p < j.timestamps[k + 1] ==>
      streams[c][p] == j.segments[k][c]
  {
    var ts := j.timestamps;
    forall k, c, p | 0 <= k < |j.segments| && 0 <= c < |streams| && ts[k] <= p < ts[k + 1]
      ensures streams[c][p] == j.segments[k][c]
    {
      StreamChangesAreStarts(streams, c, ts);
      ConstantBetweenStarts(streams[c], ts, k);
    }
  }

  /** The synchronisation with a sentinel, together with the shape and constancy facts that
      callers combining several streams rely on. */
  lemma SyncSegmentation<T>(streams: seq<seq<Sample<T>>>) returns (j: Joint<Sample<T>>)
    requires EqualLengths(streams) && |streams| > 0 && |streams[0]| > 0
    ensures Synchronise(streams, true) == Ok(j)
    ensures |j.timestamps| == |j.segments| + 1 && j.timestamps[0] == 0 && j.timestamps[|j.segments|] == |streams[0]|
    ensures StrictlyIncreasing(j.timestamps)
    ensures forall k :: 0 <= k < |j.segments| ==> |j.segments[k]| == |streams|
    ensures forall k, c, p :: 0 <= k < |j.segments| && 0 <= c < |streams| && j.timestamps[k] <= p < j.timestamps[k + 1] ==>
      streams[c][p] == j.segments[k][c]
  {
    SyncConstantOnSegments(streams);
    j := Synchronise(streams, true).value;
  }

  /** No two neighbouring segment tuples are equal: each segment boundary is a change of at
      least one stream. */
  lemma SyncSegmentsDiffer<T>(streams: seq<seq<Sample<T>>>)
    requires EqualLengths(streams) && |streams| > 0 && |streams[0]| > 0
    ensures Synchronise(streams, true).Ok?
    ensures var j := Synchronise(streams, true).value;
      forall k :: 1 <= k < |j.segments| ==> j.segments[k - 1] != j.segments[k]
  {
    SegmentsDiffer(streams, Synchronise(streams, true).value);
  }

  /** Neighbouring tuples of a joint segmentation with a sentinel differ. */
  lemma SegmentsDiffer<T>(streams: seq<seq<Sample<T>>>, j: Joint<Sample<T>>)
    requires EqualLengths(streams) && |streams| > 0 && SynchronisesAs(streams, j, true)
    ensures forall k :: 1 <= k < |j.segments| ==> j.segments[k - 1] != j.segments[k]
  {
    SegmentsHoldStreams(streams, j);
    forall k | 1 <= k < |j.segments|
      ensures j.segments[k - 1] != j.segments[k]
    {
      var t := j.timestamps[k];
      assert JointChangeAt(streams, t);
      var c :| 0 <= c < |streams| && StreamChangesAt(streams[c], t);
      assert j.timestamps[k - 1] <= t - 1 < j.timestamps[k];
      assert streams[c][t - 1] == j.segments[k - 1][c];
      assert streams[c][t] == j.segments[k][c];
    }
  }

  /** The segments cover the timeline without gaps or overlaps: their durations add up to the
      common stream length. */
  lemma SyncCoverage<T>(streams: seq<seq<Sample<T>>>)
    requires EqualLengths(streams) && |streams| > 0 && |streams[0]| > 0
    ensures Synchronise(streams, true).Ok?
    ensures Sum(Gaps(Synchronise(streams, true).value.timestamps)) == |streams[0]|
  {
    SumOfGaps(Synchronise(streams, true).value.timestamps);
  }

  /** Streams 1 1 2 2 and 9 9 9 8 change jointly at ticks 2 and 3, giving the tuples
      (1, 9), (2, 9), (2, 8) starting at 0, 2, 3, with sentinel 4. */
  lemma SynchroniseExample()
    ensures Synchronise([[Known(1), Known(1), Known(2), Known(2)], [Known(9), Known(9), Known(9), Known(8)]], true)
         == Ok(Joint([[Known(1), Known(9)], [Known(2), Known(9)], [Known(2), Known(8)]], [0, 2, 3, 4]))
  {
    var a := [Known(1), Known(1), Known(2), Known(2)];
    var b := [Known(9), Known(9), Known(9), Known(8)];
    var streams := [a, b];
    ExampleRuns(a, b);
    var j := JointRuns(streams);
    assert Synchronise(streams, true) == Ok(Joint(j.segments, j.timestamps + [4]));
    assert j.timestamps + [4] == [0, 2, 3, 4];
  }

  /** The joint segments, without sentinel, of the streams of `SynchroniseExample`. */
  lemma ExampleRuns(a: seq<Sample<int>>, b: seq<Sample<int>>)
    requires a == [Known(1), Known(1), Known(2), Known(2)] && b == [Known(9), Known(9), Known(9), Known(8)]
    ensures JointRuns([a, b]) == Joint([[Known(1), Known(9)], [Known(2), Known(9)], [Known(2), Known(8)]], [0, 2, 3])
  {
    ExampleStarts(a, b);
    var j := JointRuns([a, b]);
    assert j.timestamps == [0, 2, 3];
    assert j.segments[0] == [Known(1), Known(9)];
    assert j.segments[1] == [Known(2), Known(9)];
    assert j.segments[2] == [Known(2), Known(8)];
    assert j.segments == [[Known(1), Known(9)], [Known(2), Known(9)], [Known(2), Known(8)]];
  }

  /** The segment starts of the streams of `SynchroniseExample`. */
  lemma ExampleStarts(a: seq<Sample<int>>, b: seq<Sample<int>>)
    requires a == [Known(1), Known(1), Known(2), Known(2)] && b == [Known(9), Known(9), Known(9), Known(8)]
    ensures JointStarts([a, b]) == [0, 2, 3]
  {
    var streams := [a, b];
    ExampleChanges(a, b);
    var starts := JointStarts(streams);
    forall x
      ensures x in starts <==> x in [0, 2, 3]
    {
      if x in starts && x != 0 {
        var k :| 0 <= k < |starts| && starts[k] == x;
        assert JointChangeAt(streams, x);
      }
    }
    IncreasingByElements(starts, [0, 2, 3]);
  }

  /** The joint change points of the streams of `SynchroniseExample`. */
  lemma ExampleChanges(a: seq<Sample<int>>, b: seq<Sample<int>>)
    requires a == [Known(1), Known(1), Known(2), Known(2)] && b == [Known(9), Known(9), Known(9), Known(8)]
    ensures forall i: nat :: JointChangeAt([a, b], i) <==> i == 2 || i == 3
  {
    assert StreamChangesAt([a, b][0], 2) && StreamChangesAt([a, b][1], 3);
    forall i: nat | JointChangeAt([a, b], i)
      ensures i == 2 || i == 3
    {
      var c :| 0 <= c < 2 && StreamChangesAt([a, b][c], i);
    }
  }

  /** A NaN run is one joint segment: NaN followed by NaN is no change to the synchroniser. */
  lemma NaNRunSynchronised()
    ensures Synchronise([[NaN, NaN, Known(1)]], true) == Ok(Joint([[NaN], [Known(1)]], [0, 2, 3]))
  {
    var s: seq<Sample<int>> := [NaN, NaN, Known(1)];
    assert !StreamChangesAt(s, 1) && StreamChangesAt(s, 2);
    assert [s][0] == s;
    assert forall i: nat :: JointChangeAt([s], i) <==> i == 2;
    var starts := JointStarts([s]);
    forall x
      ensures x in starts <==> x in [0, 2]
    {
      if x in starts && x != 0 {
        var k :| 0 <= k < |starts| && starts[k] == x;
        assert JointChangeAt([s], x);
      }
    }
    IncreasingByElements(starts, [0, 2]);
    var j := JointRuns([s]);
    assert j.timestamps == [0, 2];
    assert j.segments[0] == [NaN] && j.segments[1] == [Known(1)];
    assert j.segments == [[NaN], [Known(1)]];
    assert Synchronise([s], true) == Ok(Joint(j.segments, j.timestamps + [3]));
    assert j.timestamps + [3] == [0, 2, 3];
  }

  /** Under numpy's comparison every tick of a NaN run starts a new run. */
  lemma NaNRunStarts(s: seq<Sample<int>>)
    requires s == [NaN, NaN, Known(1)]
    ensures RunStarts(s) == [0, 1, 2]
  {
    var rs := RunStarts(s);
    assert IsChangePoint(s, 1) && IsChangePoint(s, 2);
    forall x
      ensures x in rs <==> x in [0, 1, 2]
    {
      if x in rs && x != 0 {
        var k :| 0 <= k < |rs| && rs[k] == x;
        assert IsChangePoint(s, x);
      }
    }
    IncreasingByElements(rs, [0, 1, 2]);
  }

  /** The encoder compares with numpy's `!=`, so the same NaN run becomes one run per tick. */
  lemma NaNRunEncoded()
    ensures Encode([NaN, NaN, Known(1)], true) == Ok(IdSeries([NaN, NaN, Known(1)], [0, 1, 2, 3]))
  {
    var s: seq<Sample<int>> := [NaN, NaN, Known(1)];
    NaNRunStarts(s);
    var e := Runs(s);
    assert e.ids == [NaN, NaN, Known(1)];
    assert Encode(s, true) == Ok(IdSeries(e.ids, e.timestamps + [3]));
    assert e.timestamps + [3] == [0, 1, 2, 3];
  }
}
