/** The run-length codec between a dense series (one sample per 10 ms tick) and its
    change-point form: the value of every run and the tick at which the run starts. */
module Codec {
  import opened Results
  import opened Samples
  import opened Seqs

  /** A change-point series as stored in a measurement container: `ids[k]` holds from
      `timestamps[k]` up to `timestamps[k + 1]`; the last timestamp may be the length sentinel. */
  datatype IdSeries<T> = IdSeries(ids: seq<T>, timestamps: seq<nat>)

  /** Tick `i` starts a new run: numpy's `d[i-1] != d[i]`, so every NaN starts a run of its own. */
  predicate IsChangePoint<T(==)>(d: seq<Sample<T>>, i: nat) {
    1 <= i < |d| && !NumpyEqual(d[i - 1], d[i])
  }

  /** The shape of what `get_id_series` returns for `d`. */
  ghost predicate EncodesAs<T>(d: seq<Sample<T>>, e: IdSeries<Sample<T>>, appendFinal: bool) {
    var n := |e.ids|;
    && |e.timestamps| == n + (if appendFinal then 1 else 0)
    && n > 0
    && e.timestamps[0] == 0
    && StrictlyIncreasing(e.timestamps)
    && (forall k :: 0 <= k < n ==> e.timestamps[k] < |d| && e.ids[k] == d[e.timestamps[k]])
    && (forall k :: 1 <= k < n ==> IsChangePoint(d, e.timestamps[k]))
    && (forall i :: IsChangePoint(d, i) ==> i in e.timestamps)
    && (appendFinal ==> e.timestamps[n] == |d|)
  }

  /** The ticks at which the runs of a non-empty series start: 0 and every change point, ascending. */
  function RunStarts<T(==)>(d: seq<Sample<T>>): (r: seq<nat>)
    requires |d| > 0
    ensures |r| > 0 && r[0] == 0 && StrictlyIncreasing(r)
    ensures forall k :: 0 <= k < |r| ==> r[k] < |d|
    ensures forall k :: 1 <= k < |r| ==> IsChangePoint(d, r[k])
    ensures forall i :: IsChangePoint(d, i) ==> i in r
  {
    var changes := IndicesWhere((i: nat) => IsChangePoint(d, i), 1, |d|);
    assert forall i :: IsChangePoint(d, i) ==> i in changes;
    [0] + changes
  }

  /** The runs of a non-empty series, without the length sentinel. */
  function Runs<T(==)>(d: seq<Sample<T>>): (e: IdSeries<Sample<T>>)
    requires |d| > 0
    ensures EncodesAs(d, e, false)
  {
    var starts := RunStarts(d);
    IdSeries(seq(|starts|, k requires 0 <= k < |starts| => d[starts[k]]), starts)
  }

  /** get_id_series: compress a dense series into its runs. Fails on an empty series;
      with `appendFinal` the series length is appended to the timestamps. */
  function Encode<T(==)>(d: seq<Sample<T>>, appendFinal: bool): (r: Result<IdSeries<Sample<T>>>)
    ensures r.Err? <==> |d| == 0
    ensures r.Err? ==> r.error == EmptyTimeSeries
    ensures r.Ok? ==> EncodesAs(d, r.value, appendFinal)
  {
    if |d| == 0 then Err(EmptyTimeSeries)
    else if !appendFinal then Ok(Runs(d))
    else
      var e := Runs(d);
      AppendSentinel(d, e);
      Ok(IdSeries(e.ids, e.timestamps + [|d|]))
  }

  /** Appending the length to an encoding without sentinel gives the encoding with it. */
  lemma AppendSentinel<T>(d: seq<Sample<T>>, e: IdSeries<Sample<T>>)
    requires EncodesAs(d, e, false)
    ensures EncodesAs(d, IdSeries(e.ids, e.timestamps + [|d|]), true)
  {
    var ts := e.timestamps + [|d|];
    assert forall k :: 0 <= k < |e.timestamps| ==> ts[k] == e.timestamps[k];
    assert StrictlyIncreasing(ts);
    assert forall i :: IsChangePoint(d, i) ==> i in ts;
    assert forall k :: 1 <= k < |e.ids| ==> IsChangePoint(d, ts[k]);
    assert forall k :: 0 <= k < |e.ids| ==> ts[k] < |d| && e.ids[k] == d[ts[k]];
  }

  /** The first `n - 1` runs written out: run `k` fills [ts[k-1], ts[k]) with `ids[k-1]`. */
  function Expand<T>(ids: seq<T>, ts: seq<nat>, n: nat): (r: seq<T>)
    requires 1 <= n <= |ts| && n - 1 <= |ids|
    requires ts[0] == 0 && NonDecreasing(ts)
    ensures |r| == ts[n - 1]
    ensures forall k, j :: 1 <= k < n && ts[k - 1] <= j < ts[k] ==> r[j] == ids[k - 1]
  {
    if n == 1 then []
    else
      var front := Expand(ids, ts, n - 1);
      var run := Repeat(ids[n - 2], ts[n - 1] - ts[n - 2]);
      assert forall j :: ts[n - 2] <= j < ts[n - 1] ==> (front + run)[j] == ids[n - 2];
      front + run
  }

  /** `get_time_series_for_id_series`: expand runs into a dense series. Either input empty gives
      the empty series; fewer ids than runs is numpy's IndexError. The timestamps carry the
      length sentinel and start at 0, so every tick of the series lies in some run. */
  function Decode<T>(ids: seq<T>, timestamps: seq<nat>): (r: Result<seq<T>>)
    requires |ids| > 0 && |timestamps| > 0 ==> timestamps[0] == 0 && NonDecreasing(timestamps)
    ensures r.Err? <==> |ids| > 0 && |timestamps| > 0 && |ids| < |timestamps| - 1
    ensures r.Err? ==> r.error == IndexOutOfRange
    ensures r.Ok? && (|ids| == 0 || |timestamps| == 0) ==> r.value == []
    ensures r.Ok? && |ids| > 0 && |timestamps| > 0 ==>
      && |r.value| == timestamps[|timestamps| - 1]
      && forall k, j :: 1 <= k < |timestamps| && timestamps[k - 1] <= j < timestamps[k] ==> r.value[j] == ids[k - 1]
  {
    if |timestamps| == 0 || |ids| == 0 then Ok([])
    else if |ids| < |timestamps| - 1 then Err(IndexOutOfRange)
    else Ok(Expand(ids, timestamps, |timestamps|))
  }

  /** A series whose every change is at one of the ticks `ts` is constant between two
      consecutive ticks of `ts`. */
  lemma ConstantBetweenStarts<T>(d: seq<T>, ts: seq<nat>, k: nat)
    requires StrictlyIncreasing(ts) && k + 1 < |ts| && ts[k + 1] <= |d|
    requires forall i :: 1 <= i < |d| && d[i - 1] != d[i] ==> i in ts
    ensures forall p :: ts[k] <= p < ts[k + 1] ==> d[p] == d[ts[k]]
  {
    forall i | ts[k] < i < ts[k + 1]
      ensures d[i - 1] == d[i]
    {
    }
    ConstantRun(d, ts[k], ts[k + 1]);
  }

  /** Decoding recovers any dense series from the values it takes at the starts of a
      timestamp sequence that contains every tick where the series changes. */
  lemma DecodeInvertsSampling<T>(d: seq<T>, ids: seq<T>, ts: seq<nat>)
    requires |ids| > 0 && |ts| == |ids| + 1
    requires ts[0] == 0 && StrictlyIncreasing(ts) && ts[|ids|] == |d|
    requires forall k :: 0 <= k < |ids| ==> ts[k] < |d| && ids[k] == d[ts[k]]
    requires forall i :: 1 <= i < |d| && d[i - 1] != d[i] ==> i in ts
    ensures Decode(ids, ts) == Ok(d)
  {
    var r := Decode(ids, ts);
    assert r.Ok?;
    forall j | 0 <= j < |d|
      ensures r.value[j] == d[j]
    {
      var k := Locate(ts, j);
      ConstantBetweenStarts(d, ts, k - 1);
    }
    assert r.value == d;
  }

  /** Round trip: decoding `get_id_series(d, append_final_timestamp=True)` gives back `d`. */
  lemma DecodeEncode<T>(d: seq<Sample<T>>)
    requires |d| > 0
    ensures Encode(d, true).Ok?
    ensures Decode(Encode(d, true).value.ids, Encode(d, true).value.timestamps) == Ok(d)
  {
    var e := Encode(d, true).value;
    forall i | 1 <= i < |d| && d[i - 1] != d[i]
      ensures i in e.timestamps
    {
      assert IsChangePoint(d, i);
    }
    DecodeInvertsSampling(d, e.ids, e.timestamps);
  }

  /** In any encoding of a series, neighbouring ids differ under numpy's `!=`. */
  lemma EncodingIdsDiffer<T>(d: seq<Sample<T>>, e: IdSeries<Sample<T>>, appendFinal: bool)
    requires EncodesAs(d, e, appendFinal)
    ensures forall k :: 1 <= k < |e.ids| ==> !NumpyEqual(e.ids[k - 1], e.ids[k])
  {
    var ts := e.timestamps;
    forall i | 1 <= i < |d| && d[i - 1] != d[i]
      ensures i in ts
    {
      assert IsChangePoint(d, i);
    }
    forall k | 1 <= k < |e.ids|
      ensures !NumpyEqual(e.ids[k - 1], e.ids[k])
    {
      ConstantBetweenStarts(d, ts, k - 1);
      assert e.ids[k - 1] == d[ts[k] - 1];
      assert IsChangePoint(d, ts[k]);
    }
  }

  /** Neighbouring runs of an encoding hold values numpy calls different. */
  lemma EncodeAdjacentIdsDiffer<T>(d: seq<Sample<T>>, appendFinal: bool)
    requires |d| > 0
    ensures Encode(d, appendFinal).Ok?
    ensures forall k :: 1 <= k < |Encode(d, appendFinal).value.ids| ==>
      !NumpyEqual(Encode(d, appendFinal).value.ids[k - 1], Encode(d, appendFinal).value.ids[k])
  {
    EncodingIdsDiffer(d, Encode(d, appendFinal).value, appendFinal);
  }

  /** A change-point series in the form `get_id_series` produces: runs start at 0, end with the
      length sentinel, neighbouring ids differ under numpy's `!=`, and a NaN run is one tick long. */
  ghost predicate Canonical<T>(ids: seq<Sample<T>>, ts: seq<nat>) {
    && |ids| > 0 && |ts| == |ids| + 1
    && ts[0] == 0 && StrictlyIncreasing(ts)
    && (forall k :: 1 <= k < |ids| ==> !NumpyEqual(ids[k - 1], ids[k]))
    && (forall k :: 0 <= k < |ids| && ids[k].NaN? ==> ts[k + 1] == ts[k] + 1)
  }

  /** The change points of a decoded canonical series are exactly its inner run starts. */
  lemma CanonicalChangePoints<T>(ids: seq<Sample<T>>, ts: seq<nat>)
    requires Canonical(ids, ts)
    ensures Decode(ids, ts).Ok? && |Decode(ids, ts).value| == ts[|ids|] > 0
    ensures forall i: nat :: IsChangePoint(Decode(ids, ts).value, i) ==> i in ts
    ensures forall k :: 1 <= k < |ids| ==> IsChangePoint(Decode(ids, ts).value, ts[k])
  {
    var n := |ids|;
    var d := Decode(ids, ts).value;
    assert ts[0] < ts[n];
    forall i: nat | IsChangePoint(d, i)
      ensures i in ts
    {
      var k := Locate(ts, i);
    }
    forall k | 1 <= k < n
      ensures IsChangePoint(d, ts[k])
    {
      assert d[ts[k] - 1] == ids[k - 1];
      assert ts[k] < ts[k + 1];
      assert d[ts[k]] == ids[(k + 1) - 1];
    }
  }

  /** Two descriptions of where the runs of `d` start hold the same ticks, when both consist
      of 0, change points and (for `ts`) the length, and `ts` holds every change point. */
  lemma SameRunStarts<T>(d: seq<Sample<T>>, rs: seq<nat>, ts: seq<nat>)
    requires |rs| > 0 && rs[0] == 0
    requires forall k :: 1 <= k < |rs| ==> IsChangePoint(d, rs[k])
    requires forall i :: IsChangePoint(d, i) ==> i in rs
    requires |ts| > 1 && ts[0] == 0 && ts[|ts| - 1] == |d|
    requires forall k :: 1 <= k < |ts| - 1 ==> IsChangePoint(d, ts[k])
    requires forall i: nat :: IsChangePoint(d, i) ==> i in ts
    ensures forall x :: x in rs + [|d|] <==> x in ts
  {
    forall x | x in ts
      ensures x in rs + [|d|]
    {
      var k :| 0 <= k < |ts| && ts[k] == x;
      if 0 < k < |ts| - 1 {
        assert IsChangePoint(d, x);
      }
    }
    forall x | x in rs + [|d|]
      ensures x in ts
    {
      if x in rs && x != 0 {
        var k :| 0 <= k < |rs| && rs[k] == x;
        assert IsChangePoint(d, x);
      }
    }
  }

  /** Round trip the other way: a canonical change-point series decoded and re-encoded
      with the sentinel is itself. */
  lemma EncodeDecode<T>(ids: seq<Sample<T>>, ts: seq<nat>)
    requires Canonical(ids, ts)
    ensures Decode(ids, ts).Ok?
    ensures Encode(Decode(ids, ts).value, true) == Ok(IdSeries(ids, ts))
  {
    CanonicalChangePoints(ids, ts);
    var d := Decode(ids, ts).value;
    forall k | 0 <= k < |ids|
      ensures ids[k] == d[ts[k]]
    {
      assert ts[k] < ts[k + 1];
    }
    EncodingUnique(d, Encode(d, true).value, ids, ts);
  }

  /** A series has only one encoding with sentinel: any run values and timestamps that start at
      0, end at the length, and hold exactly the change points are the encoder's. */
  lemma EncodingUnique<T>(d: seq<Sample<T>>, e: IdSeries<Sample<T>>, ids: seq<Sample<T>>, ts: seq<nat>)
    requires EncodesAs(d, e, true)
    requires |ts| == |ids| + 1 && ts[0] == 0 && StrictlyIncreasing(ts) && ts[|ids|] == |d|
    requires forall k :: 1 <= k < |ids| ==> IsChangePoint(d, ts[k])
    requires forall i: nat :: IsChangePoint(d, i) ==> i in ts
    requires forall k :: 0 <= k < |ids| ==> ids[k] == d[ts[k]]
    ensures e == IdSeries(ids, ts)
  {
    var rs := e.timestamps[..|e.ids|];
    assert e.timestamps == rs + [|d|];
    SameRunStarts(d, rs, ts);
    IncreasingByElements(e.timestamps, ts);
    assert e.ids == ids;
  }

  /** The example of the `get_id_series` docstring: 1 1 1 2 2 gives ids [1, 2] starting at [0, 3]. */
  lemma EncodeDocstringExample()
    ensures Encode([Known(1), Known(1), Known(1), Known(2), Known(2)], false)
         == Ok(IdSeries([Known(1), Known(2)], [0, 3]))
  {
    var d := [Known(1), Known(1), Known(1), Known(2), Known(2)];
    var e := Encode(d, false).value;
    assert IsChangePoint(d, 3);
    assert forall i :: 1 <= i < 5 && i != 3 ==> !IsChangePoint(d, i);
    IncreasingByElements(e.timestamps, [0, 3]);
    assert e.ids == [Known(1), Known(2)];
  }

  /** Decoding ids [5, 7] with starts [0, 3] and sentinel 5 gives 5 5 5 7 7. */
  lemma DecodeExample()
    ensures Decode([5, 7], [0, 3, 5]) == Ok([5, 5, 5, 7, 7])
  {
    var r := Decode([5, 7], [0, 3, 5]).value;
    assert r[0] == 5 && r[1] == 5 && r[2] == 5 && r[3] == 7 && r[4] == 7;
    assert r == [5, 5, 5, 7, 7];
  }
}
