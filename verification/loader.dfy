/** Loading one named stream of a measurement: availability check, decoding, and optional pause
    removal with the measurement's pause mask. The containers are given as their decoded
    `(ids, timestamps)` sections. */
module Loader {
  import opened Results
  import opened Samples
  import opened Seqs
  import opened Codec
  import opened Pauses
  import opened Catalogue

  /** A container section the decoder accepts: its runs start at tick 0 and never go back. */
  predicate Decodable<T>(s: IdSeries<T>) {
    |s.ids| > 0 && |s.timestamps| > 0 ==> s.timestamps[0] == 0 && NonDecreasing(s.timestamps)
  }

  /** A container section with no ids or no timestamps: the decoder returns numpy's default
      empty array for it, whose dtype is float rather than bool. */
  predicate EmptySection<T>(s: IdSeries<T>) {
    |s.ids| == 0 || |s.timestamps| == 0
  }

  /** `get_simple_ts_from_pickle_file`: decode the stream; with `removePauses`, decode the pause
      container (`get_pause_ts_for_measurement`) and remove the flagged samples. An empty pause
      container decodes to a float array, and negating it with `~` raises a TypeError. */
  function LoadSimple<T>(stream: IdSeries<T>, pause: IdSeries<bool>, removePauses: bool): (r: Result<seq<T>>)
    requires Decodable(stream) && Decodable(pause)
    ensures r.Err? <==>
      || Decode(stream.ids, stream.timestamps).Err?
      || (removePauses && (Decode(pause.ids, pause.timestamps).Err? || EmptySection(pause)))
    ensures Decode(stream.ids, stream.timestamps).Ok? && removePauses && EmptySection(pause) ==>
      r == Err(MaskNotBoolean)
    ensures r.Ok? && !removePauses ==> r.value == Decode(stream.ids, stream.timestamps).value
    ensures r.Ok? && removePauses ==>
      r.value == RemovePauses(Decode(stream.ids, stream.timestamps).value, Decode(pause.ids, pause.timestamps).value)
  {
    var dense :- Decode(stream.ids, stream.timestamps);
    if !removePauses then Ok(dense)
    else
      var mask :- Decode(pause.ids, pause.timestamps);
      if EmptySection(pause) then Err(MaskNotBoolean)
      else Ok(RemovePauses(dense, mask))
  }

  /** `load_timeseries`: as `LoadSimple`, after refusing a stream the measurement does not advertise. */
  function LoadTimeseries<T>(advertised: seq<string>, target: string, stream: IdSeries<T>,
                             pause: IdSeries<bool>, removePauses: bool): (r: Result<seq<T>>)
    requires Decodable(stream) && Decodable(pause)
    ensures target !in AvailableStreams(advertised) ==> r == Err(StreamNotFound(target))
    ensures target in AvailableStreams(advertised) ==> r == LoadSimple(stream, pause, removePauses)
  {
    var _ :- CheckAvailable(advertised, target);
    LoadSimple(stream, pause, removePauses)
  }

  /** Loading a stream stored as `get_id_series(d, append_final_timestamp=True)` yields `d`
      itself, or, with pause removal, `d` filtered by the decoded pause mask; an empty pause
      container makes pause removal fail. */
  lemma LoadEncoded<T>(d: seq<Sample<T>>, pause: IdSeries<bool>)
    requires |d| > 0 && Decodable(pause) && Decode(pause.ids, pause.timestamps).Ok?
    ensures Encode(d, true).Ok? && Decodable(Encode(d, true).value)
    ensures LoadSimple(Encode(d, true).value, pause, false) == Ok(d)
    ensures !EmptySection(pause) ==>
      LoadSimple(Encode(d, true).value, pause, true) == Ok(RemovePauses(d, Decode(pause.ids, pause.timestamps).value))
    ensures EmptySection(pause) ==> LoadSimple(Encode(d, true).value, pause, true) == Err(MaskNotBoolean)
  {
    var e := Encode(d, true).value;
    assert NonDecreasing(e.timestamps);
    DecodeEncode(d);
  }

  /** An empty pause container: loading without pause removal succeeds, with it the load fails. */
  lemma EmptyPauseContainerExample()
    ensures LoadSimple(IdSeries([1, 2], [0, 2, 3]), IdSeries([], []), false) == Ok([1, 1, 2])
    ensures LoadSimple(IdSeries([1, 2], [0, 2, 3]), IdSeries([], []), true) == Err(MaskNotBoolean)
  {
    DecodeExampleSmall();
  }

  /** Ids `[1, 2]` with timestamps `[0, 2, 3]` decode to `1 1 2`. */
  lemma DecodeExampleSmall()
    ensures Decode([1, 2], [0, 2, 3]) == Ok([1, 1, 2])
  {
    var r := Decode([1, 2], [0, 2, 3]).value;
    assert r[0] == 1 && r[1] == 1 && r[2] == 2;
    assert r == [1, 1, 2];
  }
}
