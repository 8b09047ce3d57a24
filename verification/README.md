# Run-length time-series engine of mm-fast, in Dafny

mm-fast reads sensor-derived measurements of warehouse workers. A measurement stores each of its
streams (region, base activity, region label, steps, handling height, pauses, …) as a run-length
encoding: an `id_series` holding one value per run and a `timestamps` list holding the start of
each run, with the series' length appended at the end. Time is counted in ticks of 10 ms. The
core decodes these streams, drops paused ticks, cuts several streams into joint segments where
any of them changes, and writes one report row per segment.

This project models that core as pure functions over sequences, and proves what they promise.

- `Results` holds the error outcomes of the core. The source raises these as exceptions; here they
  are the `Err` values of `Result`.
- `Samples` defines a sample: a known value, or NaN. It defines two equalities. `NumpyEqual` is
  numpy's `==`, under which NaN differs from itself; the encoder uses it. `SameValue` treats two
  NaNs as equal; the synchroniser uses it.
- `Seqs` holds sequence facts used everywhere: increasing sequences, sums, `np.where` as
  `IndicesWhere`, and counting a value over constant runs.
- `Codec` is the encoder `get_id_series` and the decoder `get_time_series_for_id_series`. It proves
  both round trips:
  - decoding an encoding gives the series back;
  - encoding a decoding gives the encoding back, for canonical encodings.
- `Pauses` is the pause filter: cut the series and the mask to their common length, then keep the
  unflagged ticks. It covers both the one-array form and the two-array row form. It proves what
  survives the filter and when filtering twice changes nothing.
- `Catalogue` covers the advertised stream names with their `.pickle` suffix stripped, the
  availability check, the activity translation table, and the id→name and id→colour maps of a
  categorical stream.
- `Loader` composes these into loading a named stream, with or without pause removal.
- `Sync` is the multi-stream synchroniser `get_multi_dim_id_series`. A segment starts at 0 and
  wherever any stream changes. Each segment carries one tuple of the streams' values. Every stream
  can be decoded back from its column of tuples.
- `Report` is `extract_measurement_data` with times kept in ticks:
  - the step total;
  - one row per joint segment, with ids turned into names and "Unknown …" fallbacks;
  - the walking total.

  It proves three things about the rows. They tile the measurement. Each row describes every tick
  it covers. The walking total is the number of ticks whose activity is named "Walk".

Some behaviours of the code are worth stating plainly, because the model makes them explicit:
- The decoder does not check its timestamps. It fills each run from its start, so ticks before
  the first start are never written. The model requires the first start to be 0. An input with
  too few ids fails the way numpy's indexing does.
- The synchroniser does not truncate its streams to a common length. The model therefore asks
  its callers for streams of equal length.
- An empty pause container decodes to an empty float array, and `~` on a float array raises a
  `TypeError`. Loading any stream with pause removal then fails, and the model returns
  `MaskNotBoolean` for it.
- Removing pauses twice with the same unfiltered mask is not idempotent. Once paused ticks were
  removed, the mask is longer than the filtered series, so the second pass applies it at the
  wrong offsets. `Pauses.RawMaskNotIdempotent` gives an input where the second pass changes the
  series. `Pauses.RemovePausesIdempotent` proves the consistent form, in which the second pass
  uses the mask with its own flagged ticks removed.

## Model

| member | source | states |
|---|---|---|
| Samples.NumpyEqual | api/measurement_processing.py:110-111 | numpy's `!=` between neighbours: two samples compare equal exactly when they are the same known value; a NaN never equals anything, itself included |
| Samples.SameValue | api/extract_data.py:13 | the synchroniser's comparison `(a == b) \| (isnan(a) & isnan(b))`: equal exactly when identical, NaN included |
| Seqs.IndicesWhere | api/measurement_processing.py:110-111 | `np.where` over a range: the result is increasing, lies in the range, satisfies the predicate, and contains every index of the range that satisfies it |
| Seqs.SumOfGaps | api/measurement_processing.py:144-146 | the run lengths a timestamp list delimits add up to its last entry minus its first |
| Seqs.CountOverRuns | api/extract_data.py:64-81 | over a series cut into constant runs, the number of occurrences of a value is the total length of the runs labelled with it |
| Codec.RunStarts | api/measurement_processing.py:110-113 | the run starts are 0 followed by every index whose sample differs from its predecessor, increasing and complete |
| Codec.Runs | api/measurement_processing.py:110-114 | the start list with one id per run: each id is the sample at its run's start, every inner start is a change point, every change point is a start |
| Codec.Encode | api/measurement_processing.py:89-120 | an empty series raises `EmptyTimeSeriesException`; otherwise the ids and starts describe the runs exactly, and the series length is appended when asked |
| Codec.Expand | api/measurement_processing.py:144-146 | filling each `[timestamps[i-1], timestamps[i])` with `id_series[i-1]`: the result has the last timestamp's length and holds each id throughout its run |
| Codec.Decode | api/measurement_processing.py:123-148 | empty ids or timestamps give an empty series; too few ids for the timestamps fail; otherwise the series has the last timestamp's length and every tick of run k holds id k |
| Codec.DecodeInvertsSampling | api/measurement_processing.py:123-148 | decoding any ids and starts that sample a series at boundaries of its constant runs gives that series back |
| Codec.DecodeEncode | api/measurement_processing.py:125-126 | decoding the encoding with its final timestamp gives back the original series |
| Codec.EncodeAdjacentIdsDiffer | api/measurement_processing.py:110-114 | consecutive ids of an encoding are never numpy-equal |
| Codec.EncodingUnique | api/measurement_processing.py:110-120 | a series has one encoding with final timestamp: any ids and starts that begin at 0, end at the length, hold exactly the change points and sample the series there are the encoder's |
| Codec.EncodeDecode | api/measurement_processing.py:123-148 | for a canonical encoding (adjacent ids differ, NaN runs of length one) re-encoding the decoded series gives back the same ids and timestamps |
| Codec.EncodeDocstringExample | api/measurement_processing.py:93 | `1 1 1 2 2` encodes as ids `[1, 2]` with starts `[0, 3]` |
| Codec.DecodeExample | api/measurement_processing.py:144-146 | ids `[5, 7]` with timestamps `[0, 3, 5]` decode to `[5, 5, 5, 7, 7]` |
| Pauses.Compress | api/measurement_processing.py:191 | boolean indexing `xs[~mask]`: one sample per `False` entry of the mask, each taken from the series |
| Pauses.Unmasked | api/measurement_processing.py:191 | the indices `~pause_ts` keeps: increasing, in range, unflagged, and every unflagged index |
| Pauses.UnmaskedCount | api/measurement_processing.py:191 | as many indices survive as the mask has `False` entries |
| Pauses.CompressSelects | api/measurement_processing.py:191 | boolean indexing: the kept samples, in order, one per unflagged index |
| Pauses.RemovePauses | api/measurement_processing.py:184-191 | cut to `min(len(mask), len(series))`, then keep exactly the unflagged ticks in order; the result has as many samples as the cut mask has `False` entries |
| Pauses.RemovePausesFromRows | api/measurement_processing.py:376-385 | both arrays are cut to the common length of mask and first array and filtered by the same mask; numpy's refusal when the second array is shorter is an error |
| Pauses.RemovePausesUnflagged | api/measurement_processing.py:184-191 | a mask with no flag set only cuts the series to the common length |
| Pauses.RemovePausesIdempotent | api/measurement_processing.py:184-191 | filtering again with the mask filtered by itself changes nothing |
| Pauses.RawMaskNotIdempotent | api/measurement_processing.py:184-191 | re-applying the unfiltered mask to a filtered series can change it |
| Pauses.RemovePausesExample | api/measurement_processing.py:184-191 | mask `F F T T F` on `[10, 10, 20, 20, 30]` leaves `[10, 10, 30]` |
| Pauses.RemovePausesUncutMask | api/measurement_processing.py:476-484 | the fork-height filter as written fails exactly when the mask is longer than the arrays, and otherwise agrees with the filter of the other loaders |
| Pauses.UncutMaskRejectsLongerMask | api/measurement_processing.py:476-484 | a three-tick mask over two-row arrays: the filter as written fails where the cut filter keeps both rows |
| Catalogue.StripPickle | api/measurement_processing.py:56 | a name ending in `.pickle` loses exactly that suffix; any other name is unchanged |
| Catalogue.AvailableStreams | api/measurement_processing.py:54-56 | one stripped name per advertised name, in order |
| Catalogue.CheckAvailable | api/measurement_processing.py:69-71 | the stream is accepted exactly when its name is among the stripped advertised names, and refused with a not-found error naming it otherwise |
| Catalogue.CheckAvailableIff | api/measurement_processing.py:54-71 | a name is available exactly when it is advertised with `.pickle` appended, or advertised as it is and not itself ending in `.pickle` |
| Catalogue.NameMap | api/measurement_processing.py:269-270 | succeeds exactly when every translation key is in the table, otherwise fails naming a key missing from it; its keys are the ids, and each id maps to the name of its last entry |
| Catalogue.NameMapFirstMissing | api/measurement_processing.py:269-270 | the key a failing name map reports is that of the first entry whose key is missing |
| Catalogue.ColorMap | api/measurement_processing.py:271-272 | its keys are the ids, and each id maps to the colour of its last entry |
| Catalogue.PlotInfo | api/measurement_processing.py:254-273 | the name map and the colour map over the same ids, failing exactly when a translation key is unknown |
| Catalogue.PlotInfoExample | api/translations.py:8-18 | walking and standing entries are named "Walk" and "Stand" by the translation table |
| Catalogue.PlotInfoUnknownKeyExample | api/measurement_processing.py:269-270 | a key absent from the translation table, such as `HUMAN_ACT.SIT`, fails with that key |
| Loader.LoadSimple | api/measurement_processing.py:169-192 | loading fails exactly when the stream cannot be decoded, or, with pause removal, when the pause mask cannot be decoded or its container is empty (the float array `~` rejects); otherwise it is the decoded stream, with the mask's flagged ticks removed when asked |
| Loader.LoadTimeseries | api/measurement_processing.py:58-86 | a stream missing from the advertised names is refused with a not-found error; an available one is loaded as above, empty pause container included |
| Loader.LoadEncoded | api/measurement_processing.py:73-86 | a stream stored by the encoder with its final timestamp loads as the original series, or with pause removal as that series with the pauses removed, or fails when the pause container is empty |
| Loader.EmptyPauseContainerExample | api/measurement_processing.py:140-141 | with an empty pause container a stream loads as it is without pause removal, and fails with pause removal |
| Sync.JointStarts | api/extract_data.py:8-19 | the segment starts are 0 and every tick where some stream changes, increasing, in range and complete |
| Sync.JointRuns | api/extract_data.py:8-20 | one tuple per segment holding every stream's value at the segment's start |
| Sync.Synchronise | api/extract_data.py:7-25 | no streams or empty streams fail; otherwise the segments start exactly at the joint change points, each tuple holds the streams' values at its start, and the length is appended when asked |
| Sync.SyncReconstructsStreams | api/extract_data.py:20-23 | decoding any stream's column of the tuples with the segment starts gives that stream back |
| Sync.SyncConstantOnSegments | api/extract_data.py:13-20 | within a segment every stream keeps the value its tuple records |
| Sync.SyncSegmentsDiffer | api/extract_data.py:13-18 | consecutive tuples differ in some stream |
| Sync.SyncCoverage | api/extract_data.py:22-23 | the segment lengths add up to the streams' common length |
| Sync.SynchroniseExample | api/extract_data.py:7-25 | streams `[1,1,2,2]` and `[9,9,9,8]` give tuples `(1,9) (2,9) (2,8)` with starts `[0,2,3,4]` |
| Sync.NaNRunSynchronised | api/extract_data.py:13 | a run of NaNs forms one segment for the synchroniser |
| Sync.NaNRunEncoded | api/measurement_processing.py:110-111 | the encoder, using numpy `!=`, splits the same NaN run into one run per tick |
| Report.Lookup | api/extract_data.py:59-62 | `dict.get(id, fallback)`: a known id in the table gives its name; a NaN or an id missing from the table gives the fallback |
| Report.AccumulateWalking | api/extract_data.py:64-81 | the accumulation loop computes `WalkTotal`, the sum of the durations of the rows named "Walk" |
| Report.WalkTotalWithinDurations | api/extract_data.py:64-81 | for rows that do not run backwards, the walking total lies between 0 and the sum of all row durations |
| Report.SegmentRows | api/extract_data.py:56-83 | one row per segment; row k runs from the segment's start to the next segment's start, offset by the measurement's start, and carries the set id and the step total |
| Report.StepTotal | api/extract_data.py:52 | the step total exists exactly when every step sample is a number, and is then their sum |
| Report.Extract | api/extract_data.py:32-83 | a NaN or text step fails first, then empty streams fail; otherwise consecutive rows meet, start at the measurement's start, end at its end, carry the set id and the step total, and name the streams' values at their first tick, with "Unknown …" for missing ids |
| Report.ExtractRows | api/extract_data.py:52-83 | a successful report has a numeric step total, a segmentation of the whole measurement, exactly one row per segment, and the walking total of those rows |
| Report.ExtractCoversMeasurement | api/extract_data.py:56-70 | the durations of the rows add up to the length of the measurement |
| Report.ExtractRowsDescribeEveryTick | api/extract_data.py:54-78 | every tick a row covers has that row's region, activity, region label and handling-height names |
| Report.ExtractCountsWalking | api/extract_data.py:64-81 | the walking total equals the number of ticks whose activity is named "Walk" |
| Report.UnknownActivityExample | api/extract_data.py:60 | an activity id missing from the name table is shown as "Unknown Activity", without an error, and adds no walking time |

## Left out

- File and container access: HDF5 and pickle reading, the `process_metadata.json` lookup, and CSV writing. Containers and metadata are parameters; a report is its list of rows.
- Float seconds: start and end times are `round(ticks / 100 + base_seconds, 3)` in the source. The model keeps integer ticks from a start tick, so no rounding error enters the durations or the walking total. `time_from_iso_to_seconds` is not modelled.
- The try/except around the report. It prints any exception and writes nothing. The model returns the `Err` value instead.
- The fixed names and sections of the individual stream loaders (`region_ts_data`, sections `'1'` and `'2'` of `unified_har_data`, …). Each of them is `LoadSimple` applied to one container.
- Pause removal for shift, beacon and fork-height data works on two-dimensional arrays. The model takes one row per tick of the time axis, which is all the filter touches.
- The beacon, summary and map reports, and the files `ty.py`, `data.py`, `api.py`, `main.py`, `index.py` and `map.py`: these are application wiring, not part of this model.
- Sync.Synchronise: requires streams of equal length. The source compares each stream only with itself. Unequal lengths reach numpy as an index error or as a wrong final timestamp, which the model does not reproduce.
- Sync.Synchronise: the object-dtype branch (plain `==`, no NaN test) is not modelled separately; samples compare with NaN-aware equality throughout. In the source the region and region-label streams reach the synchroniser as `<U` string arrays (`.astype(str)`, api/measurement_processing.py:207 and 223). Their dtype is not `object`, so line 13 of api/extract_data.py applies `np.isnan` to them, which raises `TypeError`. As written, `extract_measurement_data` therefore fails for every measurement, and line 97 prints the error and writes nothing. The model follows the NaN-aware comparison the code evidently intends.
- Report.Extract: region and region-label samples are taken to be text already, so `.astype(str)` (api/measurement_processing.py:207 and 223) is the identity on them. The conversion of other samples is not modelled: the source turns a numeric region id `5` into the string `"5"` and finds a region stored under `"5"`, and turns NaN into `"nan"`. The model looks up `Int(5)` itself, so for `[Known(Int(5))]` with a region table `map[Text("5") := "Dock"]` the model shows "Unknown Region" where the source would show "Dock".
- Report.Extract: the source's own failure on string region arrays, described under Sync.Synchronise, is not reproduced; the model produces the rows the code evidently intends.
- Codec.Decode: requires the first timestamp to be 0 and the timestamps to be non-decreasing. For a first timestamp above 0, the source leaves the ticks before it holding whatever `np.empty` allocated (api/measurement_processing.py:144); for decreasing timestamps, later runs skip or overwrite earlier ones. The model reproduces neither.
- Codec.Encode: object arrays that numpy compares elementwise in other ways are not modelled. Samples are known values or NaN.

## Findings

| source | as written | input that shows it | evidently intended | confidence | as-written member | corrected member |
|---|---|---|---|---|---|---|
| api/measurement_processing.py:476-484 | the fork-height arrays are cut to `min(len(pause_ts), len(fork_lvl_arr))` but `pause_ts` is not, so `arr[~pause_ts, :]` raises whenever the mask is longer | a pause mask of 3 ticks with fork-height arrays of 2 rows | cut the mask too, as every other loader does (lines 187-191, 379-385, 442-448) | high, not executed | Pauses.RemovePausesUncutMask (Pauses.UncutMaskRejectsLongerMask) | Pauses.RemovePauses (Pauses.RemovePausesIdempotent) |
