/** Pause removal: samples whose pause flag is set are deleted from a stream, after the stream
    and the pause mask are both cut to the shorter of their two lengths. */
module Pauses {
  import opened Results
  import opened Seqs

  function Min(a: nat, b: nat): nat {
    if a <= b then a else b
  }

  /** The indices whose mask entry is false, ascending: the positions `x[~mask]` keeps. */
  function Unmasked(mask: seq<bool>): (r: seq<nat>)
    ensures StrictlyIncreasing(r)
    ensures forall k :: 0 <= k < |r| ==> r[k] < |mask| && !mask[r[k]]
    ensures forall i :: 0 <= i < |mask| && !mask[i] ==> i in r
  {
    if |mask| == 0 then []
    else
      var front := mask[..|mask| - 1];
      Unmasked(front) + (if mask[|mask| - 1] then [] else [|mask| - 1])
  }

  /** As many samples are kept as the mask holds `false` entries. */
  lemma {:induction false} UnmaskedCount(mask: seq<bool>)
    ensures |Unmasked(mask)| == multiset(mask)[false]
    decreases |mask|
  {
    if |mask| > 0 {
      var front := mask[..|mask| - 1];
      UnmaskedCount(front);
      assert mask == front + [mask[|mask| - 1]];
    }
  }

  /** numpy's boolean indexing `xs[~mask]` for arrays of equal length. */
  function Compress<T>(xs: seq<T>, mask: seq<bool>): (r: seq<T>)
    requires |xs| == |mask|
    ensures |r| == multiset(mask)[false]
    ensures forall x :: x in r ==> x in xs
  {
    if |xs| == 0 then []
    else
      var n := |xs| - 1;
      assert mask == mask[..n] + [mask[n]];
      Compress(xs[..n], mask[..n]) + (if mask[n] then [] else [xs[n]])
  }

  /** Boolean indexing keeps, in order, the samples at the unflagged indices. */
  lemma {:induction false} CompressSelects<T>(xs: seq<T>, mask: seq<bool>)
    requires |xs| == |mask|
    ensures |Compress(xs, mask)| == |Unmasked(mask)|
    ensures forall k :: 0 <= k < |Compress(xs, mask)| ==> Compress(xs, mask)[k] == xs[Unmasked(mask)[k]]
    decreases |xs|
  {
    if |xs| > 0 {
      var n := |xs| - 1;
      CompressSelects(xs[..n], mask[..n]);
      assert mask[..n] == mask[..|mask| - 1];
    }
  }

  /** The pause filter of `load_timeseries` and `get_simple_ts_from_pickle_file`: cut the stream
      and the mask to the shorter length, then keep the samples the mask does not flag. */
  function RemovePauses<T>(ts: seq<T>, pause: seq<bool>): (r: seq<T>)
    ensures var m := Min(|ts|, |pause|); var kept := Unmasked(pause[..m]);
      && |r| == |kept| == multiset(pause[..m])[false]
      && forall k :: 0 <= k < |r| ==> kept[k] < m && r[k] == ts[kept[k]]
  {
    var m := Min(|ts|, |pause|);
    UnmaskedCount(pause[..m]);
    CompressSelects(ts[..m], pause[..m]);
    Compress(ts[..m], pause[..m])
  }

  /** The row-wise pause filter of `get_shift_data_for_measurement` and
      `get_dynamic_beacon_data_for_measurement`: two arrays sharing a time axis are cut to the
      length of the mask or of the first array, and filtered with the same mask. numpy refuses
      a mask longer than the second array. */
  function RemovePausesFromRows<R>(a: seq<R>, b: seq<R>, pause: seq<bool>): (r: Result<(seq<R>, seq<R>)>)
    ensures var m := Min(|pause|, |a|); var kept := Unmasked(pause[..m]);
      && (r.Err? <==> |b| < m)
      && (r.Err? ==> r.error == MaskLengthMismatch)
      && (r.Ok? ==>
          && |r.value.0| == |r.value.1| == |kept| == multiset(pause[..m])[false]
          && forall k :: 0 <= k < |kept| ==> kept[k] < m && r.value.0[k] == a[kept[k]] && r.value.1[k] == b[kept[k]])
  {
    var m := Min(|pause|, |a|);
    if |b| < m then Err(MaskLengthMismatch)
    else
      assert b[..m][..Min(m, |pause|)] == b[..m];
      Ok((RemovePauses(a, pause), RemovePauses(b[..m], pause)))
  }

  /** Filtering with a mask that flags nothing changes nothing. */
  lemma {:induction false} CompressUnflagged<T>(xs: seq<T>, mask: seq<bool>)
    requires |xs| == |mask|
    requires forall i :: 0 <= i < |mask| ==> !mask[i]
    ensures Compress(xs, mask) == xs
    decreases |xs|
  {
    if |xs| > 0 {
      var n := |xs| - 1;
      CompressUnflagged(xs[..n], mask[..n]);
      assert xs == xs[..n] + [xs[n]];
    }
  }

  /** Pause removal with a mask that flags nothing only truncates. */
  lemma RemovePausesUnflagged<T>(ts: seq<T>, pause: seq<bool>)
    requires forall i :: 0 <= i < |pause| ==> !pause[i]
    ensures RemovePauses(ts, pause) == ts[..Min(|ts|, |pause|)]
  {
    var m := Min(|ts|, |pause|);
    CompressUnflagged(ts[..m], pause[..m]);
  }

  /** A mask filtered by itself flags nothing. */
  lemma SelfFilteredUnflagged(pause: seq<bool>)
    ensures forall i :: 0 <= i < |RemovePauses(pause, pause)| ==> !RemovePauses(pause, pause)[i]
  {
    assert pause[..Min(|pause|, |pause|)] == pause;
  }

  /** A prefix of a mask holds no more `false` entries than the whole mask. */
  lemma PrefixCount(pause: seq<bool>, m: nat)
    requires m <= |pause|
    ensures multiset(pause[..m])[false] <= multiset(pause)[false]
  {
    assert pause == pause[..m] + pause[m..];
    assert multiset(pause) == multiset(pause[..m]) + multiset(pause[m..]);
  }

  /** Pause removal is idempotent once the mask is filtered consistently: removing the pauses
      again, with the mask filtered by itself (which flags nothing), leaves the result as it is. */
  lemma RemovePausesIdempotent<T>(ts: seq<T>, pause: seq<bool>)
    ensures RemovePauses(RemovePauses(ts, pause), RemovePauses(pause, pause)) == RemovePauses(ts, pause)
  {
    var once := RemovePauses(ts, pause);
    var clean := RemovePauses(pause, pause);
    PrefixCount(pause, Min(|ts|, |pause|));
    assert pause[..Min(|pause|, |pause|)] == pause;
    assert |once| <= |clean|;
    SelfFilteredUnflagged(pause);
    RemovePausesUnflagged(once, clean);
    assert once[..Min(|once|, |clean|)] == once;
  }

  /** Re-applying the raw mask to an already filtered stream is not idempotent:
      with mask [T, F, F] the stream [1, 2, 3] becomes [2, 3] and then [3]. */
  lemma RawMaskNotIdempotent()
    ensures RemovePauses([1, 2, 3], [true, false, false]) == [2, 3]
    ensures RemovePauses(RemovePauses([1, 2, 3], [true, false, false]), [true, false, false]) == [3]
  {
    assert [1, 2, 3][..3] == [1, 2, 3];
    assert [true, false, false][..3] == [true, false, false];
    assert [true, false, false][..2] == [true, false];
    assert [2, 3][..2] == [2, 3];
  }

  /** A pause in the middle of a stream: mask F F T T F on 10 10 20 20 30 leaves 10 10 30. */
  lemma RemovePausesExample()
    ensures RemovePauses([10, 10, 20, 20, 30], [false, false, true, true, false]) == [10, 10, 30]
  {
    var ts := [10, 10, 20, 20, 30];
    var p := [false, false, true, true, false];
    assert ts[..5] == ts && p[..5] == p;
    ExampleCompress(ts, p);
  }

  /** Boolean indexing of the samples of `RemovePausesExample`. */
  lemma ExampleCompress(xs: seq<int>, mask: seq<bool>)
    requires xs == [10, 10, 20, 20, 30] && mask == [false, false, true, true, false]
    ensures Compress(xs, mask) == [10, 10, 30]
  {
    assert xs[..0] == [] && mask[..0] == [];
    assert Compress(xs[..1], mask[..1]) == [10] by {
      assert xs[..1][..0] == xs[..0] && mask[..1][..0] == mask[..0];
    }
    assert Compress(xs[..2], mask[..2]) == [10, 10] by {
      assert xs[..2][..1] == xs[..1] && mask[..2][..1] == mask[..1];
    }
    assert Compress(xs[..3], mask[..3]) == [10, 10] by {
      assert xs[..3][..2] == xs[..2] && mask[..3][..2] == mask[..2];
    }
    assert Compress(xs[..4], mask[..4]) == [10, 10] by {
      assert xs[..4][..3] == xs[..3] && mask[..4][..3] == mask[..3];
    }
    assert xs[..4] == xs[..|xs| - 1] && mask[..4] == mask[..|mask| - 1];
  }


  /** The pause filter of `get_fork_height_data_for_measurement` as written: the arrays are cut
      to the common length but the mask is not, so numpy's boolean indexing refuses every mask
      longer than the arrays. */
  function RemovePausesUncutMask<R>(a: seq<R>, pause: seq<bool>): (r: Result<seq<R>>)
    ensures r.Err? <==> |pause| > |a|
    ensures r.Err? ==> r.error == MaskLengthMismatch
    ensures r.Ok? ==> r.value == RemovePauses(a, pause)
  {
    var m := Min(|pause|, |a|);
    if |pause| != m then Err(MaskLengthMismatch)
    else
      assert pause[..m] == pause;
      Ok(Compress(a[..m], pause))
  }

  /** A pause mask one tick longer than the fork-height arrays: the filter as written fails,
      while the filter the other loaders apply keeps both rows. */
  lemma UncutMaskRejectsLongerMask()
    ensures RemovePausesUncutMask([7, 8], [false, false, false]).Err?
    ensures RemovePauses([7, 8], [false, false, false]) == [7, 8]
  {
    var kept := Unmasked([false, false, false][..2]);
    assert [false, false, false][..2] == [false, false];
    assert 0 in kept && 1 in kept;
  }
}
