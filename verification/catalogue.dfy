/** What a measurement advertises: the names of its streams, and for the categorical streams
    (base activities, handling heights) the table turning ids into display names and colours. */
module Catalogue {
  import opened Results

  /** The legacy file ending carried by advertised stream names. */
  const PickleSuffix: string := ".pickle"

  predicate EndsWithPickle(name: string) {
    |name| >= |PickleSuffix| && name[|name| - |PickleSuffix|..] == PickleSuffix
  }

  /** Drop a trailing `.pickle` (exactly seven characters); any other name is kept as it is. */
  function StripPickle(name: string): (r: string)
    ensures EndsWithPickle(name) ==> r + PickleSuffix == name
    ensures !EndsWithPickle(name) ==> r == name
  {
    if EndsWithPickle(name) then name[..|name| - 7] else name
  }

  /** `get_available_ts_for_measurement`: the advertised names with the suffix stripped, in order. */
  function AvailableStreams(advertised: seq<string>): (r: seq<string>)
    ensures |r| == |advertised|
    ensures forall i :: 0 <= i < |r| ==> r[i] == StripPickle(advertised[i])
  {
    seq(|advertised|, i requires 0 <= i < |advertised| => StripPickle(advertised[i]))
  }

  /** The availability check of `load_timeseries`: the stream is refused unless its name is
      among the stripped advertised names. */
  function CheckAvailable(advertised: seq<string>, target: string): (r: Result<string>)
    ensures r.Ok? <==> target in AvailableStreams(advertised)
    ensures r.Ok? ==> r.value == target
    ensures r.Err? ==> r.error == StreamNotFound(target)
  {
    if target in AvailableStreams(advertised) then Ok(target) else Err(StreamNotFound(target))
  }

  /** A stream is available exactly when it is advertised with the suffix, or advertised as it
      is and does not itself end in the suffix (such a name would have been stripped). */
  lemma CheckAvailableIff(advertised: seq<string>, target: string)
    ensures CheckAvailable(advertised, target).Ok? <==>
      (target + PickleSuffix in advertised || (target in advertised && !EndsWithPickle(target)))
  {
    var avail := AvailableStreams(advertised);
    var suffixed := target + PickleSuffix;
    assert EndsWithPickle(suffixed) by {
      assert suffixed[|suffixed| - |PickleSuffix|..] == PickleSuffix;
    }
    assert suffixed[..|suffixed| - 7] == target;
    if target in avail {
      var i :| 0 <= i < |avail| && avail[i] == target;
      if EndsWithPickle(advertised[i]) {
        assert advertised[i] == suffixed;
      }
    }
    if suffixed in advertised {
      var i :| 0 <= i < |advertised| && advertised[i] == suffixed;
      assert avail[i] == target;
    }
    if target in advertised && !EndsWithPickle(target) {
      var i :| 0 <= i < |advertised| && advertised[i] == target;
      assert avail[i] == target;
    }
  }

  /** One entry of `available_acts` in a categorical stream's container section. */
  datatype ActInfo<K> = ActInfo(id: K, translationKey: string, chartColor: string)

  /** The activity translation table: translation keys of the vendor API to display names. */
  const ActivityTranslations: map<string, string> := map[
    "HUMAN_ACT.WALK" := "Walk",
    "HUMAN_ACT.OTHER" := "Unknown",
    "HUMAN_ACT.STAND" := "Stand",
    "HUMAN_ACT.HANDLE" := "Handling",
    "HUMAN_ACT.DRIVE" := "Drive",
    "HUMAN_ACT.NO_HANDLE" := "No Handling",
    "HUMAN_ACT.HANDLE_UP" := "Handle up",
    "HUMAN_ACT.HANDLE_CENTER" := "Handle center",
    "HUMAN_ACT.HANDLE_DOWN" := "Handle down"
  ]

  /** The ids of a list of entries. */
  ghost function Ids<K>(acts: seq<ActInfo<K>>): set<K> {
    set a | a in acts :: a.id
  }

  /** Entry `k` is the last one with its id, so it is the one a dict comprehension keeps. */
  ghost predicate LastWithId<K>(acts: seq<ActInfo<K>>, k: int)
    requires 0 <= k < |acts|
  {
    forall k' :: k < k' < |acts| ==> acts[k'].id != acts[k].id
  }

  /** The id-to-name dict comprehension: later entries overwrite earlier ones with the same id,
      and the first translation key missing from the table raises. */
  function NameMap<K(==)>(acts: seq<ActInfo<K>>, translations: map<string, string>): (r: Result<map<K, string>>)
    ensures r.Ok? <==> forall k :: 0 <= k < |acts| ==> acts[k].translationKey in translations
    ensures r.Err? ==> r.error.UnknownTranslationKey? && r.error.key !in translations
    ensures r.Ok? ==> r.value.Keys == Ids(acts)
    ensures r.Ok? ==> forall k :: 0 <= k < |acts| && LastWithId(acts, k) ==>
      r.value[acts[k].id] == translations[acts[k].translationKey]
  {
    if |acts| == 0 then Ok(map[])
    else
      var n := |acts| - 1;
      var front :- NameMap(acts[..n], translations);
      assert acts == acts[..n] + [acts[n]];
      if acts[n].translationKey in translations then
        Ok(front[acts[n].id := translations[acts[n].translationKey]])
      else
        Err(UnknownTranslationKey(acts[n].translationKey))
  }

  /** The key a failing name map reports is that of the first entry whose key is missing. */
  lemma {:induction false} NameMapFirstMissing<K>(acts: seq<ActInfo<K>>, translations: map<string, string>)
    ensures var r := NameMap(acts, translations);
      r.Err? ==>
        exists k :: && 0 <= k < |acts|
                    && r.error == UnknownTranslationKey(acts[k].translationKey)
                    && forall k' :: 0 <= k' < k ==> acts[k'].translationKey in translations
    decreases |acts|
  {
    if |acts| > 0 {
      var n := |acts| - 1;
      NameMapFirstMissing(acts[..n], translations);
      var front := NameMap(acts[..n], translations);
      if front.Err? {
        var k :| && 0 <= k < n
                 && front.error == UnknownTranslationKey(acts[..n][k].translationKey)
                 && forall k' :: 0 <= k' < k ==> acts[..n][k'].translationKey in translations;
        assert forall k' :: 0 <= k' < k ==> acts[..n][k'] == acts[k'];
        assert acts[..n][k] == acts[k];
      } else {
        assert forall k' :: 0 <= k' < n ==> acts[..n][k'] == acts[k'];
        assert NameMap(acts, translations).Err? ==> NameMap(acts, translations).error == UnknownTranslationKey(acts[n].translationKey);
      }
    }
  }

  /** The id-to-colour dict comprehension. */
  function ColorMap<K(==)>(acts: seq<ActInfo<K>>): (r: map<K, string>)
    ensures r.Keys == Ids(acts)
    ensures forall k :: 0 <= k < |acts| && LastWithId(acts, k) ==> r[acts[k].id] == acts[k].chartColor
  {
    if |acts| == 0 then map[]
    else
      var n := |acts| - 1;
      assert acts == acts[..n] + [acts[n]];
      ColorMap(acts[..n])[acts[n].id := acts[n].chartColor]
  }

  /** `get_base_activity_plot_info` / `get_handling_heights_plot_info`: the name map and the
      colour map of one section, over the same ids. */
  function PlotInfo<K(==)>(acts: seq<ActInfo<K>>, translations: map<string, string>): (r: Result<(map<K, string>, map<K, string>)>)
    ensures r.Ok? <==> forall k :: 0 <= k < |acts| ==> acts[k].translationKey in translations
    ensures r.Ok? ==> r.value.0.Keys == r.value.1.Keys == Ids(acts)
    ensures r.Ok? ==> forall k :: 0 <= k < |acts| && LastWithId(acts, k) ==>
      && r.value.0[acts[k].id] == translations[acts[k].translationKey]
      && r.value.1[acts[k].id] == acts[k].chartColor
  {
    var names :- NameMap(acts, translations);
    Ok((names, ColorMap(acts)))
  }

  /** With the activity table, walking and standing entries are named "Walk" and "Stand". */
  lemma PlotInfoExample()
    ensures PlotInfo([ActInfo(1, "HUMAN_ACT.WALK", "#00ff00"), ActInfo(2, "HUMAN_ACT.STAND", "#0000ff")], ActivityTranslations)
         == Ok((map[1 := "Walk", 2 := "Stand"], map[1 := "#00ff00", 2 := "#0000ff"]))
  {
    var acts := [ActInfo(1, "HUMAN_ACT.WALK", "#00ff00"), ActInfo(2, "HUMAN_ACT.STAND", "#0000ff")];
    assert acts[..1] == [ActInfo(1, "HUMAN_ACT.WALK", "#00ff00")];
    assert acts[..1][..0] == [];
    assert NameMap(acts[..1], ActivityTranslations) == Ok(map[1 := "Walk"]);
  }

  /** A translation key missing from the activity table is refused. */
  lemma PlotInfoUnknownKeyExample()
    ensures PlotInfo([ActInfo(1, "HUMAN_ACT.SIT", "#ff0000")], ActivityTranslations)
         == Err(UnknownTranslationKey("HUMAN_ACT.SIT"))
  {
    assert [ActInfo(1, "HUMAN_ACT.SIT", "#ff0000")][..0] == [];
  }
}
