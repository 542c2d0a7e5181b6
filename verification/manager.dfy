/**
 * `BasePanoramaManager`: a batch of panoramas. It fetches the metadata list
 * of an area (from a cache file when there is one), picks which entries to
 * keep, builds one panorama per entry and collects the greenery of every
 * panorama together with its position.
 */
module Manager {
  import opened Python
  import opened OrderedDict
  import opened Records
  import opened Services
  import opened Cubic

  /**
   * What `np.random.choice(n, k, replace=False)` promises: `k` distinct
   * indices into a list of length `n`.
   */
  predicate IsSample(ids: seq<nat>, n: nat, k: nat)
  {
    && |ids| == k
    && (forall i :: 0 <= i < |ids| ==> ids[i] < n)
    && (forall i, j :: 0 <= i < j < |ids| ==> ids[i] != ids[j])
  }

  /**
   * `load_ids`: every index in order (`np.arange(n)`) when no sample size is
   * given, otherwise what the seeded generator `choose` draws.
   */
  function LoadIds(n: nat, nSample: Option<int>, choose: (nat, nat) -> seq<nat>): seq<nat>
    requires nSample.Some? ==> 0 <= nSample.value <= n
  {
    if nSample.None? then seq(n, i requires 0 <= i < n => i)
    else choose(n, nSample.value as nat)
  }

  /** `[meta_data[i] for i in ids]` */
  function Reindex(metaData: seq<Meta>, ids: seq<nat>): (r: seq<Meta>)
    requires forall i :: 0 <= i < |ids| ==> ids[i] < |metaData|
    ensures |r| == |ids|
  {
    seq(|ids|, k requires 0 <= k < |ids| => metaData[ids[k]])
  }

  /** Without a sample size every entry is kept, in its place. */
  lemma LoadAllKeepsOrder(metaData: seq<Meta>, choose: (nat, nat) -> seq<nat>)
    ensures var ids := LoadIds(|metaData|, None, choose);
      (forall i :: 0 <= i < |ids| ==> ids[i] < |metaData|) && Reindex(metaData, ids) == metaData
  {
  }

  /**
   * A sample keeps `k` entries, each taken from a different position, so a
   * list without repeated entries stays without repeats.
   */
  lemma SampleKeepsDistinct(metaData: seq<Meta>, ids: seq<nat>, k: nat)
    requires IsSample(ids, |metaData|, k)
    requires forall i, j :: 0 <= i < j < |metaData| ==> metaData[i] != metaData[j]
    ensures |Reindex(metaData, ids)| == k
    ensures forall a, b :: 0 <= a < b < k ==> Reindex(metaData, ids)[a] != Reindex(metaData, ids)[b]
    ensures forall a :: 0 <= a < k ==> Reindex(metaData, ids)[a] in metaData
  {
    forall a, b | 0 <= a < b < k
      ensures Reindex(metaData, ids)[a] != Reindex(metaData, ids)[b]
    {
      if ids[a] < ids[b] {
        assert metaData[ids[a]] != metaData[ids[b]];
      } else {
        assert metaData[ids[b]] != metaData[ids[a]];
      }
    }
  }

  /** The three parallel lists `green_analysis` returns. */
  datatype GreenDict = GreenDict(green: seq<real>, lat: seq<real>, long: seq<real>)

  class BasePanoramaManager {
    var metaData: seq<Meta>
    var panoramas: seq<AdamPanoramaCubic>
    var dataDir: string
    const segModel: SegModel
    const greenModel: GreenModel

    /** Every panorama is its own object: `load` only ever appends new ones. */
    predicate Valid()
      reads this
    {
      forall i, j :: 0 <= i < j < |panoramas| ==> panoramas[i] != panoramas[j]
    }

    /** A manager starts with no metadata, no panoramas and the default data directory. */
    constructor (segModel: SegModel, greenModel: GreenModel)
      ensures Valid()
      ensures metaData == [] && panoramas == [] && dataDir == "data.default"
      ensures this.segModel == segModel && this.greenModel == greenModel
    {
      metaData := [];
      panoramas := [];
      dataDir := "data.default";
      this.segModel := segModel;
      this.greenModel := greenModel;
    }

    /**
     * `get(**request_kwargs)`: reads the metadata list from
     * `data_dir/meta_file` when that file exists, without asking the API;
     * otherwise asks the API and writes the answer to that file.
     */
    method Get(params: seq<(string, string)>, metaFile: string, store: FileStore, service: MetaService)
      modifies this`metaData, store`metaFiles, service
      ensures var metaFp := PathJoin(dataDir, metaFile);
        && (metaFp in old(store.metaFiles) ==>
              metaData == old(store.metaFiles)[metaFp] && service.requests == old(service.requests)
              && store.metaFiles == old(store.metaFiles))
        && (metaFp !in old(store.metaFiles) ==>
              metaData == service.answer(params) && service.requests == old(service.requests) + 1
              && store.metaFiles == old(store.metaFiles)[metaFp := metaData])
    {
      var metaFp := PathJoin(dataDir, metaFile);
      if metaFp in store.metaFiles {
        metaData := store.metaFiles[metaFp];
      } else {
        metaData := service.RequestMeta(params);
        store.metaFiles := store.metaFiles[metaFp := metaData];
      }
    }

    /**
     * `load(n_sample)`: keeps the entries at `load_ids`, in that order, and
     * appends one new panorama per kept entry. Asking for a negative number
     * of entries, or for more entries than there are, raises ValueError
     * before anything changes.
     */
    method Load(nSample: Option<int>, choose: (nat, nat) -> seq<nat>) returns (err: Option<Error>)
      requires Valid()
      requires forall n: nat, k: nat :: k <= n ==> IsSample(choose(n, k), n, k)
      modifies this`metaData, this`panoramas
      ensures Valid()
      ensures nSample.Some? && (nSample.value < 0 || nSample.value > |old(metaData)|) ==>
        err == Some(ValueError) && metaData == old(metaData) && panoramas == old(panoramas)
      ensures nSample.None? || 0 <= nSample.value <= |old(metaData)| ==>
        var ids := LoadIds(|old(metaData)|, nSample, choose);
        && err == None
        && (forall i :: 0 <= i < |ids| ==> ids[i] < |old(metaData)|)
        && metaData == Reindex(old(metaData), ids)
        && |panoramas| == |old(panoramas)| + |metaData|
        && panoramas[..|old(panoramas)|] == old(panoramas)
        && (forall i :: |old(panoramas)| <= i < |panoramas| ==>
              fresh(panoramas[i]) && panoramas[i].metaData == metaData[i - |old(panoramas)|])
    {
      var nPanorama := |metaData|;
      var loadIds: seq<nat>;
      if nSample.None? {
        loadIds := seq(nPanorama, i requires 0 <= i < nPanorama => i);
      } else if nSample.value < 0 || nSample.value > nPanorama {
        return Some(ValueError);
      } else {
        loadIds := choose(nPanorama, nSample.value as nat);
      }
      var available := metaData;
      metaData := seq(|loadIds|, k requires 0 <= k < |loadIds| => available[loadIds[k]]);
      NewPanoramas(metaData);
      err := None;
    }

    /** The loop of `load`: one new panorama per entry, appended in order. */
    method NewPanoramas(kept: seq<Meta>)
      requires Valid()
      modifies this`panoramas
      ensures Valid()
      ensures |panoramas| == |old(panoramas)| + |kept| && panoramas[..|old(panoramas)|] == old(panoramas)
      ensures forall i :: |old(panoramas)| <= i < |panoramas| ==>
        fresh(panoramas[i]) && panoramas[i].metaData == kept[i - |old(panoramas)|]
    {
      var start := |panoramas|;
      for k := 0 to |kept|
        invariant |panoramas| == start + k
        invariant panoramas[..start] == old(panoramas)
        invariant forall i :: start <= i < |panoramas| ==> fresh(panoramas[i])
        invariant forall i :: start <= i < |panoramas| ==> panoramas[i].metaData == kept[i - start]
        invariant Valid()
      {
        var panorama := new AdamPanoramaCubic(kept[k], dataDir, None);
        panoramas := panoramas + [panorama];
      }
    }

    /**
     * `green_analysis()`: the greenery of every panorama, in order, next to
     * its latitude and longitude.
     */
    method GreenAnalysis(store: FileStore) returns (greenDict: GreenDict)
      requires Valid()
      modifies panoramas`greenFp, panoramas`allGreenRes, panoramas`segmentFp, panoramas`allSegRes
      modifies segModel, store`segFiles, store`greenFiles
      ensures var key := GreenKey(ClassName, segModel.modelId, greenModel.greenId);
        && |greenDict.green| == |panoramas| && |greenDict.lat| == |panoramas| && |greenDict.long| == |panoramas|
        && (forall k :: 0 <= k < |panoramas| ==>
              && panoramas[k].latitude == old(panoramas[k].latitude)
              && panoramas[k].longitude == old(panoramas[k].longitude)
              && greenDict.lat[k] == panoramas[k].latitude
              && greenDict.long[k] == panoramas[k].longitude
              && key in panoramas[k].allGreenRes
              && greenDict.green[k] == greenModel.test(panoramas[k].allGreenRes[key]))
    {
      var key := GreenKey(ClassName, segModel.modelId, greenModel.greenId);
      greenDict := GreenDict([], [], []);
      for k := 0 to |panoramas|
        invariant |greenDict.green| == k && |greenDict.lat| == k && |greenDict.long| == k
        invariant forall j :: 0 <= j < |panoramas| ==>
          panoramas[j].latitude == old(panoramas[j].latitude) && panoramas[j].longitude == old(panoramas[j].longitude)
        invariant forall j :: 0 <= j < k ==>
          && greenDict.lat[j] == panoramas[j].latitude
          && greenDict.long[j] == panoramas[j].longitude
          && key in panoramas[j].allGreenRes
          && greenDict.green[j] == greenModel.test(panoramas[j].allGreenRes[key])
      {
        var panorama := panoramas[k];
        var greenFrac := panorama.GreenAnalysis(segModel, greenModel, store);
        greenDict := GreenDict(greenDict.green + [greenFrac], greenDict.lat + [panorama.latitude], greenDict.long + [panorama.longitude]);
      }
    }
  }
}
