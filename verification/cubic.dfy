/**
 * `AdamPanoramaCubic`: one panorama of the Amsterdam panorama API, fetched as
 * the four horizontal faces of a cube map. The object names its files after
 * the panorama's data directory, downloads each face once, segments the faces
 * once per segmentation model and scores their greenery once per pair of
 * models, keeping every result in a JSON cache next to the images.
 */
module Cubic {
  import opened Python
  import opened OrderedDict
  import opened Records
  import opened Services
  import opened Greenery

  /** `self.sides`: each face and the letter that names it in the image URL, in dict order. */
  const Sides: seq<(string, string)> := [("front", "f"), ("back", "b"), ("left", "l"), ("right", "r")]

  /** The class handed to `get_green_key`. */
  const ClassName: string := "AdamPanoramaCubic"

  /** The URL of one face: `cubic_img_baseurl + f"1/{abrev}/0/0.jpg"`. */
  function SideUrl(base: string, abbrev: string): string
  {
    base + "1/" + abbrev + "/0/0.jpg"
  }

  /** The local file of one face: `os.path.join(panorama_dir, side + ".jpg")`. */
  function SidePath(dir: string, side: string): string
  {
    PathJoin(dir, side + ".jpg")
  }

  /** The default image directory: `os.path.join(data_src, "pics")`. */
  function PicsDir(dataSrc: string): string
  {
    PathJoin(dataSrc, "pics")
  }

  /** The metadata file: `os.path.join(data_dir, "meta_data.json")`. */
  function MetaPath(dir: string): string
  {
    PathJoin(dir, "meta_data.json")
  }

  /** The segmentation cache of one model: `os.path.join(data_dir, f"segments_cubic_{model_id}.json")`. */
  function SegmentPath(dir: string, modelId: string): string
  {
    PathJoin(dir, "segments_cubic_" + modelId + ".json")
  }

  /** The greenery cache: `os.path.join(data_dir, "greenery.json")`. */
  function GreenPath(dir: string): string
  {
    PathJoin(dir, "greenery.json")
  }

  /** `pano_url` once every face has been named. */
  function SideUrls(base: string): seq<string>
  {
    seq(|Sides|, k requires 0 <= k < |Sides| => SideUrl(base, Sides[k].1))
  }

  /** `panorama_fp` once every face has been named. */
  function SidePaths(dir: string): Dict<string>
  {
    seq(|Sides|, k requires 0 <= k < |Sides| => (Sides[k].0, SidePath(dir, Sides[k].0)))
  }

  /** The faces have distinct names, none of which starts with a slash. */
  lemma SidesDistinct()
    ensures forall i, j :: 0 <= i < j < |Sides| ==> Sides[i].0 != Sides[j].0
    ensures forall i :: 0 <= i < |Sides| ==> !IsAbsolute(Sides[i].0 + ".jpg")
  {
    assert Sides[0].0[0] == 'f' && Sides[1].0[0] == 'b' && Sides[2].0[0] == 'l' && Sides[3].0[0] == 'r';
  }

  /**
   * Every face gets its own file inside the data directory, named after the
   * face, and `panorama_fp` is a proper dict keyed by the faces in order.
   */
  lemma SidePathsFacts(dir: string)
    ensures Keys(SidePaths(dir)) == ["front", "back", "left", "right"]
    ensures Distinct(SidePaths(dir))
    ensures forall i :: 0 <= i < |Sides| ==>
      var p := SidePaths(dir)[i].1;
      |dir| <= |p| && p[..|dir|] == dir && p[|p| - |Sides[i].0 + ".jpg"|..] == Sides[i].0 + ".jpg"
    ensures forall i, j :: 0 <= i < j < |Sides| ==> SidePaths(dir)[i].1 != SidePaths(dir)[j].1
  {
    SidesDistinct();
    forall i, j | 0 <= i < j < |Sides|
      ensures SidePaths(dir)[i].1 != SidePaths(dir)[j].1
    {
      if SidePaths(dir)[i].1 == SidePaths(dir)[j].1 {
        PathJoinInjective(dir, Sides[i].0 + ".jpg", Sides[j].0 + ".jpg");
      }
    }
  }

  /**
   * Everything in a face URL after the base splits at `/` into the
   * resolution level, the face letter and the tile row and column, so the
   * face can be read back from its URL.
   */
  lemma SideUrlFields(base: string, abbrev: string)
    requires '/' !in abbrev
    ensures var url := SideUrl(base, abbrev);
      |base| <= |url| && url[..|base|] == base && Split(url[|base|..], '/') == ["1", abbrev, "0", "0.jpg"]
  {
    var url := SideUrl(base, abbrev);
    var parts := ["1", abbrev, "0", "0.jpg"];
    assert JoinWith(parts[3..], '/') == "0.jpg";
    assert JoinWith(parts[2..], '/') == "0" + "/" + "0.jpg";
    assert JoinWith(parts[1..], '/') == abbrev + "/" + "0/0.jpg";
    assert JoinWith(parts, '/') == "1" + "/" + abbrev + "/0/0.jpg";
    assert url[|base|..] == JoinWith(parts, '/');
    SplitJoinWith(["1", abbrev, "0", "0.jpg"], '/');
  }

  /** The file and URL of every face, in face order. */
  function Targets(dir: string, base: string): seq<(string, string)>
  {
    seq(|Sides|, k requires 0 <= k < |Sides| => (SidePath(dir, Sides[k].0), SideUrl(base, Sides[k].1)))
  }

  /**
   * The images on disk after going through `targets`, pairs of a local file
   * and a URL: a file that is missing is fetched from its URL with
   * `urlretrieve`, one already present is left alone.
   */
  function Fetch(images: map<string, Bytes>, targets: seq<(string, string)>, remote: string -> Bytes): map<string, Bytes>
  {
    if targets == [] then images
    else
      var prev := Fetch(images, targets[..|targets| - 1], remote);
      var (path, url) := targets[|targets| - 1];
      if path in prev then prev else prev[path := remote(url)]
  }

  /** The files named by `targets`. */
  function TargetFiles(targets: seq<(string, string)>): set<string>
  {
    set i | 0 <= i < |targets| :: targets[i].0
  }

  /** Fetching never touches a file that already exists. */
  lemma {:induction false} FetchKeeps(images: map<string, Bytes>, targets: seq<(string, string)>, remote: string -> Bytes)
    ensures forall p :: p in images ==> p in Fetch(images, targets, remote) && Fetch(images, targets, remote)[p] == images[p]
  {
    if targets != [] {
      FetchKeeps(images, targets[..|targets| - 1], remote);
    }
  }

  /** Fetching adds exactly the target files. */
  lemma {:induction false} FetchKeys(images: map<string, Bytes>, targets: seq<(string, string)>, remote: string -> Bytes)
    ensures Fetch(images, targets, remote).Keys == images.Keys + TargetFiles(targets)
  {
    if targets != [] {
      var m := |targets| - 1;
      var prefix := targets[..m];
      FetchKeys(images, prefix, remote);
      assert TargetFiles(targets) == TargetFiles(prefix) + {targets[m].0} by {
        forall i | 0 <= i < m ensures prefix[i].0 == targets[i].0 { }
      }
    }
  }

  /** When the target files are distinct, each missing one holds the download from its URL. */
  lemma {:induction false} FetchFills(images: map<string, Bytes>, targets: seq<(string, string)>, remote: string -> Bytes)
    requires forall i, j :: 0 <= i < j < |targets| ==> targets[i].0 != targets[j].0
    ensures forall i :: 0 <= i < |targets| && targets[i].0 !in images ==>
      targets[i].0 in Fetch(images, targets, remote) && Fetch(images, targets, remote)[targets[i].0] == remote(targets[i].1)
  {
    if targets != [] {
      var m := |targets| - 1;
      var prefix := targets[..m];
      FetchFills(images, prefix, remote);
      FetchKeys(images, prefix, remote);
      var prev := Fetch(images, prefix, remote);
      forall i | 0 <= i < |targets| && targets[i].0 !in images
        ensures targets[i].0 in Fetch(images, targets, remote) && Fetch(images, targets, remote)[targets[i].0] == remote(targets[i].1)
      {
        if i < m {
          assert prefix[i] == targets[i];
          assert targets[i].0 != targets[m].0;
        } else {
          assert targets[m].0 !in TargetFiles(prefix) by {
            forall j | 0 <= j < m ensures prefix[j].0 != targets[m].0 {
              assert prefix[j] == targets[j];
            }
          }
        }
      }
    }
  }

  /** Going through one more target. */
  lemma FetchStep(images: map<string, Bytes>, targets: seq<(string, string)>, remote: string -> Bytes, k: nat)
    requires k < |targets|
    ensures var prev := Fetch(images, targets[..k], remote);
      Fetch(images, targets[..k + 1], remote)
        == if targets[k].0 in prev then prev else prev[targets[k].0 := remote(targets[k].1)]
  {
    assert targets[..k + 1][..k] == targets[..k];
  }

  /** Naming face `k` extends the URLs, the file names and the targets by that face. */
  lemma NameStep(dir: string, base: string, k: nat)
    requires k < |Sides|
    ensures SideUrls(base)[..k + 1] == SideUrls(base)[..k] + [SideUrl(base, Sides[k].1)]
    ensures SidePaths(dir)[..k + 1] == SidePaths(dir)[..k] + [(Sides[k].0, SidePath(dir, Sides[k].0))]
    ensures !Has(SidePaths(dir)[..k], Sides[k].0)
    ensures Targets(dir, base)[k] == (SidePath(dir, Sides[k].0), SideUrl(base, Sides[k].1))
  {
    SidesDistinct();
  }

  /** The four face files are distinct, so fetching them downloads every missing face. */
  lemma TargetsDistinct(dir: string, base: string)
    ensures forall i, j :: 0 <= i < j < |Targets(dir, base)| ==> Targets(dir, base)[i].0 != Targets(dir, base)[j].0
  {
    SidePathsFacts(dir);
  }

  /** `load_segmentation(fp)`: the cached segmentation results, or none. */
  function LoadSegmentation(segFiles: map<string, Dict<SegRes>>, fp: string): Dict<SegRes>
  {
    if fp in segFiles then segFiles[fp] else []
  }

  /** `load_greenery(fp)`: the cached greenery results, or none. */
  function LoadGreenery(greenFiles: map<string, map<GreenKey, Dict<real>>>, fp: string): map<GreenKey, Dict<real>>
  {
    if fp in greenFiles then greenFiles[fp] else map[]
  }

  /** `seg_run`: `seg_res[side] = model.run(panorama_fp[side])` for each face in order. */
  function RunAll(panoramaFp: Dict<string>, analyse: string -> SegRes): Dict<SegRes>
  {
    if panoramaFp == [] then []
    else
      var last := panoramaFp[|panoramaFp| - 1];
      Set(RunAll(panoramaFp[..|panoramaFp| - 1], analyse), last.0, analyse(last.1))
  }

  /** One segmentation result per face, under the face's own name, in the same order. */
  lemma {:induction false} RunAllFacts(panoramaFp: Dict<string>, analyse: string -> SegRes)
    requires Distinct(panoramaFp)
    ensures RunAll(panoramaFp, analyse) == seq(|panoramaFp|, i requires 0 <= i < |panoramaFp| => (panoramaFp[i].0, analyse(panoramaFp[i].1)))
    ensures Keys(RunAll(panoramaFp, analyse)) == Keys(panoramaFp)
  {
    if panoramaFp != [] {
      var m := |panoramaFp| - 1;
      var prefix := panoramaFp[..m];
      RunAllFacts(prefix, analyse);
      LastIsFresh(panoramaFp);
      var prev := RunAll(prefix, analyse);
      assert !Has(prev, panoramaFp[m].0);
      SetAbsent(prev, panoramaFp[m].0, analyse(panoramaFp[m].1));
    }
  }

  /** `all_seg_res` after `seg_analysis`: the cached results, or a fresh run when there are none. */
  function SegOutcome(loaded: Dict<SegRes>, panoramaFp: Dict<string>, analyse: string -> SegRes): Dict<SegRes>
  {
    if |loaded| < 1 then RunAll(panoramaFp, analyse) else loaded
  }

  /**
   * The effect of `seg_analysis` on the segmentation cache and the model:
   * with no cached results at `fp` the model runs once per face and the
   * results are written to `fp`; otherwise the model does not run and
   * nothing is written.
   */
  predicate SegWrite(before: map<string, Dict<SegRes>>, fp: string, segRes: Dict<SegRes>,
                     after: map<string, Dict<SegRes>>, runs0: nat, runs: nat, faces: nat)
  {
    if |LoadSegmentation(before, fp)| < 1 then runs == runs0 + faces && after == before[fp := segRes]
    else runs == runs0 && after == before
  }

  /** The class fractions `test_seg_map2` reports for each segmented face, in order. */
  function Views(segRes: Dict<SegRes>, green: GreenModel): (views: seq<Dict<real>>)
    ensures |views| == |segRes|
  {
    seq(|segRes|, j requires 0 <= j < |segRes| => green.fractionsOf(segRes[j].1.segMap, segRes[j].1.names))
  }

  /**
   * What `green_analysis` stores for a pair of models: a dict whose keys are
   * the classes some face reports, each once, and whose entry for class `c`
   * is the sum over faces of that face's fraction for `c` over `n_pano`.
   */
  lemma AveragedFractions(segRes: Dict<SegRes>, green: GreenModel, c: string)
    requires DictResults(green)
    ensures Distinct(Average(Views(segRes, green), |segRes|))
    ensures Has(Average(Views(segRes, green), |segRes|), c) <==> Reported(Views(segRes, green), c)
    ensures GetOr(Average(Views(segRes, green), |segRes|), c) == ClassTotal(Views(segRes, green), c, |segRes|)
  {
    var views := Views(segRes, green);
    assert forall j :: 0 <= j < |views| ==> views[j] == green.fractionsOf(segRes[j].1.segMap, segRes[j].1.names);
    AverageKeys(views, |segRes|);
    AverageValue(views, |segRes|, c);
  }

  /** The inner loop of `green_analysis`: folds one face's fractions into `seg_frac`. */
  method FoldView(segFrac: Dict<real>, view: Dict<real>, n: nat) returns (acc: Dict<real>)
    requires 0 < n
    ensures acc == AddView(segFrac, view, n)
  {
    acc := segFrac;
    for i := 0 to |view|
      invariant acc == AddView(segFrac, view[..i], n)
    {
      var c, v := view[i].0, view[i].1;
      assert view[..i + 1][..i] == view[..i];
      if Has(acc, c) {
        acc := Set(acc, c, Get(acc, c) + v / n as real);
      } else {
        acc := Set(acc, c, v / n as real);
      }
    }
    assert view[..|view|] == view;
  }

  /** The outer loop of `green_analysis`: every face weighted by `1/n_pano`. */
  method AverageViews(segRes: Dict<SegRes>, green: GreenModel) returns (segFrac: Dict<real>)
    ensures segFrac == Average(Views(segRes, green), |segRes|)
  {
    segFrac := [];
    var nPano := |segRes|;
    ghost var views := Views(segRes, green);
    for j := 0 to |segRes|
      invariant segFrac == Average(views[..j], nPano)
    {
      var newFrac := green.fractionsOf(segRes[j].1.segMap, segRes[j].1.names);
      assert views[..j + 1][..j] == views[..j];
      segFrac := FoldView(segFrac, newFrac, nPano);
    }
    assert views[..|segRes|] == views;
  }

  class AdamPanoramaCubic {
    var metaData: Meta
    var latitude: real
    var longitude: real
    var id: string
    var dataDir: string
    var panoUrl: seq<string>
    var panoramaDir: string
    var panoramaFp: Dict<string>
    var metaFp: string
    var segmentFp: string
    var allSegRes: Dict<SegRes>
    var greenFp: string
    var allGreenRes: map<GreenKey, Dict<real>>

    /**
     * `AdamPanoramaCubic(meta_data, data_src, data_dir)`: the images live in
     * `data_src/pics` unless a directory is given. The object starts with no
     * faces named and no results.
     */
    constructor (metaData: Meta, dataSrc: string, dataDir: Option<string>)
      ensures this.metaData == metaData
      ensures this.dataDir == if dataDir.None? then PicsDir(dataSrc) else dataDir.value
      ensures panoUrl == [] && panoramaFp == [] && allSegRes == [] && allGreenRes == map[]
    {
      this.metaData := metaData;
      this.dataDir := if dataDir.None? then PicsDir(dataSrc) else dataDir.value;
      panoUrl := [];
      panoramaFp := [];
      allSegRes := [];
      allGreenRes := map[];
    }

    /**
     * `parse(meta_data)`: the position is the GeoJSON `[longitude, latitude]`
     * pair. With fewer than two coordinates the lookup raises IndexError after
     * the metadata itself has been stored.
     */
    method Parse(metaData: Meta) returns (err: Option<Error>)
      modifies this`metaData, this`latitude, this`longitude, this`id
      ensures this.metaData == metaData
      ensures HasPosition(metaData) ==>
        err == None && latitude == Latitude(metaData) && longitude == Longitude(metaData) && id == metaData.panoId
      ensures !HasPosition(metaData) ==>
        err == Some(IndexError) && latitude == old(latitude) && longitude == old(longitude) && id == old(id)
    {
      this.metaData := metaData;
      if |metaData.coordinates| < 2 {
        return Some(IndexError);
      }
      latitude := metaData.coordinates[1];
      longitude := metaData.coordinates[0];
      id := metaData.panoId;
      err := None;
    }

    /**
     * `fp_from_meta(meta_data)`: names one URL and one local file per face, in
     * face order, and downloads each face whose file does not exist yet.
     */
    method FpFromMeta(metaData: Meta, store: FileStore, remote: string -> Bytes)
      modifies this`panoUrl, this`panoramaDir, this`panoramaFp, this`metaFp, store`images
      ensures panoramaDir == dataDir
      ensures metaFp == MetaPath(dataDir)
      ensures panoUrl == SideUrls(metaData.cubicImgBaseurl)
      ensures panoramaFp == SidePaths(dataDir)
      ensures store.images == Fetch(old(store.images), Targets(dataDir, metaData.cubicImgBaseurl), remote)
    {
      panoUrl := [];
      panoramaDir := dataDir;
      panoramaFp := [];
      metaFp := MetaPath(dataDir);
      NameFaces(metaData.cubicImgBaseurl, store, remote);
    }

    /** The loop of `fp_from_meta`: every face in order, starting from no faces. */
    method NameFaces(base: string, store: FileStore, remote: string -> Bytes)
      requires panoUrl == [] && panoramaFp == []
      modifies this`panoUrl, this`panoramaFp, store`images
      ensures panoUrl == SideUrls(base)
      ensures panoramaFp == SidePaths(panoramaDir)
      ensures store.images == Fetch(old(store.images), Targets(panoramaDir, base), remote)
    {
      ghost var targets := Targets(panoramaDir, base);
      for k := 0 to |Sides|
        invariant panoUrl == SideUrls(base)[..k]
        invariant panoramaFp == SidePaths(panoramaDir)[..k]
        invariant store.images == Fetch(old(store.images), targets[..k], remote)
      {
        NameStep(panoramaDir, base, k);
        NameFace(k, base, store, remote);
        FetchStep(old(store.images), targets, remote, k);
      }
      assert targets[..|Sides|] == targets;
      assert SideUrls(base)[..|Sides|] == SideUrls(base);
      assert SidePaths(panoramaDir)[..|Sides|] == SidePaths(panoramaDir);
    }

    /** One pass of the loop in `fp_from_meta`: names face `k` and fetches it if its file is missing. */
    method NameFace(k: nat, base: string, store: FileStore, remote: string -> Bytes)
      requires k < |Sides| && !Has(panoramaFp, Sides[k].0) && |panoramaFp| == k
      modifies this`panoUrl, this`panoramaFp, store`images
      ensures panoUrl == old(panoUrl) + [SideUrl(base, Sides[k].1)]
      ensures panoramaFp == old(panoramaFp) + [(Sides[k].0, SidePath(panoramaDir, Sides[k].0))]
      ensures var fp := SidePath(panoramaDir, Sides[k].0);
        store.images == if fp in old(store.images) then old(store.images) else old(store.images)[fp := remote(SideUrl(base, Sides[k].1))]
    {
      var side, abrev := Sides[k].0, Sides[k].1;
      panoUrl := panoUrl + [SideUrl(base, abrev)];
      SetAbsent(panoramaFp, side, SidePath(panoramaDir, side));
      panoramaFp := Set(panoramaFp, side, SidePath(panoramaDir, side));
      IndexOfUnique(panoramaFp, side, k);
      var fp := Get(panoramaFp, side);
      assert fp == SidePath(panoramaDir, side);
      assert panoUrl[|panoUrl| - 1] == SideUrl(base, abrev);
      ghost var images := store.images;
      if fp !in store.images {
        store.images := store.images[fp := remote(panoUrl[|panoUrl| - 1])];
        assert store.images == images[fp := remote(SideUrl(base, abrev))];
      } else {
        assert store.images == images;
      }
    }

    /**
     * `seg_analysis(seg_model)`: reuses the cached segmentation of this
     * panorama when there is one; otherwise runs the model on every face and
     * writes the results to the cache.
     */
    method SegAnalysis(model: SegModel, store: FileStore)
      modifies this`segmentFp, this`allSegRes, model, store`segFiles
      ensures segmentFp == SegmentPath(dataDir, model.modelId)
      ensures allSegRes == SegOutcome(LoadSegmentation(old(store.segFiles), segmentFp), panoramaFp, model.analyse)
      ensures SegWrite(old(store.segFiles), segmentFp, allSegRes, store.segFiles, old(model.runs), model.runs, |panoramaFp|)
    {
      var modelId := model.modelId;
      segmentFp := SegmentPath(dataDir, modelId);
      allSegRes := LoadSegmentation(store.segFiles, segmentFp);
      if |allSegRes| < 1 {
        allSegRes := SegRun(model);
        store.segFiles := store.segFiles[segmentFp := allSegRes];
      }
    }

    /** `seg_run(model)`: one model run per face file, in face order. */
    method SegRun(model: SegModel) returns (segRes: Dict<SegRes>)
      modifies model
      ensures segRes == RunAll(panoramaFp, model.analyse)
      ensures model.runs == old(model.runs) + |panoramaFp|
    {
      segRes := [];
      for k := 0 to |panoramaFp|
        invariant segRes == RunAll(panoramaFp[..k], model.analyse)
        invariant model.runs == old(model.runs) + k
      {
        var side, panoFp := panoramaFp[k].0, panoramaFp[k].1;
        var newSegRes := model.Run(panoFp);
        assert panoramaFp[..k + 1][..k] == panoramaFp[..k];
        segRes := Set(segRes, side, newSegRes);
      }
      assert panoramaFp[..|panoramaFp|] == panoramaFp;
    }

    /**
     * `green_analysis(seg_model, green_model)`: the greenery of this panorama
     * under one pair of models. The class fractions averaged over the faces
     * are computed and cached only when the cache has no entry for the pair;
     * the segmentation is produced first if there is none yet.
     */
    method GreenAnalysis(segModel: SegModel, greenModel: GreenModel, store: FileStore) returns (green: real)
      modifies this`greenFp, this`allGreenRes, this`segmentFp, this`allSegRes, segModel, store`segFiles, store`greenFiles
      ensures greenFp == GreenPath(dataDir)
      ensures var key := GreenKey(ClassName, segModel.modelId, greenModel.greenId);
        key in allGreenRes && green == greenModel.test(allGreenRes[key])
      ensures var key := GreenKey(ClassName, segModel.modelId, greenModel.greenId);
        var loaded := LoadGreenery(old(store.greenFiles), greenFp);
        key in loaded ==>
          allGreenRes == loaded && store.greenFiles == old(store.greenFiles)
          && allSegRes == old(allSegRes) && segModel.runs == old(segModel.runs)
      ensures var key := GreenKey(ClassName, segModel.modelId, greenModel.greenId);
        var loaded := LoadGreenery(old(store.greenFiles), greenFp);
        key !in loaded ==>
          allGreenRes == loaded[key := Average(Views(allSegRes, greenModel), |allSegRes|)]
          && store.greenFiles == old(store.greenFiles)[greenFp := allGreenRes]
      ensures var key := GreenKey(ClassName, segModel.modelId, greenModel.greenId);
        key in LoadGreenery(old(store.greenFiles), greenFp) || |old(allSegRes)| >= 1 ==>
          allSegRes == old(allSegRes) && segModel.runs == old(segModel.runs)
          && segmentFp == old(segmentFp) && store.segFiles == old(store.segFiles)
      ensures var key := GreenKey(ClassName, segModel.modelId, greenModel.greenId);
        key !in LoadGreenery(old(store.greenFiles), greenFp) && |old(allSegRes)| < 1 ==>
          && segmentFp == SegmentPath(dataDir, segModel.modelId)
          && allSegRes == SegOutcome(LoadSegmentation(old(store.segFiles), segmentFp), panoramaFp, segModel.analyse)
          && SegWrite(old(store.segFiles), segmentFp, allSegRes, store.segFiles, old(segModel.runs), segModel.runs, |panoramaFp|)
    {
      greenFp := GreenPath(dataDir);
      var key := GreenKey(ClassName, segModel.modelId, greenModel.greenId);
      allGreenRes := LoadGreenery(store.greenFiles, greenFp);
      if key !in allGreenRes {
        var segFrac := FreshGreen(segModel, greenModel, store);
        allGreenRes := allGreenRes[key := segFrac];
        store.greenFiles := store.greenFiles[greenFp := allGreenRes];
      }
      green := greenModel.test(allGreenRes[key]);
    }

    /**
     * The cache-miss branch of `green_analysis`: segment the faces when no
     * segmentation is held yet, then average the class fractions of the faces.
     */
    method FreshGreen(segModel: SegModel, greenModel: GreenModel, store: FileStore) returns (segFrac: Dict<real>)
      modifies this`segmentFp, this`allSegRes, segModel, store`segFiles
      ensures segFrac == Average(Views(allSegRes, greenModel), |allSegRes|)
      ensures |old(allSegRes)| >= 1 ==>
        allSegRes == old(allSegRes) && segModel.runs == old(segModel.runs)
        && segmentFp == old(segmentFp) && store.segFiles == old(store.segFiles)
      ensures |old(allSegRes)| < 1 ==>
        && segmentFp == SegmentPath(dataDir, segModel.modelId)
        && allSegRes == SegOutcome(LoadSegmentation(old(store.segFiles), segmentFp), panoramaFp, segModel.analyse)
        && SegWrite(old(store.segFiles), segmentFp, allSegRes, store.segFiles, old(segModel.runs), segModel.runs, |panoramaFp|)
    {
      if |allSegRes| < 1 {
        SegAnalysis(segModel, store);
      }
      segFrac := AverageViews(allSegRes, greenModel);
    }
  }
}
