/**
 * The collaborators the pipeline talks to but whose code is not part of this
 * model: the local file system (the JSON caches and the downloaded images),
 * the segmentation model, the greenery model and the metadata API. Each is
 * reduced to what the modelled code can observe of it.
 */
module Services {
  import opened OrderedDict
  import opened Records

  /** The raw contents of a downloaded image. */
  type Bytes = seq<bv8>

  /**
   * `get_green_key(cls, seg_id, green_id)`: the cache key of one greenery
   * result. Distinct arguments give distinct keys.
   */
  datatype GreenKey = GreenKey(cls: string, segId: string, greenId: string)

  /**
   * The file system, one map per kind of file the pipeline reads or writes.
   * A path is present in a map exactly when `os.path.exists` holds for it
   * and the file holds what the map says.
   */
  class FileStore {
    var images: map<string, Bytes>
    var segFiles: map<string, Dict<SegRes>>
    var greenFiles: map<string, map<GreenKey, Dict<real>>>
    var metaFiles: map<string, seq<Meta>>

    constructor (images: map<string, Bytes>, segFiles: map<string, Dict<SegRes>>,
                 greenFiles: map<string, map<GreenKey, Dict<real>>>, metaFiles: map<string, seq<Meta>>)
      ensures this.images == images && this.segFiles == segFiles
      ensures this.greenFiles == greenFiles && this.metaFiles == metaFiles
    {
      this.images := images;
      this.segFiles := segFiles;
      this.greenFiles := greenFiles;
      this.metaFiles := metaFiles;
    }
  }

  /**
   * A segmentation model: `id()` names it, `run(path)` segments the image at
   * `path`. Every run is counted, so a caller's promise not to run the model
   * is visible.
   */
  class SegModel {
    const modelId: string
    const analyse: string -> SegRes
    var runs: nat

    constructor (modelId: string, analyse: string -> SegRes)
      ensures this.modelId == modelId && this.analyse == analyse && runs == 0
    {
      this.modelId := modelId;
      this.analyse := analyse;
      runs := 0;
    }

    /** `run(path)` */
    method Run(path: string) returns (r: SegRes)
      modifies this
      ensures r == analyse(path)
      ensures runs == old(runs) + 1
    {
      r := analyse(path);
      runs := runs + 1;
    }
  }

  /**
   * A greenery model: `id()`, `test_seg_map2(seg_map, names)` (the class
   * fractions of one view) and `test(fractions)` (the greenery score).
   */
  datatype GreenModel = GreenModel(
    greenId: string,
    fractionsOf: (seq<seq<int>>, seq<string>) -> Dict<real>,
    test: Dict<real> -> real)

  /** Every result of `test_seg_map2` is a Python dict, so its keys are distinct. */
  ghost predicate DictResults(green: GreenModel)
  {
    forall segMap, names :: Distinct(green.fractionsOf(segMap, names))
  }

  /**
   * The remote metadata API behind `request_meta(params)`. Requests are
   * counted, so a cache hit that avoids the network is visible.
   */
  class MetaService {
    const answer: seq<(string, string)> -> seq<Meta>
    var requests: nat

    constructor (answer: seq<(string, string)> -> seq<Meta>)
      ensures this.answer == answer && requests == 0
    {
      this.answer := answer;
      requests := 0;
    }

    /** `request_meta(params)` */
    method RequestMeta(params: seq<(string, string)>) returns (m: seq<Meta>)
      modifies this
      ensures m == answer(params)
      ensures requests == old(requests) + 1
    {
      m := answer(params);
      requests := requests + 1;
    }
  }
}
