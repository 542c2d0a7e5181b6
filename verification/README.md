# streetview-greenery: panorama selection and greenery analysis

This project models the core of the streetview-greenery pipeline. The pipeline
measures how green the streets of Amsterdam are from street-level panoramas.
The model has three cooperating pieces.

- **Tile manager** (`AdamPanoramaTile`, module `Tile`).
  - The constructor puts a bounding box into south-west / north-east order by swapping entries of the caller's 2x2 array in place.
  - It formats the box as the `bb_string` query parameter of the data.amsterdam API.
  - `load(grid_level)` lays a `2^level` by `2^level` grid over the box.
  - It buckets the metadata indices into grid cells. `int()` truncates toward zero, and a negative cell index wraps as Python list indexing does.
  - From every non-empty cell it keeps the panorama nearest the cell's south-west corner, under a latitude-scaled squared distance.
- **Cubic panorama** (`AdamPanoramaCubic`, modules `Cubic`, `Greenery`, `Fractions`).
  - One panorama is stored as the four horizontal faces of a cube map.
  - It reads its position from a GeoJSON `[longitude, latitude]` pair.
  - It names one URL and one local file per face, and downloads a face only when its file is missing.
  - It segments the faces only when no cached segmentation exists.
  - It computes the greenery of a pair of models only when the greenery cache has no entry for that pair. The per-class fractions of the faces are averaged with weight `1/n_pano`.
  - `_corrected_fractions` (module `Fractions`) computes the centre-weighted share of the image that each segmentation class covers.
- **Batch manager** (`BasePanoramaManager`, module `Manager`).
  - It reads the metadata list from a cache file, or requests it and writes the cache.
  - It keeps the entries at the load ids and builds one panorama per kept entry.
  - It collects three parallel lists: greenery, latitude and longitude.

Supporting modules:

- `Python`: the built-in behaviour the code relies on: `int()` on a float, list indexing, POSIX `os.path.join` and `2**k`. It also defines `str.split` and `str.join`. The code never calls these two; they serve only to state that `bb_string` and a face URL can be split back into their fields (`Tile.BoxStringFields`, `Cubic.SideUrlFields`).
- `OrderedDict`: a Python dict as an insertion-ordered sequence of entries, since iteration order shows in the results.
- `Records`: a metadata entry and a segmentation result.
- `Services`: the collaborators whose code is not part of this model, each reduced to what the modelled code can observe of it:
  - the file system, as one map per kind of file;
  - the segmentation model, with a run counter;
  - the greenery model;
  - the metadata API, with a request counter.

Behaviour of the code as written that the model keeps and states:

- A point exactly on the east or north edge of the box is dropped.
- A point up to one cell west or south of the box truncates into cell 0.
- A point further out, but within `n+1` cells, wraps to the far end of the grid instead of being dropped.
- A cell whose every candidate is at distance `>= 10**10` emits the sentinel `-1`.

## Model

| member | source | states |
|---|---|---|
| Python.TruncTowardZero | API/adam_tile.py:92-93 | `int()` of a float keeps the sign and drops the fraction: the result is within one of the input, on the side of zero. |
| Python.PyIndex | API/adam_tile.py:94-98 | A list index is valid exactly in `[-n, n)` and then reaches a cell below `n`; any other index raises IndexError. |
| Python.PyIndexWraps | API/adam_tile.py:95 | A valid negative index reaches cell `n + i`, the same cell modulo the length. |
| Python.Pow2 | API/adam_tile.py:61-62 | `2**grid_level` is at least 1, and even for a positive level. |
| Python.PathJoinParts | API/adam_panorama_cubic.py:78-79 | `os.path.join(dir, name)` with a relative name starts with the directory and ends with the name, with one slash between them when needed. |
| Python.PathJoinInjective | API/adam_panorama_cubic.py:78-79 | Joining one directory with two different relative names never gives the same path. |
| OrderedDict.SetKeys | API/adam_panorama_cubic.py:124-127 | `d[k] = v` keeps the keys distinct, adds `k` and no other key, and appends `k` to the iteration order only when it was absent. |
| OrderedDict.SetGet | API/adam_panorama_cubic.py:124-127 | After `d[k] = v`, `d[k]` is `v` and every other key keeps its value. |
| OrderedDict.SumSet | API/adam_panorama_cubic.py:124-127 | `d[k] = v` changes the sum of the values by `v` minus the value it replaces. |
| Tile.AdamPanoramaTile.constructor | API/adam_tile.py:16-37 | The tile keeps the caller's array, now sorted per axis (south-west row first). Its data directory is the manager's joined with the tile name. `bb_string` formats the sorted box. |
| Tile.NormalizeBox | API/adam_tile.py:23-31 | After the swaps each column holds the minimum of its two values in row 0 and the maximum in row 1. |
| Tile.MinMaxOrdered | API/adam_tile.py:23-31 | The sorted pair is ordered and is the original pair, possibly swapped. |
| Tile.BoxStringFields | API/adam_tile.py:34-35 | Splitting `bb_string` at commas gives back `sw_long, ne_lat, ne_long, sw_lat`, in that order. |
| Tile.GridOf | API/adam_tile.py:61-72 | The grid has `2**level` cells per axis, starts at the south-west corner, and its cells tile the box exactly (`dx*n == x_end - x_start`, `dy` likewise). |
| Tile.AdamPanoramaTile.Load | API/adam_tile.py:42-128 | Without a level, the manager's own load is called. Otherwise the result is the bucketing error, if any, or the nearest-to-corner pick of every occupied cell, `ix` outer and `iy` inner. |
| Tile.FillSampleList | API/adam_tile.py:84-98 | It fails exactly when an entry lacks a position (IndexError) or a cell size is zero (ZeroDivisionError). Otherwise every `sample_list[a][b]` is the bucket of cell (a, b). |
| Tile.NoErrorBucketable | API/adam_tile.py:89-93 | Without an exception, every entry has both coordinates and neither cell size is zero. |
| Tile.BucketGrow | API/adam_tile.py:94-95 | Enumerating one more entry appends its index to the bucket of its own cell only. |
| Tile.BucketFacts | API/adam_tile.py:89-95 | A bucket holds, in increasing enumeration order, exactly the entries whose cell it is, so each entry is in at most one bucket. |
| Tile.AxisIndexCases | API/adam_tile.py:92-98 | An axis offset in `[0, n)` picks its truncated cell. One in `(-1, 0)` picks cell 0. One in `(-n-1, -1]` wraps to cell `n + int(t)`. Any other offset is dropped. |
| Tile.EastEdgeDropped | API/adam_tile.py:92-98 | A point exactly on the east edge of the box lands in no cell. |
| Tile.NorthEdgeDropped | API/adam_tile.py:92-98 | A point exactly on the north edge of the box lands in no cell. |
| Tile.ScanCell | API/adam_tile.py:109-124 | The argmin loop returns the same `(idx_min, min_dist)` as the reference scan `Nearest`. |
| Tile.NearestIsFirstMinimum | API/adam_tile.py:109-124 | The scan gives -1 exactly when no candidate is nearer than `10**10`. Otherwise it gives a candidate at the smallest distance, the first in list order among equals, with that distance. |
| Tile.PickInCell | API/adam_tile.py:105-125 | A non-negative pick is an entry that lies in the cell it was picked for. |
| Tile.PickColumn | API/adam_tile.py:104-125 | The inner `iy` loop emits the pick of each occupied cell of its column, bottom to top, and nothing for empty cells. |
| Tile.PickPerCell | API/adam_tile.py:102-125 | The nested loops emit exactly the reference selection `Selected`. |
| Tile.SweepPicks | API/adam_tile.py:102-125 | The k-th emitted id is the pick of the k-th occupied cell in visiting order. |
| Tile.CellOrderFacts | API/adam_tile.py:103-108 | The loops visit every occupied cell, and only those, in strictly increasing `(ix, iy)` order. |
| Tile.SweepCount | API/adam_tile.py:102-108 | `len(load_ids)` equals the number of non-empty cells. |
| Tile.SelectedPerCell | API/adam_tile.py:102-125 | One id per occupied cell, in visiting order. Each non-negative id lies in its own cell, and no non-negative id is emitted twice. |
| Tile.SelectedWithinRange | API/adam_tile.py:109-125 | When every entry is nearer than `10**10` to its cell's corner, no cell emits the -1 sentinel. |
| Fractions.WeightBounds | API/adam_panorama_cubic.py:25-28 | Every pixel weighs more than 0 and at most 1. |
| Fractions.WeightFallsOff | API/adam_panorama_cubic.py:25-28 | For a weight that never grows with `dx**2 + dy**2`, a pixel farther from the centre weighs no more than a nearer one. |
| Fractions.CentreWeight | API/adam_panorama_cubic.py:25-28 | The pixel at `(nx/2, ny/2)` of an even-sized image weighs exactly 1, the largest weight any pixel has. |
| Fractions.CorrectedFractions | API/adam_panorama_cubic.py:17-36 | Both loops together compute `Fractions`, including its IndexError cases. |
| Fractions.WeighPixels | API/adam_panorama_cubic.py:19-30 | The first loop fails exactly when the reference tally fails. Otherwise `seg_frac` and `tot_frac` are that tally. |
| Fractions.WeighRow | API/adam_panorama_cubic.py:26-30 | The inner `ix` loop extends the tally by the pixels of one row. |
| Fractions.WeighPixel | API/adam_panorama_cubic.py:28-30 | One pixel adds its weight to its slot and to the total, or its label raises IndexError. |
| Fractions.AccumulateStopsAt | API/adam_panorama_cubic.py:29 | A label that cannot index the 200 slots makes the whole image fail. |
| Fractions.ShareOut | API/adam_panorama_cubic.py:33-35 | The second loop computes `Normalise` over all 200 slots. |
| Fractions.TallyOfFails | API/adam_panorama_cubic.py:29 | The first loop raises exactly when some label is outside `[-200, 200)`. |
| Fractions.TallyOfFacts | API/adam_panorama_cubic.py:24-30 | The slots are non-negative and sum to `tot_frac`. A slot is positive exactly when its class occurs. A map with at least one pixel has `tot_frac > 0`. |
| Fractions.NormaliseFails | API/adam_panorama_cubic.py:33-35 | The second loop fails exactly when a positive slot has no name. |
| Fractions.NormaliseKeys | API/adam_panorama_cubic.py:33-35 | The keys are distinct and are exactly the names of the positive slots. |
| Fractions.FractionsFail | API/adam_panorama_cubic.py:17-36 | `_corrected_fractions` raises exactly on an empty map, a label outside `[-200, 200)`, or an occurring class with no name. |
| Fractions.FractionsKeys | API/adam_panorama_cubic.py:33-36 | The keys are distinct and are exactly the names of the classes that occur. Every value lies in `(0, 1]`. |
| Fractions.FractionsValues | API/adam_panorama_cubic.py:35 | With distinct names, each occurring class maps to its slot divided by `tot_frac`. |
| Fractions.FractionsSumToOne | API/adam_panorama_cubic.py:33-36 | With distinct names, the fractions of an image with at least one pixel sum to 1. |
| Fractions.FractionsUniform | API/adam_panorama_cubic.py:17-36 | An image of a single label `l` in `[-200, 200)` gives `{names[s]: 1.0}`, where `s` is the slot `l` indexes (`200 + l` for a negative label). |
| Greenery.AddViewKeys | API/adam_panorama_cubic.py:123-127 | Folding in a face keeps the keys distinct and adds exactly that face's classes. |
| Greenery.AddViewValue | API/adam_panorama_cubic.py:123-127 | Folding in a face adds its fraction for `c`, divided by `n_pano`, to the entry for `c`. |
| Greenery.AddViewSum | API/adam_panorama_cubic.py:123-127 | Folding in a face adds its total, divided by `n_pano`, to the sum. |
| Greenery.AverageKeys | API/adam_panorama_cubic.py:107-127 | The averaged dict has distinct keys: the union of the faces' classes. |
| Greenery.AverageValue | API/adam_panorama_cubic.py:107-127 | The entry for class `c` is the sum over faces of `new_frac[c]/n_pano`. |
| Greenery.AverageSum | API/adam_panorama_cubic.py:107-127 | The averaged values sum to the sum over faces of each face's total over `n_pano`. |
| Greenery.AverageSumsToOne | API/adam_panorama_cubic.py:107-127 | When every face's fractions sum to 1, so do the averaged ones. |
| Cubic.AveragedFractions | API/adam_panorama_cubic.py:107-128 | When every per-face result is a dict (distinct keys), the stored fractions have distinct keys, exactly the classes some face reports, and the entry for `c` is the sum over faces of that face's fraction for `c` over `n_pano`. |
| Cubic.FoldView | API/adam_panorama_cubic.py:123-127 | The inner loop over one face's classes computes `AddView`. |
| Cubic.AverageViews | API/adam_panorama_cubic.py:107-127 | The loop over the faces computes `Average` of the faces' fractions with `n = n_pano`. |
| Cubic.AdamPanoramaCubic.constructor | API/adam_panorama_cubic.py:41-56 | The images live in `data_src/pics` unless a directory is given. No faces are named and no results are held. |
| Cubic.AdamPanoramaCubic.Parse | API/adam_panorama_cubic.py:58-63 | Longitude is `coordinates[0]`, latitude `coordinates[1]` and id `pano_id`. A position with fewer than two coordinates raises IndexError after `meta_data` is stored. |
| Cubic.AdamPanoramaCubic.FpFromMeta | API/adam_panorama_cubic.py:65-83 | One URL and one file per face, in face order. The metadata path is inside the data directory. The images on disk are the old ones plus a download for each missing face. |
| Cubic.AdamPanoramaCubic.NameFaces | API/adam_panorama_cubic.py:74-83 | The loop names every face in order and fetches the missing ones. |
| Cubic.AdamPanoramaCubic.NameFace | API/adam_panorama_cubic.py:75-83 | One face adds its URL and its file, and is downloaded only when its file does not exist. |
| Cubic.SidePathsFacts | API/adam_panorama_cubic.py:74-79 | `panorama_fp` is keyed by front, back, left, right in that order. Each file lies in the data directory and is named after its face, and the four files are distinct. |
| Cubic.SideUrlFields | API/adam_panorama_cubic.py:76-77 | After the base URL, a face URL splits at `/` into `1`, the face letter, `0`, `0.jpg`. |
| Cubic.TargetsDistinct | API/adam_panorama_cubic.py:78-83 | The four face files are distinct. |
| Cubic.FetchKeeps | API/adam_panorama_cubic.py:81-83 | An existing file is never fetched again. |
| Cubic.FetchKeys | API/adam_panorama_cubic.py:81-83 | After fetching, the files on disk are the old ones plus exactly the face files. |
| Cubic.FetchFills | API/adam_panorama_cubic.py:81-83 | Each face file that was missing holds the download from its own URL. |
| Cubic.AdamPanoramaCubic.SegAnalysis | API/adam_panorama_cubic.py:85-95 | With a non-empty cache, the cached results are used, the model never runs and nothing is written. Otherwise the model runs once per face and the results are written to the cache (`SegWrite`). |
| Cubic.AdamPanoramaCubic.SegRun | API/adam_panorama_cubic.py:132-144 | One model run per face file, results keyed by face in face order. |
| Cubic.RunAllFacts | API/adam_panorama_cubic.py:135-139 | `seg_run` returns exactly one result per key of `panorama_fp`, in the same order, each the run on that face's file. |
| Cubic.AdamPanoramaCubic.GreenAnalysis | API/adam_panorama_cubic.py:97-130 | On a cache hit nothing is recomputed or written: the segmentation results, their cache file, `segment_fp` and the model's run count stay as they were. On a miss exactly the key is added, holding the average over faces, and the greenery cache is rewritten. A miss segments first only when no segmentation is held, with the runs and the write `seg_analysis` makes. Either way the result is `test` of the cached entry. |
| Cubic.AdamPanoramaCubic.FreshGreen | API/adam_panorama_cubic.py:104-128 | Held segmentation results are reused, with no run, no write and `segment_fp` unchanged. Otherwise the panorama is segmented first, with the runs and the write of `seg_analysis`. The fractions are then averaged over the faces. |
| Manager.BasePanoramaManager.constructor | API/panorama_manager.py:15-21 | A manager starts with no metadata, no panoramas, the default data directory and the given models. |
| Manager.BasePanoramaManager.Get | API/panorama_manager.py:23-39 | When the cache file exists, the metadata is read from it and the API is not asked. Otherwise the API is asked once and its answer is stored and written to the file. |
| Manager.BasePanoramaManager.Load | API/panorama_manager.py:41-54 | Asking for a negative number of samples, or for more samples than entries, raises ValueError and changes nothing. Otherwise `meta_data[k] == old_meta_data[load_ids[k]]`, with one new panorama per kept entry appended in order. |
| Manager.BasePanoramaManager.NewPanoramas | API/panorama_manager.py:53-54 | One new panorama per entry, appended in order, each over its own entry. |
| Manager.LoadAllKeepsOrder | API/panorama_manager.py:44-51 | Without a sample size, every entry is kept in its place. |
| Manager.SampleKeepsDistinct | API/panorama_manager.py:47-51 | A sample without replacement keeps `n_sample` entries, each taken from a different position. |
| Manager.BasePanoramaManager.GreenAnalysis | API/panorama_manager.py:61-74 | Three lists as long as `panoramas`. Entry `k` is panorama `k`'s greenery, and the latitude and longitude it held before the call, which the analysis leaves unchanged. Only the panoramas' result fields and the segmentation and greenery caches can change; the images, the metadata cache and every other panorama field stay as they were. |

## Left out

- Floating point: all arithmetic is over Dafny's exact reals. IEEE rounding and overflow are not modelled.
- The pixel weight `(dx**2 + dy**2 + 1)**-1.5` is a parameter `w` of `dx**2 + dy**2`. It is assumed positive, at most 1, and 1 at 0 (`Falloff`), and never growing with its argument where a lemma needs it (`Decreasing`). The power function is not part of this model.
- `cos(pi*y_base/180)` is a parameter `cosLat`. Python's `math` module is not part of this model.
- The verbose resolution printout of `load` (the `R_earth` computation and `print`) is left out: it is console output.
- `print`, `tqdm`, `show`, `plot_segmentation` and the `show` flags of `seg_analysis`/`seg_run` are left out: they only display.
- File system and network:
  - `os.path.exists`, `os.makedirs`, `open`, `json.load`/`json.dump` and `urlretrieve` are the maps of `FileStore`.
  - A file exists exactly when its path is in the map.
  - Creating directories is not modelled.
  - The downloaded bytes are a function `remote` of the URL.
- `load_segmentation`, `save_segmentation`, `load_greenery` and `save_greenery` are not part of this model.
  - Loading is modelled as giving the stored value, or an empty result when the file is absent.
  - Saving is modelled as storing the current value under the path.
- The segmentation and greenery models (`run`, `id`, `test`, `test_seg_map2`) are not part of this model. They are opaque functions.
- `get_green_key` is not part of this model. It is an injective constructor of its three arguments.
- `np.random.seed` and `np.random.choice` are the parameter `choose`. Only their contract is kept: distinct indices in range.
- `_request_params`, `_meta_request_file` and `request_meta` are not part of this model.
  - The parameters and the file name are inputs of `Get`.
  - The request is a `MetaService` whose answer is a function of the parameters.
- `BasePanorama.__init__` is not part of this model.
  - `Cubic.AdamPanoramaCubic.constructor` therefore does not call `parse` or `fp_from_meta`. It only records the metadata and the data directory.
  - `Manager.BasePanoramaManager.GreenAnalysis` reports whatever latitude and longitude the panoramas hold.
- `new_panorama` is not part of this model. A new panorama is an `AdamPanoramaCubic` over the entry, with the manager's data directory as `data_src`.
- `AdamPanoramaManager` is not part of this model.
  - Its `load(load_ids=...)` is represented by the `LoadCall` that `Tile.AdamPanoramaTile.Load` returns.
  - The tile's inherited fields are flattened into the class.
- `AdamPanoramaTile.get` and `BasePanoramaManager.seg_analysis` are not modelled. Each only forwards to a method modelled here, or to one outside this model.
- `Tile.AdamPanoramaTile.Load`: `grid_level` is a natural number. A negative level would make `2**grid_level` a float, which `range` rejects.
- `Fractions.CorrectedFractions`: the label map must be rectangular, as a 2-d numpy array is. Labels are unbounded integers.
- `Records.Meta`: every metadata entry carries `geometry.coordinates`, `pano_id` and `cubic_img_baseurl`. The KeyError that `parse`, `fp_from_meta` and `load` raise on an entry missing one of them is not modelled; only a coordinate list that is too short (IndexError) is.
- Default arguments are not modelled. Callers pass explicitly what the source defaults: `tile_name="unknown"` and the default box of `AdamPanoramaTile`, `data_src="data.amsterdam"` of `AdamPanoramaCubic`, and the `DeepLabModel`/`VegetationPercentage` models of `BasePanoramaManager`.
- `__main__.py` is orchestration and plotting. It is not part of this model.
