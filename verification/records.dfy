/**
 * The records that flow between the pieces of the pipeline: one entry of the
 * metadata list served by the panorama API, and one segmentation result.
 */
module Records {

  /**
   * One metadata entry. `coordinates` is the GeoJSON position of the
   * panorama, `[longitude, latitude, ...]` (RFC 7946, section 3.1.1); the code
   * reads its first two members without checking the length.
   */
  datatype Meta = Meta(panoId: string, coordinates: seq<real>, cubicImgBaseurl: string)

  /** Both `coordinates[0]` and `coordinates[1]` exist. */
  predicate HasPosition(m: Meta)
  {
    2 <= |m.coordinates|
  }

  /** `coordinates[0]` */
  function Longitude(m: Meta): real
    requires HasPosition(m)
  {
    m.coordinates[0]
  }

  /** `coordinates[1]` */
  function Latitude(m: Meta): real
    requires HasPosition(m)
  {
    m.coordinates[1]
  }

  /**
   * What the segmentation model returns for one image: a grid of class
   * indices, `ny` rows of `nx` labels, and the class names (`color_map[0]`).
   */
  datatype SegRes = SegRes(segMap: seq<seq<int>>, names: seq<string>)
}
