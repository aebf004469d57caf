/** The axis-aligned region filter of the handler. */
module GeoBox {

  /** A bounding box, listed in the handler's order `[minLng, minLat, maxLng, maxLat]`. */
  datatype Box = Box(minLon: real, minLat: real, maxLon: real, maxLat: real)

  /** A box that encloses some area. */
  predicate Valid(b: Box) {
    b.minLon < b.maxLon && b.minLat < b.maxLat
  }

  /** `inBox`: strictly inside on all four sides; points on an edge are outside. */
  predicate InBox(b: Box, lon: real, lat: real)
    // only points of the closed rectangle are admitted ...
    ensures InBox(b, lon, lat) ==> b.minLon <= lon <= b.maxLon && b.minLat <= lat <= b.maxLat
    // ... and none of its four edges
    ensures lon == b.minLon || lon == b.maxLon || lat == b.minLat || lat == b.maxLat ==> !InBox(b, lon, lat)
  {
    lon > b.minLon && lon < b.maxLon && lat > b.minLat && lat < b.maxLat
  }

  /** A valid box admits its centre, so the filter is not vacuous. */
  lemma CentreAdmitted(b: Box)
    requires Valid(b)
    ensures InBox(b, (b.minLon + b.maxLon) / 2.0, (b.minLat + b.maxLat) / 2.0)
  {
  }
}
