/** Stage one of the handler: every decoded entity that has a finite position
    strictly inside the box becomes one point feature; every other entity is
    skipped without an error. */
module Features {
  import opened Wrappers
  import opened GtfsRealtime
  import opened GeoBox

  /** A point geometry; `coordinates` is `[lon, lat]`, longitude first. */
  datatype Point = Point(coordinates: seq<real>)

  /** The `properties` object of a feature. */
  datatype Properties = Properties(
    weight: real,
    speed: Option<Float>,
    bearing: Option<Float>,
    routeId: Option<string>,
    vehicleId: Option<string>,
    ts: string)

  datatype Feature = Feature(geometry: Point, properties: Properties)

  /** What every emitted feature satisfies: a two-element coordinate pair
      strictly inside the box, weight exactly 1.0, and the invocation's shared
      timestamp. */
  predicate Plotted(f: Feature, box: Box, ts: string) {
    && |f.geometry.coordinates| == 2
    && InBox(box, f.geometry.coordinates[0], f.geometry.coordinates[1])
    && f.properties.weight == 1.0
    && f.properties.ts == ts
  }

  /** The position an entity would be plotted at, when it has one. */
  function PositionOf(e: FeedEntity): (r: Option<Position>)
    // `vp && vp.position`: absent when there is no vehicle or it has no position
    ensures r.Some? <==> e.vehicle.Some? && e.vehicle.value.position.Some?
    ensures r.Some? ==> r.value == e.vehicle.value.position.value
  {
    if e.vehicle.Some? then e.vehicle.value.position else None
  }

  /** Whether the loop pushes a feature for `e`: it has a position, both
      coordinates are finite, and the point is strictly inside the box. */
  predicate Emits(e: FeedEntity, box: Box)
    // an emitting entity has a vehicle with a position whose coordinates are both
    // finite and lie in the box's closed rectangle
    ensures Emits(e, box) ==>
      && e.vehicle.Some? && e.vehicle.value.position.Some?
      && e.vehicle.value.position.value.latitude.Finite?
      && e.vehicle.value.position.value.longitude.Finite?
      && box.minLat <= e.vehicle.value.position.value.latitude.value <= box.maxLat
      && box.minLon <= e.vehicle.value.position.value.longitude.value <= box.maxLon
  {
    && PositionOf(e).Some?
    && IsFinite(PositionOf(e).value.latitude)
    && IsFinite(PositionOf(e).value.longitude)
    && InBox(box, PositionOf(e).value.longitude.value, PositionOf(e).value.latitude.value)
  }

  /** The body of the loop for one entity: `None` is a `continue`, `Some(f)` a push. */
  function ToFeature(e: FeedEntity, box: Box, ts: string): (r: Option<Feature>)
    // no vehicle, or a vehicle without a position: skipped
    ensures PositionOf(e).None? ==> r.None?
    // a non-finite coordinate: skipped
    ensures PositionOf(e).Some? && !(IsFinite(PositionOf(e).value.latitude) && IsFinite(PositionOf(e).value.longitude))
            ==> r.None?
    // a finite position is emitted exactly when it lies strictly inside the box
    ensures PositionOf(e).Some? && IsFinite(PositionOf(e).value.latitude) && IsFinite(PositionOf(e).value.longitude)
            ==> (r.Some? <==> InBox(box, PositionOf(e).value.longitude.value, PositionOf(e).value.latitude.value))
    // whatever the timestamp, a feature is pushed exactly for the entities `Emits` admits
    ensures r.Some? <==> Emits(e, box)
    ensures r.Some? ==> Plotted(r.value, box, ts)
    // the feature carries the position's longitude first, then its latitude, and
    // copies the optional attributes, absent ones staying absent
    ensures r.Some? ==>
      var vp := e.vehicle.value;
      var p := vp.position.value;
      && r.value.geometry.coordinates == [p.longitude.value, p.latitude.value]
      && r.value.properties.speed == p.speed
      && r.value.properties.bearing == p.bearing
      && r.value.properties.routeId == (if vp.trip.Some? then vp.trip.value.routeId else None)
      && r.value.properties.vehicleId == (if vp.vehicle.Some? then vp.vehicle.value.id else None)
  {
    match e.vehicle
    case None => None
    case Some(vp) =>
      match vp.position
      case None => None
      case Some(p) =>
        if !IsFinite(p.latitude) || !IsFinite(p.longitude) then None
        else
          var lat := p.latitude.value;
          var lon := p.longitude.value;
          if !InBox(box, lon, lat) then None
          else
            var routeId := if vp.trip.Some? then vp.trip.value.routeId else None;
            var vehicleId := if vp.vehicle.Some? then vp.vehicle.value.id else None;
            Some(Feature(Point([lon, lat]),
                         Properties(1.0, p.speed, p.bearing, routeId, vehicleId, ts)))
  }

  /** The features the loop has pushed after visiting all of `es`, in visiting order. */
  function BuildFeatures(es: seq<FeedEntity>, box: Box, ts: string): (fs: seq<Feature>)
    ensures |fs| <= |es|
    ensures forall f :: f in fs ==> Plotted(f, box, ts)
    decreases |es|
  {
    if |es| == 0 then []
    else
      var before := BuildFeatures(es[..|es| - 1], box, ts);
      match ToFeature(es[|es| - 1], box, ts)
      case None => before
      case Some(f) => before + [f]
  }

  /** The positions, in increasing order, of the entities that yield a feature. */
  function Survivors(es: seq<FeedEntity>, box: Box): seq<nat>
    decreases |es|
  {
    if |es| == 0 then []
    else
      var before := Survivors(es[..|es| - 1], box);
      if Emits(es[|es| - 1], box) then before + [|es| - 1] else before
  }

  /** The build stage is exactly a filter-map: the k-th feature is the image of
      the k-th surviving entity, survivors are visited in increasing position,
      and every entity that is not a survivor yields nothing. */
  lemma {:induction false} BuildIsOrderedFilterMap(es: seq<FeedEntity>, box: Box, ts: string)
    ensures var fs := BuildFeatures(es, box, ts);
            var idx := Survivors(es, box);
            && |fs| == |idx|
            && (forall k :: 0 <= k < |idx| ==> idx[k] < |es| && ToFeature(es[idx[k]], box, ts) == Some(fs[k]))
            && (forall j, k :: 0 <= j < k < |idx| ==> idx[j] < idx[k])
            && (forall i :: 0 <= i < |es| ==> (ToFeature(es[i], box, ts).Some? <==> i in idx))
    decreases |es|
  {
    if |es| > 0 {
      var init := es[..|es| - 1];
      BuildIsOrderedFilterMap(init, box, ts);
      forall i | 0 <= i < |init|
        ensures es[i] == init[i]
      {
      }
    }
  }

  /** Building over a concatenation builds each part independently: what one
      entity yields, or that it is skipped, never affects another. */
  lemma {:induction false} BuildAppend(a: seq<FeedEntity>, b: seq<FeedEntity>, box: Box, ts: string)
    ensures BuildFeatures(a + b, box, ts) == BuildFeatures(a, box, ts) + BuildFeatures(b, box, ts)
    decreases |b|
  {
    if |b| == 0 {
      assert a + b == a;
    } else {
      var b' := b[..|b| - 1];
      assert (a + b)[..|a + b| - 1] == a + b';
      BuildAppend(a, b', box, ts);
    }
  }

  /** A skipped entity (no vehicle, no position, a non-finite or out-of-box
      coordinate) leaves the output exactly as it was. */
  lemma SkippedEntityIsInvisible(a: seq<FeedEntity>, e: FeedEntity, b: seq<FeedEntity>, box: Box, ts: string)
    requires ToFeature(e, box, ts).None?
    ensures BuildFeatures(a + [e] + b, box, ts) == BuildFeatures(a + b, box, ts)
  {
    BuildAppend(a + [e], b, box, ts);
    BuildAppend(a, [e], box, ts);
    BuildAppend(a, b, box, ts);
    assert BuildFeatures([e], box, ts) == [] by {
      assert [e][..0] == [];
    }
  }

  /** The handler's `for … of` loop with its `continue`s and `push`, which
      computes exactly the build stage. */
  method CollectFeatures(es: seq<FeedEntity>, box: Box, ts: string) returns (features: seq<Feature>)
    ensures features == BuildFeatures(es, box, ts)
  {
    features := [];
    for i := 0 to |es|
      invariant features == BuildFeatures(es[..i], box, ts)
    {
      assert es[..i + 1][..i] == es[..i];
      var e := es[i];
      if e.vehicle.None? || e.vehicle.value.position.None? {
        continue;
      }
      var vp := e.vehicle.value;
      var p := vp.position.value;
      if !IsFinite(p.latitude) || !IsFinite(p.longitude) {
        continue;
      }
      var lat := p.latitude.value;
      var lon := p.longitude.value;
      if !InBox(box, lon, lat) {
        continue;
      }
      var routeId := if vp.trip.Some? then vp.trip.value.routeId else None;
      var vehicleId := if vp.vehicle.Some? then vp.vehicle.value.id else None;
      features := features + [Feature(Point([lon, lat]),
                                      Properties(1.0, p.speed, p.bearing, routeId, vehicleId, ts))];
    }
    assert es[..|es|] == es;
  }
}
