# Stockholm live vehicle heat points — a Dafny model

The repository serves one endpoint, `api/live/stockholm.js`. It fetches the
national GTFS Realtime vehicle-position feed, keeps the vehicles inside a fixed
box around greater Stockholm, and returns them as a GeoJSON-style
`FeatureCollection` of points, each with weight 1.0, for a heat-map front end.
Above 1500 points the list is thinned by a fixed stride.

The model covers the handler's pure transform and the decisions around it:

- `GtfsRealtime` (`gtfs_realtime.dfy`) holds the decoded `FeedEntity`, `VehiclePosition`,
  `Position`, `TripDescriptor` and `VehicleDescriptor` messages. Only the fields
  the handler reads are kept: the entity's vehicle, the position's coordinates,
  bearing and speed, the trip's route id and the vehicle's id. Absent fields are `Option`s. A float is `Finite(real)`,
  `NaN` or `Infinite`, so `Number.isFinite` can be modelled.
- `GeoBox` (`geo_box.dfy`) holds the bounding box and the strict `inBox` test.
- `Features` (`features.dfy`) holds the per-entity loop. `ToFeature` is one
  iteration, `BuildFeatures` is the whole loop as a recursive function, and
  `CollectFeatures` is the loop written imperatively with its `continue`s and pushes.
- `Thinning` (`thinning.dfy`) holds the stride `ceil(n / max)`, a recursive
  function proved to be the ceiling. It also holds the index filter `i % s === 0`,
  written both as a recursive function and as a loop.
- `Handler` (`handler.dfy`) instantiates the box `[17.7, 59.15, 18.35, 59.50]`
  and the cap 1500. It also models the missing-key check, the upstream status
  check and the decode failure, all mapped to the single `decode-failed` error.
  The fetch and the decode are inputs, not I/O.
- `Wrappers` (`wrappers.dfy`) holds `Option`.

## Model

| member | source | states |
|---|---|---|
| GeoBox.InBox | api/live/stockholm.js:20-21 | a point the box admits lies in the closed rectangle, and a point on any of the four edges is never admitted |
| GeoBox.CentreAdmitted | api/live/stockholm.js:21 | a box with `minLon < maxLon` and `minLat < maxLat` admits its centre, so the filter is not empty |
| GtfsRealtime.IsFinite | api/live/stockholm.js:33 | `Number.isFinite` holds of a decoded float exactly when it is neither NaN nor an infinity |
| Features.PositionOf | api/live/stockholm.js:27-28 | `vp && vp.position` is present exactly when the entity has a vehicle and that vehicle has a position, and is then that position |
| Features.Emits | api/live/stockholm.js:29-34 | an entity passes all three `continue` tests only if it has a vehicle with a position, both coordinates are finite, and the point lies in the box's closed rectangle |
| Features.ToFeature | api/live/stockholm.js:27-47 | a feature is pushed exactly for the entities `Emits` admits (a position, finite coordinates, strictly inside the box), whatever the timestamp; an entity with no vehicle, no position or a non-finite coordinate yields nothing; a finite one yields a feature exactly when strictly inside the box; the feature has coordinates `[lon, lat]`, weight 1.0, the shared timestamp, and speed, bearing, route id and vehicle id copied or absent |
| Features.BuildFeatures | api/live/stockholm.js:24-48 | the loop emits at most one feature per entity, and every emitted feature is strictly inside the box with weight 1.0 and the invocation's timestamp |
| Features.BuildIsOrderedFilterMap | api/live/stockholm.js:26-48 | the output is exactly the images of the surviving entities, in increasing input position, and an entity is a survivor if and only if its own test admits it |
| Features.BuildAppend | api/live/stockholm.js:26-48 | the features of a concatenated feed are the features of each part, concatenated |
| Features.SkippedEntityIsInvisible | api/live/stockholm.js:27-34 | inserting an entity that is skipped anywhere in a feed leaves the output unchanged, with no error |
| Features.CollectFeatures | api/live/stockholm.js:24-48 | the imperative loop with `continue` and push computes exactly the recursive build |
| Thinning.CeilDiv | api/live/stockholm.js:53 | the step count for `Math.ceil(n / d)` never exceeds `n`, is positive exactly when `n` is, and is at most 1 when `n <= d` |
| Thinning.Stride | api/live/stockholm.js:53 | the stride for `n` features and cap `max` is at least 1 for a non-empty list, at least 2 above the cap, and at most 1 up to the cap |
| Thinning.CeilDivIsCeiling | api/live/stockholm.js:53 | the stride count `CeilDiv(n, d)`, computed by repeated subtraction, is the ceiling of `n / d`: `q * d >= n` and `(q - 1) * d < n` |
| Thinning.CeilUnique | api/live/stockholm.js:53 | no other natural number satisfies those two inequalities, so the ceiling is determined by them |
| Thinning.EveryNth | api/live/stockholm.js:53 | the index filter `i % s === 0` keeps exactly `ceil(n / s)` elements, and the k-th kept element is the input's element at index `k * s` |
| Thinning.Thin | api/live/stockholm.js:51-54 | at most `max` elements are returned unchanged; above `max` the stride is at least 2 and exactly the elements at indices `0, s, 2s, …` survive in order; the first element always survives; nothing new appears |
| Thinning.ThinBound | api/live/stockholm.js:50-54 | the thinned output never exceeds `max`, for every length and every `max > 0` |
| Thinning.ThinIdempotent | api/live/stockholm.js:51-54 | thinning a thinned list returns it unchanged |
| Thinning.ThinByFilter | api/live/stockholm.js:51-54 | the `filter` over indices, written as a loop, computes exactly `Thin` |
| Handler.Transform | api/live/stockholm.js:19-54 | for any decoded feed, the response holds at most 1500 features, no more than there are entities, all strictly inside greater Stockholm with weight 1.0 and the shared timestamp |
| Handler.HasKey | api/live/stockholm.js:8-9 | `!key` treats an unset key and an empty key alike as missing; a key that counts is non-empty |
| Handler.Ok | api/live/stockholm.js:14 | `r.ok` holds exactly for the statuses whose hundreds digit is 2 |
| Handler.Handle | api/live/stockholm.js:7-59 | a missing or empty key fails before the upstream result is consulted; the response is a feature collection with status 200 if and only if the key is set, the upstream answered 2xx and the body decoded; every failure has status 500 and kind `decode-failed` |
| Handler.RunTransform | api/live/stockholm.js:24-54 | running the loop and then the filter imperatively produces exactly `Transform` |
| Handler.FeaturesInStockholm | api/live/stockholm.js:20-21 | every returned feature satisfies `17.7 < lon < 18.35` and `59.15 < lat < 59.50`, with the longitude first |
| Handler.SmallFeedKeepsEverySurvivor | api/live/stockholm.js:52-54 | with at most 1500 survivors the response is the build output unchanged |
| Handler.OneInsideOneOutside | api/live/stockholm.js:34-40 | one vehicle inside and one outside the box give exactly one feature, the inside one, with weight 1.0 |
| Handler.NonFiniteOrMissingSkipped | api/live/stockholm.js:27-33 | a NaN latitude and a missing position each yield no feature, and the response is still a success |
| Handler.EdgePointExcluded | api/live/stockholm.js:21 | a vehicle exactly on the northern edge (latitude 59.5) is not returned |
| Handler.StrideForJustOverDoubleCap | api/live/stockholm.js:51-53 | 3001 features give stride 3 and 1001 kept features |

## Left out

- HTTP plumbing: the request and response objects, the CORS header and JSON
  serialisation (lines 4-5, 56). Status codes and the error body appear only as the `Response` datatype.
- The text of the error details. `String(err)` becomes a `Cause` datatype, not a string.
- Reading `GTFS_KEY` from the environment (line 8). The key is a parameter.
- The wall clock `new Date().toISOString()` (line 23). The timestamp is the
  `now` parameter of `Transform` and `Handle`, any string. It is taken once per
  invocation, and every feature carries that one value.
- The network fetch and the protobuf decode (lines 12-17). Both are foreign
  I/O. The model takes their outcome as the `Upstream` input. A thrown fetch
  becomes `Unreachable`, and a decode error becomes `Undecodable`.
- Defaults filled in by the decoding library: the library may give an absent
  scalar field a default value instead of leaving it unset. The model takes
  the decoded message's optional fields as already resolved to `Some` or `None`.
- IEEE arithmetic: finite latitudes, longitudes and the box constants are
  compared as exact reals. Single-precision rounding of the feed and the double
  rounding of `17.7` and the other constants are not modelled.
- GeoBox.InBox: on two edges the deployed handler differs from the model. A feed
  longitude of 17.7 arrives as the single-precision value 17.700000762939453,
  which is above the western bound, so the handler plots it. A feed latitude of
  59.15 arrives as 59.150001525878906 and passes the southern bound the same way.
  The model excludes all four edges. On the eastern edge the handler agrees,
  because 18.35 rounds up to 18.350000381469727, which is outside the box. On the
  northern edge it agrees too, because 59.5 is exact in both precisions.
- Thinning.CeilDiv: exact integer ceiling, not `Math.ceil` of a floating-point
  quotient. The two agree for feature counts far below 2^53.
- Speed and bearing are copied as they are, whether finite or not. Their JSON
  rendering of non-finite values is serialisation.
- Departure boards, time-label parsing and crowd scoring have no code in
  `api/live/stockholm.js`, so nothing models them.
