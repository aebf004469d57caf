/** The serverless handler for greater Stockholm: the two stages instantiated
    with the fixed box and cap, behind the key check, the upstream status check
    and the decode step, each of which is an input here rather than I/O. */
module Handler {
  import opened Wrappers
  import opened GtfsRealtime
  import opened GeoBox
  import opened Features
  import opened Thinning

  /** `[minLng, minLat, maxLng, maxLat]` of greater Stockholm. */
  const StockholmBox: Box := Box(17.7, 59.15, 18.35, 59.50)

  /** At most this many features are returned. */
  const MaxFeatures: nat := 1500

  /** The one error kind every failure is reported under. */
  const ErrorKind: string := "decode-failed"

  /** What decoding the response body produced. */
  datatype Payload = Decoded(entities: seq<FeedEntity>) | Undecodable(message: string)

  /** What the upstream fetch produced: no response at all, or a status and a body. */
  datatype Upstream = Unreachable(message: string) | Reply(status: int, payload: Payload)

  /** Why an invocation failed; the handler reports each as the error's text. */
  datatype Cause =
    | MissingKey
    | FetchFailed(message: string)
    | UpstreamStatus(status: int)
    | DecodeFailed(message: string)

  /** The two responses the handler sends: a status with a feature collection,
      or a status with an error kind and the cause as details. */
  datatype Response =
    | FeatureCollection(status: int, features: seq<Feature>)
    | Failure(status: int, error: string, details: Cause)

  /** `!key`: an unset variable and an empty string are both missing. */
  predicate HasKey(key: Option<string>)
    ensures key.None? ==> !HasKey(key)
    ensures key == Some("") ==> !HasKey(key)
    ensures HasKey(key) ==> |key.value| > 0
  {
    key.Some? && key.value != ""
  }

  /** `r.ok`: a status in the 2xx range. */
  predicate Ok(status: int)
    // exactly the statuses whose hundreds digit is 2
    ensures Ok(status) <==> status / 100 == 2
  {
    200 <= status <= 299
  }

  /** Both stages for one decoded feed, with `now` the invocation's timestamp. */
  function Transform(entities: seq<FeedEntity>, now: string): (features: seq<Feature>)
    ensures |features| <= MaxFeatures
    ensures |features| <= |entities|
    ensures forall f :: f in features ==> Plotted(f, StockholmBox, now)
  {
    var built := BuildFeatures(entities, StockholmBox, now);
    ThinBound(built, MaxFeatures);
    Thin(built, MaxFeatures)
  }

  /** The handler: the key is checked before anything is fetched, a non-2xx reply
      and an undecodable body are failures, and every failure becomes one
      `decode-failed` response. */
  function Handle(key: Option<string>, upstream: Upstream, now: string): (r: Response)
    ensures r.FeatureCollection? ==> r.status == 200
    ensures r.Failure? ==> r.status == 500 && r.error == ErrorKind
    ensures !HasKey(key) ==> r == Failure(500, ErrorKind, MissingKey)
    ensures r.FeatureCollection? <==>
      HasKey(key) && upstream.Reply? && Ok(upstream.status) && upstream.payload.Decoded?
    ensures r.FeatureCollection? ==>
      && |r.features| <= MaxFeatures
      && |r.features| <= |upstream.payload.entities|
      && forall f :: f in r.features ==> Plotted(f, StockholmBox, now)
  {
    if !HasKey(key) then Failure(500, ErrorKind, MissingKey)
    else
      match upstream
      case Unreachable(msg) => Failure(500, ErrorKind, FetchFailed(msg))
      case Reply(status, payload) =>
        if !Ok(status) then Failure(500, ErrorKind, UpstreamStatus(status))
        else
          match payload
          case Undecodable(msg) => Failure(500, ErrorKind, DecodeFailed(msg))
          case Decoded(entities) => FeatureCollection(200, Transform(entities, now))
  }

  /** The imperative handler body: the loop, then the filter, in the handler's order. */
  method RunTransform(entities: seq<FeedEntity>, now: string) returns (thinned: seq<Feature>)
    ensures thinned == Transform(entities, now)
  {
    var features := CollectFeatures(entities, StockholmBox, now);
    thinned := ThinByFilter(features, MaxFeatures);
  }

  /** Every feature of a successful response lies strictly inside greater
      Stockholm, with its longitude first. */
  lemma FeaturesInStockholm(key: Option<string>, upstream: Upstream, now: string, f: Feature)
    requires Handle(key, upstream, now).FeatureCollection?
    requires f in Handle(key, upstream, now).features
    ensures |f.geometry.coordinates| == 2
    ensures 17.7 < f.geometry.coordinates[0] < 18.35
    ensures 59.15 < f.geometry.coordinates[1] < 59.50
    ensures f.properties.weight == 1.0 && f.properties.ts == now
  {
  }

  /** With at most `MaxFeatures` survivors, the response holds them all, in feed order. */
  lemma SmallFeedKeepsEverySurvivor(entities: seq<FeedEntity>, now: string)
    requires |BuildFeatures(entities, StockholmBox, now)| <= MaxFeatures
    ensures Transform(entities, now) == BuildFeatures(entities, StockholmBox, now)
  {
  }

  /** A feed of one vehicle inside the box and one outside it yields exactly one
      feature, the inside one, with weight 1.0. */
  lemma OneInsideOneOutside(now: string)
    ensures
      var inside := FeedEntity(Some(VehiclePosition(None, None,
                      Some(Position(Finite(59.33), Finite(18.07), None, None)))));
      var outside := FeedEntity(Some(VehiclePosition(None, None,
                      Some(Position(Finite(57.70), Finite(11.97), None, None)))));
      var fs := Transform([inside, outside], now);
      |fs| == 1 && fs[0].geometry.coordinates == [18.07, 59.33] && fs[0].properties.weight == 1.0
  {
  }

  /** An entity with a non-finite latitude, or with no position at all, yields no
      feature and no failure. */
  lemma NonFiniteOrMissingSkipped(key: Option<string>, now: string)
    requires HasKey(key)
    ensures
      var nan := FeedEntity(Some(VehiclePosition(None, None,
                   Some(Position(NaN, Finite(18.07), None, None)))));
      var bare := FeedEntity(Some(VehiclePosition(None, None, None)));
      Handle(key, Reply(200, Decoded([nan, bare])), now) == FeatureCollection(200, [])
  {
  }

  /** A vehicle exactly on the northern edge (latitude 59.5, which single and
      double precision both represent exactly) is not plotted. */
  lemma EdgePointExcluded(now: string)
    ensures
      var e := FeedEntity(Some(VehiclePosition(None, None,
                 Some(Position(Finite(59.5), Finite(18.07), None, None)))));
      Transform([e], now) == []
  {
  }

  /** 3001 features are thinned with stride 3 to the 1001 at indices 0, 3, …, 3000. */
  lemma StrideForJustOverDoubleCap()
    ensures Stride(3001, MaxFeatures) == 3 && CeilDiv(3001, 3) == 1001
  {
    CeilUnique(3001, MaxFeatures, 3);
    CeilUnique(3001, 3, 1001);
  }
}
