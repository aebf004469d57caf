/** The already-decoded GTFS Realtime messages the handler reads: a feed is a
    sequence of `FeedEntity`, each of which may carry a `VehiclePosition`.
    Only the fields the handler looks at are kept. */
module GtfsRealtime {
  import opened Wrappers

  /** A floating-point value as JavaScript sees it after decoding. Finite values
      are modelled as exact reals; the two non-finite kinds are kept apart so that
      `Number.isFinite` has something to reject. */
  datatype Float = Finite(value: real) | NaN | Infinite(negative: bool)

  /** `Number.isFinite`: false for NaN and for both infinities. */
  predicate IsFinite(x: Float)
    ensures IsFinite(x) <==> !x.NaN? && !x.Infinite?
  {
    x.Finite?
  }

  /** The `Position` message: latitude and longitude are required, bearing and
      speed optional. */
  datatype Position = Position(
    latitude: Float,
    longitude: Float,
    bearing: Option<Float>,
    speed: Option<Float>)

  /** The `TripDescriptor` message, reduced to its route identifier. */
  datatype TripDescriptor = TripDescriptor(routeId: Option<string>)

  /** The `VehicleDescriptor` message, reduced to its vehicle identifier. */
  datatype VehicleDescriptor = VehicleDescriptor(id: Option<string>)

  /** The `VehiclePosition` message. */
  datatype VehiclePosition = VehiclePosition(
    trip: Option<TripDescriptor>,
    vehicle: Option<VehicleDescriptor>,
    position: Option<Position>)

  /** The `FeedEntity` message, reduced to its vehicle position; `vehicle` is
      absent for entities that carry trip updates or alerts instead. */
  datatype FeedEntity = FeedEntity(vehicle: Option<VehiclePosition>)
}
