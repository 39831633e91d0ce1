/**
  The route fallback of `getCommuteTimes`: once the driving, cycling and
  walking routes have been fetched, a missing or suspicious cycling or
  walking result is replaced by an estimate from the driving distance.
  The three fetches are not modelled; their results are inputs.
 */
module Routing {
  import opened Wrappers

  /** One fetched route. */
  datatype RouteData = RouteData(
    duration: real,   // seconds
    distance: real)   // meters

  /** The result per transport profile; `None` is a failed fetch. */
  datatype CommuteTimes = CommuteTimes(
    car: Option<RouteData>,
    bike: Option<RouteData>,
    foot: Option<RouteData>)

  /** Assumed cycling speed, about 12 mph, in meters per second. */
  const BikeSpeed: real := 5.3
  /** Assumed walking speed, about 3.1 mph, in meters per second. */
  const WalkSpeed: real := 1.4

  /** `Math.round`: the nearest integer, a half rounding up. */
  function Round(x: real): (n: int)
    ensures n as real - 0.5 <= x < n as real + 0.5
  {
    (x + 0.5).Floor
  }

  /** Rounding never reverses an order. */
  lemma RoundMonotone(x: real, y: real)
    requires x <= y
    ensures Round(x) <= Round(y)
  {
  }

  /** The estimate for a profile: the driving distance covered at `speed`. */
  function Estimate(car: RouteData, speed: real): (r: RouteData)
    requires speed > 0.0
    ensures r.distance == car.distance
    ensures car.distance >= 0.0 ==> r.duration >= 0.0
    ensures r.duration == r.duration.Floor as real
    ensures r.duration - 0.5 <= car.distance / speed < r.duration + 0.5
  {
    RouteData(duration := Round(car.distance / speed) as real, distance := car.distance)
  }

  /** A fetched result not to be trusted next to the driving route: missing,
      or exactly as long as the drive. */
  predicate Suspicious(car: RouteData, r: Option<RouteData>) {
    r.None? || r.value.duration == car.duration
  }

  /** The fallback for one profile. */
  function FallbackFor(car: Option<RouteData>, fetched: Option<RouteData>, speed: real): Option<RouteData>
    requires speed > 0.0
  {
    if car.Some? && Suspicious(car.value, fetched) then Some(Estimate(car.value, speed)) else fetched
  }

  /** The results `getCommuteTimes` returns. */
  function Fallback(t: CommuteTimes): CommuteTimes {
    CommuteTimes(t.car, FallbackFor(t.car, t.bike, BikeSpeed), FallbackFor(t.car, t.foot, WalkSpeed))
  }

  /** The driving result is returned as fetched; without it nothing changes;
      with it, a suspicious cycling or walking result becomes the estimate
      and a trustworthy one is kept. Each profile's outcome depends only on
      the driving result and its own fetch. */
  lemma FallbackSpec(t: CommuteTimes)
    ensures Fallback(t).car == t.car
    ensures t.car.None? ==> Fallback(t) == t
    ensures t.car.Some? && Suspicious(t.car.value, t.bike) ==>
              Fallback(t).bike == Some(RouteData(Round(t.car.value.distance / 5.3) as real, t.car.value.distance))
    ensures t.car.Some? && Suspicious(t.car.value, t.foot) ==>
              Fallback(t).foot == Some(RouteData(Round(t.car.value.distance / 1.4) as real, t.car.value.distance))
    ensures t.car.Some? && !Suspicious(t.car.value, t.bike) ==> Fallback(t).bike == t.bike
    ensures t.car.Some? && !Suspicious(t.car.value, t.foot) ==> Fallback(t).foot == t.foot
    ensures forall foot' :: Fallback(t.(foot := foot')).bike == Fallback(t).bike
    ensures forall bike' :: Fallback(t.(bike := bike')).foot == Fallback(t).foot
  {
  }

  /** Running the fallback on its own output changes nothing: an estimate
      that happens to equal the driving duration is replaced by itself. */
  lemma FallbackIdempotent(t: CommuteTimes)
    ensures Fallback(Fallback(t)) == Fallback(t)
  {
  }

  /** An estimated ride is never longer than an estimated walk. */
  lemma EstimateOrder(car: RouteData)
    requires car.distance >= 0.0
    ensures Estimate(car, BikeSpeed).duration <= Estimate(car, WalkSpeed).duration
  {
    assert car.distance / BikeSpeed <= car.distance / WalkSpeed;
    RoundMonotone(car.distance / BikeSpeed, car.distance / WalkSpeed);
  }

  /** The `results` object, whose cycling and walking entries the fallback
      overwrites in place. */
  class Results {
    var car: Option<RouteData>
    var bike: Option<RouteData>
    var foot: Option<RouteData>

    /** The three entries as a value. */
    function Value(): CommuteTimes
      reads this
    {
      CommuteTimes(car, bike, foot)
    }

    constructor (car: Option<RouteData>, bike: Option<RouteData>, foot: Option<RouteData>)
      ensures Value() == CommuteTimes(car, bike, foot)
    {
      this.car := car;
      this.bike := bike;
      this.foot := foot;
    }

    /** The two conditional overwrites. */
    method EstimateMissing()
      modifies this
      ensures Value() == Fallback(old(Value()))
    {
      if car.Some? && (bike.None? || bike.value.duration == car.value.duration) {
        bike := Some(RouteData(duration := Round(car.value.distance / 5.3) as real,
                               distance := car.value.distance));
      }
      if car.Some? && (foot.None? || foot.value.duration == car.value.duration) {
        foot := Some(RouteData(duration := Round(car.value.distance / 1.4) as real,
                               distance := car.value.distance));
      }
    }
  }

  /** `getCommuteTimes` once the three routes are known. */
  method GetCommuteTimes(car: Option<RouteData>, bike: Option<RouteData>, foot: Option<RouteData>)
    returns (times: CommuteTimes)
    ensures times == Fallback(CommuteTimes(car, bike, foot))
  {
    var results := new Results(car, bike, foot);
    results.EstimateMissing();
    times := results.Value();
  }
}
