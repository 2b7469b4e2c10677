/** The distance helpers: radius membership, the radius filter over business
    rows, and the coordinate range check. The great-circle distance itself
    (Haversine on floats) is a parameter of the model. */
module Distance {
  import opened Wrappers
  import opened Domain
  import opened Records

  /** `haversine_distance(lat1, lon1, lat2, lon2)`: miles between two points. */
  type Haversine = (real, real, real, real) -> real

  /** Distance in miles from a business to a search point. */
  function DistanceTo(haversine: Haversine, b: Business, p: Point): real
  {
    haversine(b.latitude, b.longitude, p.lat, p.lng)
  }

  /** `is_within_radius`: the boundary counts as inside. */
  predicate IsWithinRadius(haversine: Haversine, businessLat: real, businessLon: real,
                           searchLat: real, searchLon: real, radiusMiles: real): (r: bool)
    ensures haversine(businessLat, businessLon, searchLat, searchLon) == radiusMiles ==> r
    ensures radiusMiles < haversine(businessLat, businessLon, searchLat, searchLon) ==> !r
  {
    haversine(businessLat, businessLon, searchLat, searchLon) <= radiusMiles
  }

  /** Radius membership of a business row, as a filter condition. */
  function InRadius(haversine: Haversine, p: Point, radiusMiles: real): Business -> bool
  {
    (b: Business) => IsWithinRadius(haversine, b.latitude, b.longitude, p.lat, p.lng, radiusMiles)
  }

  /** The businesses within `radiusMiles` of `p`, in input order. */
  function WithinRadius(bs: seq<Business>, haversine: Haversine, p: Point, radiusMiles: real): (r: seq<Business>)
    ensures |r| <= |bs|
    ensures forall i :: 0 <= i < |r| ==> r[i] in bs && DistanceTo(haversine, r[i], p) <= radiusMiles
  {
    FilterMembership(bs, InRadius(haversine, p, radiusMiles));
    Filter(bs, InRadius(haversine, p, radiusMiles))
  }

  /** The radius filter keeps exactly the records at distance at most the radius,
      never grows its input, and maps an empty input to an empty output. */
  lemma WithinRadiusMembership(bs: seq<Business>, haversine: Haversine, p: Point, radiusMiles: real)
    ensures forall i :: 0 <= i < |WithinRadius(bs, haversine, p, radiusMiles)| ==>
              var b := WithinRadius(bs, haversine, p, radiusMiles)[i];
              b in bs && DistanceTo(haversine, b, p) <= radiusMiles
    ensures forall i :: 0 <= i < |bs| && DistanceTo(haversine, bs[i], p) <= radiusMiles ==>
              bs[i] in WithinRadius(bs, haversine, p, radiusMiles)
    ensures |WithinRadius(bs, haversine, p, radiusMiles)| <= |bs|
    ensures bs == [] ==> WithinRadius(bs, haversine, p, radiusMiles) == []
  {
    FilterMembership(bs, InRadius(haversine, p, radiusMiles));
  }

  /** A record within radius `r` is within every larger radius, so every record
      found at `r` is found again at `r2`. */
  lemma RadiusMonotone(bs: seq<Business>, haversine: Haversine, p: Point, r: real, r2: real)
    requires r <= r2
    ensures forall i :: 0 <= i < |WithinRadius(bs, haversine, p, r)| ==>
              WithinRadius(bs, haversine, p, r)[i] in WithinRadius(bs, haversine, p, r2)
    ensures WithinRadius(bs, haversine, p, r) != [] ==> WithinRadius(bs, haversine, p, r2) != []
  {
    WithinRadiusMembership(bs, haversine, p, r);
    WithinRadiusMembership(bs, haversine, p, r2);
    var w := WithinRadius(bs, haversine, p, r);
    forall i | 0 <= i < |w| ensures w[i] in WithinRadius(bs, haversine, p, r2) {
      var k :| 0 <= k < |bs| && bs[k] == w[i];
    }
    if w != [] {
      assert w[0] in WithinRadius(bs, haversine, p, r2);
    }
  }

  /** With radius 0 a point admits itself, given a distance that is 0 between
      identical points. */
  lemma ZeroRadiusAdmitsSamePoint(haversine: Haversine, lat: real, lon: real)
    requires haversine(lat, lon, lat, lon) == 0.0
    ensures IsWithinRadius(haversine, lat, lon, lat, lon, 0.0)
  {
  }

  /** `get_businesses_within_radius`: keeps the records within the radius, in
      input order, and writes the computed distance onto each record it keeps;
      records it drops are not touched. */
  method GetBusinessesWithinRadius(bs: seq<Business>, haversine: Haversine, p: Point, radiusMiles: real)
    returns (inRadius: seq<Business>)
    modifies set b | b in bs
    ensures inRadius == WithinRadius(bs, haversine, p, radiusMiles)
    ensures forall b :: b in inRadius ==> b.distance.Some? && b.distance.value <= radiusMiles
    ensures forall b :: b in bs ==>
              b.distance == if DistanceTo(haversine, b, p) <= radiusMiles
                            then Some(DistanceTo(haversine, b, p)) else old(b.distance)
    ensures inRadius == [] ==> forall b :: b in bs ==> b.distance == old(b.distance)
  {
    inRadius := [];
    for i := 0 to |bs|
      invariant inRadius == WithinRadius(bs[..i], haversine, p, radiusMiles)
      invariant forall b :: b in bs ==>
                  b.distance == if b in bs[..i] && DistanceTo(haversine, b, p) <= radiusMiles
                                then Some(DistanceTo(haversine, b, p)) else old(b.distance)
    {
      assert bs[..i + 1][..i] == bs[..i];
      assert bs[..i + 1] == bs[..i] + [bs[i]];
      var business := bs[i];
      var distance := haversine(business.latitude, business.longitude, p.lat, p.lng);
      if distance <= radiusMiles {
        business.distance := Some(distance);
        inRadius := inRadius + [business];
      }
    }
    assert bs[..|bs|] == bs;
    WithinRadiusMembership(bs, haversine, p, radiusMiles);
    if inRadius == [] {
      forall b | b in bs ensures b.distance == old(b.distance) {
        var i :| 0 <= i < |bs| && bs[i] == b;
      }
    }
  }

  /** `validate_coordinates`. `None` stands for a value Python's `float()`
      cannot convert (None, a non-numeric string): the check answers false
      instead of raising. */
  function ValidateCoordinates(lat: Option<real>, lon: Option<real>): (r: bool)
    ensures r ==> lat.Some? && lon.Some?
    ensures r ==> -90.0 <= lat.value <= 90.0 && -180.0 <= lon.value <= 180.0
  {
    match (lat, lon)
    case (Some(la), Some(lo)) => -90.0 <= la <= 90.0 && -180.0 <= lo <= 180.0
    case _ => false
  }

  /** The bounds are inclusive at both ends, anything beyond them is refused, and
      an unconvertible value is refused rather than raising. */
  lemma ValidateCoordinatesBounds(lat: real, lon: real)
    ensures ValidateCoordinates(Some(90.0), Some(180.0)) && ValidateCoordinates(Some(-90.0), Some(-180.0))
    ensures (lat < -90.0 || lat > 90.0) ==> !ValidateCoordinates(Some(lat), Some(lon))
    ensures (lon < -180.0 || lon > 180.0) ==> !ValidateCoordinates(Some(lat), Some(lon))
    ensures !ValidateCoordinates(None, Some(lon)) && !ValidateCoordinates(Some(lat), None)
    ensures -90.0 <= lat <= 90.0 && -180.0 <= lon <= 180.0 ==> ValidateCoordinates(Some(lat), Some(lon))
  {
  }
}
