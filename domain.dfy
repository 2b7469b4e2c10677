/** The entities and value objects of the search: the business row, the location
    filters, the raw request as it arrives, and the SearchParams / SearchResult
    value objects handed between the validator, the orchestrator and the response
    builder. */
module Domain {
  import opened Wrappers

  /** One row of the business table. The row's columns never change during a
      search; the radius filter attaches the computed `distance` to the row object
      in place, so that is the one mutable field. */
  class Business {
    const id: int
    const name: string
    const city: string
    const state: string
    const latitude: real
    const longitude: real
    var distance: Option<real>

    constructor (id: int, name: string, city: string, state: string, latitude: real, longitude: real)
      ensures this.id == id && this.name == name && this.city == city && this.state == state
      ensures this.latitude == latitude && this.longitude == longitude
      ensures distance == None
    {
      this.id := id;
      this.name := name;
      this.city := city;
      this.state := state;
      this.latitude := latitude;
      this.longitude := longitude;
      distance := None;
    }
  }

  /** A search point in decimal degrees. */
  datatype Point = Point(lat: real, lng: real)

  /** A validated location filter: exactly one of a state code or a coordinate pair. */
  datatype Location =
    | StateLocation(state: string)
    | GeoLocation(lat: real, lng: real)

  /** A location entry as it arrives in the request body; `None` is an absent key. */
  datatype RawLocation = RawLocation(state: Option<string>, lat: Option<real>, lng: Option<real>)

  /** The request body as it arrives; `None` is an absent key. */
  datatype RawRequest = RawRequest(locations: Option<seq<RawLocation>>, radiusMiles: Option<real>, text: Option<string>)

  /** Parameters of one search, built from the validated request. */
  datatype SearchParams = SearchParams(locations: seq<Location>, radiusMiles: Option<real>, text: string)

  /** Everything the orchestrator reports about one search. */
  datatype SearchResult = SearchResult(
    businesses: seq<Business>,
    totalFound: nat,
    filtersApplied: seq<string>,
    locations: seq<Location>,
    geoLocations: seq<Point>,
    radiusUsed: real,
    radiusExpanded: bool,
    radiiTried: seq<real>,
    radiusMiles: Option<real>)

  /** The state codes of the state filters, in input order. */
  function StateCodes(locations: seq<Location>): seq<string>
  {
    if locations == [] then []
    else
      (match locations[0]
       case StateLocation(code) => [code]
       case GeoLocation(_, _) => [])
      + StateCodes(locations[1..])
  }

  /** The points of the coordinate filters, in input order. */
  function GeoPoints(locations: seq<Location>): seq<Point>
  {
    if locations == [] then []
    else
      (match locations[0]
       case StateLocation(_) => []
       case GeoLocation(lat, lng) => [Point(lat, lng)])
      + GeoPoints(locations[1..])
  }

  /** Splitting the filters by kind loses nothing and invents nothing: the two
      lists together are as long as the input, every code and every point comes
      from an input filter of that kind, and a list is empty exactly when the
      input has no filter of its kind. */
  lemma {:induction false} SplitByKind(locations: seq<Location>)
    ensures |StateCodes(locations)| + |GeoPoints(locations)| == |locations|
    ensures forall c :: c in StateCodes(locations) ==> StateLocation(c) in locations
    ensures forall p :: p in GeoPoints(locations) ==> GeoLocation(p.lat, p.lng) in locations
    ensures StateCodes(locations) != [] <==> exists i :: 0 <= i < |locations| && locations[i].StateLocation?
    ensures GeoPoints(locations) != [] <==> exists i :: 0 <= i < |locations| && locations[i].GeoLocation?
  {
    if locations != [] {
      var rest := locations[1..];
      SplitByKind(rest);
      assert forall i :: 0 <= i < |rest| ==> rest[i] == locations[i + 1];
      forall c | c in StateCodes(locations) ensures StateLocation(c) in locations {
        if c !in StateCodes(rest) {
          assert locations[0] == StateLocation(c);
        }
      }
      forall p | p in GeoPoints(locations) ensures GeoLocation(p.lat, p.lng) in locations {
        if p !in GeoPoints(rest) {
          assert locations[0] == GeoLocation(p.lat, p.lng);
        }
      }
      if StateCodes(locations) != [] && !locations[0].StateLocation? {
        var i :| 0 <= i < |rest| && rest[i].StateLocation?;
        assert locations[i + 1].StateLocation?;
      }
      if GeoPoints(locations) != [] && !locations[0].GeoLocation? {
        var i :| 0 <= i < |rest| && rest[i].GeoLocation?;
        assert locations[i + 1].GeoLocation?;
      }
    }
  }

  /** Every filter reaches the list of its kind: a state filter's code is
      among the codes, a coordinate filter's point among the points. */
  lemma {:induction false} SplitComplete(locations: seq<Location>)
    ensures forall i :: 0 <= i < |locations| && locations[i].StateLocation? ==>
              locations[i].state in StateCodes(locations)
    ensures forall i :: 0 <= i < |locations| && locations[i].GeoLocation? ==>
              Point(locations[i].lat, locations[i].lng) in GeoPoints(locations)
  {
    if locations != [] {
      var rest := locations[1..];
      SplitComplete(rest);
      assert forall i :: 1 <= i < |locations| ==> locations[i] == rest[i - 1];
    }
  }

  /** Splitting a list extended by one filter extends the list of that
      filter's kind by its code or point, in order. */
  lemma {:induction false} SplitOfAppended(locations: seq<Location>, loc: Location)
    ensures StateCodes(locations + [loc]) == StateCodes(locations) + StateCodes([loc])
    ensures GeoPoints(locations + [loc]) == GeoPoints(locations) + GeoPoints([loc])
  {
    if locations != [] {
      SplitOfAppended(locations[1..], loc);
      assert (locations + [loc])[1..] == locations[1..] + [loc];
    }
  }
}
