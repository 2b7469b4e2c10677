/** Request validation: the per-location rules, the location-count rule, the
    bounds declared on the radius field, and the cross-field rule that gives a
    geographic search a default radius. Each validator returns either the
    validated value or the error it raises. */
module Validation {
  import opened Wrappers
  import opened Domain
  import opened Text
  import Distance

  const MAX_LOCATIONS: nat := 20
  const MIN_RADIUS: real := 0.1
  const MAX_RADIUS: real := 1000.0
  /** The radius injected when a geographic search gives none. */
  const DEFAULT_RADIUS: real := 50.0

  /** Why one location entry is refused. */
  datatype LocationError =
    | BothStateAndCoordinates
    | MissingStateOrCoordinates
    | InvalidStateCode(state: string)
    | LatitudeOutOfRange(lat: real)
    | LongitudeOutOfRange(lng: real)

  /** Why the `locations` field is refused: absent, one or more entries
      refused (one slot per entry, `None` for an accepted one), or a list of
      the wrong length. */
  datatype LocationsError =
    | LocationsMissing
    | ItemErrors(errors: seq<Option<LocationError>>)
    | NoLocations
    | TooManyLocations

  datatype RadiusError = RadiusBelowMinimum | RadiusAboveMaximum

  /** The field errors of a refused request, reported together. */
  datatype RequestErrors = RequestErrors(locations: Option<LocationsError>, radiusMiles: Option<RadiusError>)

  /** `LocationSerializer.validate`: exactly one of a state code and a full
      coordinate pair; the state code is upper-cased and must be known; the
      coordinates must lie within the inclusive bounds, latitude checked
      first. */
  function ValidateLocation(usStates: set<string>, raw: RawLocation): (r: Result<Location, LocationError>)
    ensures r.Ok? ==> (r.value.StateLocation? <==> raw.state.Some?)
    ensures r.Ok? && r.value.StateLocation? ==> r.value.state in usStates
    ensures r.Ok? && r.value.GeoLocation? ==> -90.0 <= r.value.lat <= 90.0 && -180.0 <= r.value.lng <= 180.0
  {
    var hasState := raw.state.Some?;
    var hasCoords := raw.lat.Some? && raw.lng.Some?;
    if hasState && hasCoords then Err(BothStateAndCoordinates)
    else if !hasState && !hasCoords then Err(MissingStateOrCoordinates)
    else if hasState then
      if Upper(raw.state.value) !in usStates then Err(InvalidStateCode(raw.state.value))
      else Ok(StateLocation(Upper(raw.state.value)))
    else if !(-90.0 <= raw.lat.value <= 90.0) then Err(LatitudeOutOfRange(raw.lat.value))
    else if !(-180.0 <= raw.lng.value <= 180.0) then Err(LongitudeOutOfRange(raw.lng.value))
    else Ok(GeoLocation(raw.lat.value, raw.lng.value))
  }

  /** The per-entry pass of the list field: every entry validated; if any is
      refused, the error of each entry (`None` where it was accepted). */
  function ValidateLocationItems(usStates: set<string>, raws: seq<RawLocation>): (r: Result<seq<Location>, seq<Option<LocationError>>>)
    ensures r.Ok? ==> |r.value| == |raws|
    ensures r.Err? ==> |r.error| == |raws|
  {
    if raws == [] then Ok([])
    else
      var init := ValidateLocationItems(usStates, raws[..|raws| - 1]);
      var last := ValidateLocation(usStates, raws[|raws| - 1]);
      match (init, last)
      case (Ok(ls), Ok(l)) => Ok(ls + [l])
      case (Ok(ls), Err(e)) => Err(seq(|ls|, _ => None) + [Some(e)])
      case (Err(es), Ok(_)) => Err(es + [None])
      case (Err(es), Err(e)) => Err(es + [Some(e)])
  }

  /** `validate_locations`: between one and twenty entries. */
  function ValidateLocationCount(locations: seq<Location>): (r: Result<seq<Location>, LocationsError>)
    ensures r.Ok? <==> 1 <= |locations| <= MAX_LOCATIONS
    ensures r.Ok? ==> r.value == locations
  {
    if locations == [] then Err(NoLocations)
    else if |locations| > MAX_LOCATIONS then Err(TooManyLocations)
    else Ok(locations)
  }

  /** The whole `locations` field: required, entries first, then the count. */
  function ValidateLocationsField(usStates: set<string>, raw: Option<seq<RawLocation>>): (r: Result<seq<Location>, LocationsError>)
    ensures raw.None? ==> r == Err(LocationsMissing)
    ensures r.Ok? ==> raw.Some? && |r.value| == |raw.value| && 1 <= |r.value| <= MAX_LOCATIONS
  {
    match raw
    case None => Err(LocationsMissing)
    case Some(raws) =>
      match ValidateLocationItems(usStates, raws)
      case Err(es) => Err(ItemErrors(es))
      case Ok(ls) => ValidateLocationCount(ls)
  }

  /** The declared bounds of the optional `radius_miles` field. */
  function ValidateRadius(radiusMiles: Option<real>): (r: Result<Option<real>, RadiusError>)
    ensures r.Ok? ==> r.value == radiusMiles
    ensures r.Ok? && r.value.Some? ==> MIN_RADIUS <= r.value.value <= MAX_RADIUS
    ensures r.Err? ==> radiusMiles.Some?
  {
    match radiusMiles
    case None => Ok(None)
    case Some(r) =>
      if r < MIN_RADIUS then Err(RadiusBelowMinimum)
      else if r > MAX_RADIUS then Err(RadiusAboveMaximum)
      else Ok(Some(r))
  }

  /** Some location carries a coordinate pair. */
  predicate HasGeoLocation(locations: seq<Location>)
  {
    exists i :: 0 <= i < |locations| && locations[i].GeoLocation?
  }

  /** `BusinessSearchRequestSerializer.validate`: the radius after the
      cross-field rule. */
  function ApplyDefaultRadius(locations: seq<Location>, radiusMiles: Option<real>): (r: Option<real>)
    ensures radiusMiles.Some? ==> r == radiusMiles
    ensures r.Some? <==> radiusMiles.Some? || HasGeoLocation(locations)
  {
    if HasGeoLocation(locations) && radiusMiles.None? then Some(DEFAULT_RADIUS) else radiusMiles
  }

  /** The request serializer as a whole, followed by the construction of the
      search parameters from the validated data: field errors are collected
      over all fields; only a request without field errors reaches the
      cross-field rule. */
  function ValidateRequest(usStates: set<string>, raw: RawRequest): (r: Result<SearchParams, RequestErrors>)
    ensures r.Ok? ==> 1 <= |r.value.locations| <= MAX_LOCATIONS
    ensures r.Ok? ==> (HasGeoLocation(r.value.locations) ==> r.value.radiusMiles.Some?)
    ensures r.Ok? && r.value.radiusMiles.Some? ==> MIN_RADIUS <= r.value.radiusMiles.value <= MAX_RADIUS
    ensures r.Err? ==> r.error.locations.Some? || r.error.radiusMiles.Some?
  {
    var locations := ValidateLocationsField(usStates, raw.locations);
    var radius := ValidateRadius(raw.radiusMiles);
    if locations.Err? || radius.Err? then
      Err(RequestErrors(if locations.Err? then Some(locations.error) else None,
                        if radius.Err? then Some(radius.error) else None))
    else
      Ok(SearchParams(locations.value, ApplyDefaultRadius(locations.value, radius.value), raw.text.GetOr("")))
  }

  // ---------------------------------------------------------------------------
  // What an accepted location looks like

  /** A location as the validator emits it: a known upper-case state code, or
      coordinates within the bounds. */
  predicate WellFormedLocation(usStates: set<string>, loc: Location)
  {
    match loc
    case StateLocation(code) => code in usStates && forall i :: 0 <= i < |code| ==> !IsLowerLetter(code[i])
    case GeoLocation(lat, lng) => Distance.ValidateCoordinates(Some(lat), Some(lng))
  }

  /** The request entry a location is written as. */
  function ToRaw(loc: Location): RawLocation
  {
    match loc
    case StateLocation(code) => RawLocation(Some(code), None, None)
    case GeoLocation(lat, lng) => RawLocation(None, Some(lat), Some(lng))
  }

  /** Every accepted entry is exactly one kind: a state entry becomes its
      upper-cased, known code; a coordinate entry keeps its coordinates, which
      `validate_coordinates` accepts. */
  lemma AcceptedLocation(usStates: set<string>, raw: RawLocation)
    requires ValidateLocation(usStates, raw).Ok?
    ensures var loc := ValidateLocation(usStates, raw).value;
      && WellFormedLocation(usStates, loc)
      && (loc.StateLocation? <==> raw.state.Some?)
      && (loc.StateLocation? ==> loc.state == Upper(raw.state.value) && !(raw.lat.Some? && raw.lng.Some?))
      && (loc.GeoLocation? ==> raw.lat == Some(loc.lat) && raw.lng == Some(loc.lng))
  {
    if raw.state.Some? {
      UpperFacts(raw.state.value);
    }
  }

  /** A state code and a coordinate pair together are refused as both; no
      state and no full pair (a lone latitude or longitude included) are
      refused as neither. */
  lemma ExactlyOneKind(usStates: set<string>, raw: RawLocation)
    ensures raw.state.Some? && raw.lat.Some? && raw.lng.Some? ==>
              ValidateLocation(usStates, raw) == Err(BothStateAndCoordinates)
    ensures raw.state.None? && (raw.lat.None? || raw.lng.None?) ==>
              ValidateLocation(usStates, raw) == Err(MissingStateOrCoordinates)
    ensures ValidateLocation(usStates, raw).Ok? ==> (raw.state.Some? <==> !(raw.lat.Some? && raw.lng.Some?))
  {
  }

  /** The state code is matched without regard to case: an entry and its
      upper-cased form are accepted or refused together, as the same location. */
  lemma StateCaseIgnored(usStates: set<string>, s: string, lat: Option<real>, lng: Option<real>)
    ensures ValidateLocation(usStates, RawLocation(Some(s), lat, lng)).Ok?
            <==> ValidateLocation(usStates, RawLocation(Some(Upper(s)), lat, lng)).Ok?
    ensures ValidateLocation(usStates, RawLocation(Some(s), lat, lng)).Ok? ==>
              ValidateLocation(usStates, RawLocation(Some(s), lat, lng))
              == ValidateLocation(usStates, RawLocation(Some(Upper(s)), lat, lng))
  {
    UpperFacts(s);
  }

  /** When both coordinates are out of range the latitude is reported, so an
      entry carries at most one coordinate error. */
  lemma LatitudeReportedFirst(usStates: set<string>, lat: real, lng: real)
    requires lat < -90.0 || lat > 90.0
    ensures ValidateLocation(usStates, RawLocation(None, Some(lat), Some(lng))) == Err(LatitudeOutOfRange(lat))
  {
  }

  /** A coordinate entry is accepted exactly when `validate_coordinates`
      accepts its pair. */
  lemma CoordinatesAgree(usStates: set<string>, lat: real, lng: real)
    ensures ValidateLocation(usStates, RawLocation(None, Some(lat), Some(lng))).Ok?
            <==> Distance.ValidateCoordinates(Some(lat), Some(lng))
  {
  }

  /** Writing a well-formed location as a request entry and validating it
      gives the location back. */
  lemma LocationRoundTrip(usStates: set<string>, loc: Location)
    requires WellFormedLocation(usStates, loc)
    ensures ValidateLocation(usStates, ToRaw(loc)) == Ok(loc)
  {
    if loc.StateLocation? {
      UpperOfUpper(loc.state);
    }
  }

  // ---------------------------------------------------------------------------
  // The list, the radius and the request

  /** The entry pass accepts exactly when every entry is accepted, and then
      returns their locations in order; otherwise it reports one slot per
      entry, filled exactly for the refused ones. */
  lemma {:induction false} LocationItemsFacts(usStates: set<string>, raws: seq<RawLocation>)
    ensures ValidateLocationItems(usStates, raws).Ok?
            <==> forall i :: 0 <= i < |raws| ==> ValidateLocation(usStates, raws[i]).Ok?
    ensures ValidateLocationItems(usStates, raws).Ok? ==>
              var ls := ValidateLocationItems(usStates, raws).value;
              |ls| == |raws| && forall i :: 0 <= i < |raws| ==> ValidateLocation(usStates, raws[i]) == Ok(ls[i])
    ensures ValidateLocationItems(usStates, raws).Err? ==>
              var es := ValidateLocationItems(usStates, raws).error;
              |es| == |raws|
              && forall i :: 0 <= i < |raws| ==>
                   (es[i].Some? <==> ValidateLocation(usStates, raws[i]).Err?)
                   && (es[i].Some? ==> es[i].value == ValidateLocation(usStates, raws[i]).error)
  {
    if raws != [] {
      var init := raws[..|raws| - 1];
      LocationItemsFacts(usStates, init);
      assert forall i :: 0 <= i < |init| ==> init[i] == raws[i];
    }
  }

  /** The `locations` field accepts exactly a present list of one to twenty
      entries that are all accepted, and returns their locations in order. */
  lemma LocationsFieldFacts(usStates: set<string>, raw: Option<seq<RawLocation>>)
    ensures ValidateLocationsField(usStates, raw).Ok? <==>
              raw.Some? && 1 <= |raw.value| <= MAX_LOCATIONS
              && forall i :: 0 <= i < |raw.value| ==> ValidateLocation(usStates, raw.value[i]).Ok?
    ensures ValidateLocationsField(usStates, raw).Ok? ==>
              var ls := ValidateLocationsField(usStates, raw).value;
              |ls| == |raw.value|
              && forall i :: 0 <= i < |ls| ==> ValidateLocation(usStates, raw.value[i]) == Ok(ls[i])
    ensures raw == Some([]) ==> ValidateLocationsField(usStates, raw) == Err(NoLocations)
  {
    if raw.Some? {
      LocationItemsFacts(usStates, raw.value);
    }
  }

  /** The radius field accepts exactly the values from 0.1 to 1000 inclusive,
      unchanged, and accepts its absence. */
  lemma RadiusBounds(r: real)
    ensures ValidateRadius(Some(r)).Ok? <==> MIN_RADIUS <= r <= MAX_RADIUS
    ensures ValidateRadius(Some(r)).Ok? ==> ValidateRadius(Some(r)).value == Some(r)
    ensures ValidateRadius(None) == Ok(None)
  {
  }

  /** The default radius is injected exactly when some location has a
      coordinate pair and no radius was given; a given radius is kept, and a
      search without coordinates keeps an absent radius absent. */
  lemma DefaultRadiusRule(locations: seq<Location>, radiusMiles: Option<real>)
    ensures ApplyDefaultRadius(locations, radiusMiles) != radiusMiles
            <==> GeoPoints(locations) != [] && radiusMiles.None?
    ensures ApplyDefaultRadius(locations, radiusMiles) != radiusMiles ==>
              ApplyDefaultRadius(locations, radiusMiles) == Some(DEFAULT_RADIUS)
    ensures GeoPoints(locations) != [] ==> ApplyDefaultRadius(locations, radiusMiles).Some?
  {
    SplitByKind(locations);
  }

  /** An accepted request is ready to search: one to twenty well-formed
      locations, a radius within the bounds or the default, a radius whenever
      there are coordinates, and the text as given (empty when absent). */
  lemma AcceptedRequest(usStates: set<string>, raw: RawRequest)
    requires ValidateRequest(usStates, raw).Ok?
    ensures var p := ValidateRequest(usStates, raw).value;
      && 1 <= |p.locations| <= MAX_LOCATIONS
      && (forall i :: 0 <= i < |p.locations| ==> WellFormedLocation(usStates, p.locations[i]))
      && (p.radiusMiles.Some? ==> MIN_RADIUS <= p.radiusMiles.value <= MAX_RADIUS)
      && (GeoPoints(p.locations) != [] ==> p.radiusMiles.Some?)
      && (raw.radiusMiles.Some? ==> p.radiusMiles == raw.radiusMiles)
      && p.text == raw.text.GetOr("")
  {
    var p := ValidateRequest(usStates, raw).value;
    LocationsFieldFacts(usStates, raw.locations);
    DefaultRadiusRule(p.locations, raw.radiusMiles);
    forall i | 0 <= i < |p.locations| ensures WellFormedLocation(usStates, p.locations[i]) {
      AcceptedLocation(usStates, raw.locations.value[i]);
    }
  }

  /** A request is refused exactly when a field is, and every refused field is
      reported. */
  lemma RefusedRequest(usStates: set<string>, raw: RawRequest)
    ensures ValidateRequest(usStates, raw).Err? <==>
              ValidateLocationsField(usStates, raw.locations).Err? || ValidateRadius(raw.radiusMiles).Err?
    ensures ValidateRequest(usStates, raw).Err? ==>
              var e := ValidateRequest(usStates, raw).error;
              && (e.locations.Some? <==> ValidateLocationsField(usStates, raw.locations).Err?)
              && (e.radiusMiles.Some? <==> ValidateRadius(raw.radiusMiles).Err?)
  {
  }
}
