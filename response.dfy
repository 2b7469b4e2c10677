/** Assembly of the success response: the serialized records, and the search
    metadata with its capped counts, per-location summary and the fields that
    appear only for geographic or cached searches. */
module Response {
  import opened Wrappers
  import opened Domain
  import opened Expansion
  import opened Distance
  import opened SearchService

  /** The cap on the reported total. */
  const TOTAL_FOUND_CAP: nat := 100

  /** A record as the response serializes it. */
  datatype BusinessView = BusinessView(id: int, name: string, city: string, state: string, latitude: real, longitude: real)

  /** One entry of the per-location summary. */
  datatype LocationSummary = StateSummary(state: string) | GeoSummary(lat: real, lng: real)

  datatype Performance = Performance(processingTimeMs: real, searchId: string, cached: bool)

  /** The search metadata; `None` is a key the response leaves out. */
  datatype SearchMetadata = SearchMetadata(
    totalCount: nat,
    totalFound: nat,
    radiusUsed: real,
    radiusExpanded: bool,
    filtersApplied: seq<string>,
    searchLocations: seq<LocationSummary>,
    performance: Performance,
    radiusRequested: Option<real>,
    radiusExpansionSequence: Option<seq<real>>,
    cacheKey: Option<string>)

  datatype SuccessResponse = SuccessResponse(results: seq<BusinessView>, searchMetadata: SearchMetadata)

  function Min(a: nat, b: nat): nat
  {
    if a <= b then a else b
  }

  /** The serialized fields of a record. */
  function View(b: Business): BusinessView
  {
    BusinessView(b.id, b.name, b.city, b.state, b.latitude, b.longitude)
  }

  function Views(bs: seq<Business>): seq<BusinessView>
  {
    seq(|bs|, i requires 0 <= i < |bs| => View(bs[i]))
  }

  /** The summary entry of one location, typed by its kind. */
  function Summary(loc: Location): LocationSummary
  {
    match loc
    case StateLocation(code) => StateSummary(code)
    case GeoLocation(lat, lng) => GeoSummary(lat, lng)
  }

  function Summaries(locations: seq<Location>): seq<LocationSummary>
  {
    seq(|locations|, i requires 0 <= i < |locations| => Summary(locations[i]))
  }

  /** The metadata of a successful search. The processing time and the search
      id come from the metrics service. */
  function SuccessMetadata(result: SearchResult, searchId: string, processingTimeMs: real, cached: bool,
                           cacheKey: Option<string>): (r: SearchMetadata)
    requires result.geoLocations != [] ==> result.radiusMiles.Some?
    ensures r.totalCount == |result.businesses|
    ensures r.totalFound <= TOTAL_FOUND_CAP && r.totalFound <= result.totalFound
    ensures |r.searchLocations| == |result.locations|
    ensures r.radiusRequested.Some? <==> result.geoLocations != []
    ensures r.cacheKey.Some? ==> cached
  {
    SearchMetadata(
      |result.businesses|,
      Min(result.totalFound, TOTAL_FOUND_CAP),
      result.radiusUsed,
      result.radiusExpanded,
      result.filtersApplied,
      Summaries(result.locations),
      Performance(processingTimeMs, searchId, cached),
      if result.geoLocations != [] then Some(result.radiusMiles.value) else None,
      if result.geoLocations != [] && result.radiiTried != [] then Some(result.radiiTried) else None,
      if cached && cacheKey.Some? && cacheKey.value != "" then cacheKey else None)
  }

  /** `build_success_response`: builds the location summary entry by entry and
      adds the optional keys. */
  method BuildSuccessResponse(result: SearchResult, searchId: string, processingTimeMs: real, cached: bool,
                              cacheKey: Option<string>) returns (response: SuccessResponse)
    requires result.geoLocations != [] ==> result.radiusMiles.Some?
    ensures response == SuccessResponse(Views(result.businesses),
                                        SuccessMetadata(result, searchId, processingTimeMs, cached, cacheKey))
  {
    var searchLocationsSummary: seq<LocationSummary> := [];
    for i := 0 to |result.locations|
      invariant searchLocationsSummary == Summaries(result.locations[..i])
    {
      match result.locations[i]
      case StateLocation(code) =>
        searchLocationsSummary := searchLocationsSummary + [StateSummary(code)];
      case GeoLocation(lat, lng) =>
        searchLocationsSummary := searchLocationsSummary + [GeoSummary(lat, lng)];
    }
    assert result.locations[..|result.locations|] == result.locations;
    var metadata := SearchMetadata(
      |result.businesses|,
      Min(result.totalFound, TOTAL_FOUND_CAP),
      result.radiusUsed,
      result.radiusExpanded,
      result.filtersApplied,
      searchLocationsSummary,
      Performance(processingTimeMs, searchId, cached),
      None, None, None);
    if result.geoLocations != [] {
      metadata := metadata.(radiusRequested := Some(result.radiusMiles.value));
      if result.radiiTried != [] {
        metadata := metadata.(radiusExpansionSequence := Some(result.radiiTried));
      }
    }
    if cached && cacheKey.Some? && cacheKey.value != "" {
      metadata := metadata.(cacheKey := cacheKey);
    }
    response := SuccessResponse(Views(result.businesses), metadata);
  }

  // ---------------------------------------------------------------------------
  // Properties of the metadata

  /** The count returned is the number of records; the total found is the
      search's total capped at 100, so never above 100 or the search's total,
      and equal to the search's total when that is at most 100. */
  lemma CountsCapped(result: SearchResult, searchId: string, processingTimeMs: real, cached: bool, cacheKey: Option<string>)
    requires result.geoLocations != [] ==> result.radiusMiles.Some?
    ensures var m := SuccessMetadata(result, searchId, processingTimeMs, cached, cacheKey);
      && m.totalCount == |result.businesses|
      && m.totalFound <= TOTAL_FOUND_CAP && m.totalFound <= result.totalFound
      && (result.totalFound <= TOTAL_FOUND_CAP ==> m.totalFound == result.totalFound)
      && (result.totalFound > TOTAL_FOUND_CAP ==> m.totalFound == TOTAL_FOUND_CAP)
  {
  }

  /** The summary has one entry per location, in input order, typed as the
      location is and carrying its state code or its coordinates. */
  lemma SummaryPerLocation(locations: seq<Location>)
    ensures |Summaries(locations)| == |locations|
    ensures forall i :: 0 <= i < |locations| ==>
              (Summaries(locations)[i].StateSummary? <==> locations[i].StateLocation?)
              && (locations[i].StateLocation? ==> Summaries(locations)[i].state == locations[i].state)
              && (locations[i].GeoLocation? ==>
                    Summaries(locations)[i] == GeoSummary(locations[i].lat, locations[i].lng))
  {
  }

  /** The requested radius appears exactly for a geographic search, the
      expansion trace exactly when there is also a radius tried, the cache key
      exactly for a cached response with a non-empty key; the filters and the
      cached flag are passed through. */
  lemma OptionalKeys(result: SearchResult, searchId: string, processingTimeMs: real, cached: bool, cacheKey: Option<string>)
    requires result.geoLocations != [] ==> result.radiusMiles.Some?
    ensures var m := SuccessMetadata(result, searchId, processingTimeMs, cached, cacheKey);
      && (m.radiusRequested.Some? <==> result.geoLocations != [])
      && (m.radiusRequested.Some? ==> m.radiusRequested == result.radiusMiles)
      && (m.radiusExpansionSequence.Some? <==> result.geoLocations != [] && result.radiiTried != [])
      && (m.radiusExpansionSequence.Some? ==> m.radiusExpansionSequence.value == result.radiiTried)
      && (m.cacheKey.Some? <==> cached && cacheKey.Some? && cacheKey.value != "")
      && (m.cacheKey.Some? ==> m.cacheKey == cacheKey)
      && m.filtersApplied == result.filtersApplied && m.performance.cached == cached
  {
  }

  /** For a search the orchestrator produced: the count returned never exceeds
      the total found; the requested radius and the expansion trace appear
      together, exactly for a geographic search; the trace starts at the
      requested radius and rises strictly. */
  lemma OrchestratorMetadata(store: seq<Business>, haversine: Haversine, nameMatches: NameMatch, params: SearchParams,
                             searchId: string, processingTimeMs: real, cached: bool, cacheKey: Option<string>)
    requires SearchSpec(store, haversine, nameMatches, params).Ok?
    ensures SearchSpec(store, haversine, nameMatches, params).value.geoLocations != [] ==>
              SearchSpec(store, haversine, nameMatches, params).value.radiusMiles.Some?
    ensures var r := SearchSpec(store, haversine, nameMatches, params).value;
      var m := SuccessMetadata(r, searchId, processingTimeMs, cached, cacheKey);
      && m.totalCount <= m.totalFound
      && (m.radiusRequested.Some? <==> GeoPoints(params.locations) != [])
      && (m.radiusExpansionSequence.Some? <==> m.radiusRequested.Some?)
      && (m.radiusExpansionSequence.Some? ==>
            m.radiusExpansionSequence.value[0] == m.radiusRequested.value
            && StrictlyAscending(m.radiusExpansionSequence.value))
  {
    ParamsCopiedThrough(store, haversine, nameMatches, params);
    ReturnedWithinFound(store, haversine, nameMatches, params);
    if GeoPoints(params.locations) != [] {
      SearchAroundPointsFacts(store, haversine, nameMatches, params);
      TriedRadiiAscend(TextFiltered(store, nameMatches, params.text), haversine,
                       AllPoints(GeoPoints(params.locations)), params.radiusMiles.value);
    }
  }
}
