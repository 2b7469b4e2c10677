/** The search orchestrator: a text filter, the split of the locations into
    state codes and points, a state filter, the radius expansion over the
    text-filtered store, the OR-combination of the geographic and the state
    matches, de-duplication and the cap of 100 results. */
module SearchService {
  import opened Wrappers
  import opened Domain
  import opened Records
  import opened Distance
  import opened Expansion
  import Validation

  /** The database's case-insensitive substring test on names
      (`name__icontains`), as a relation between a name and the search text. */
  type NameMatch = (string, string) -> bool

  const RESULT_LIMIT: nat := 100
  /** The radius reported by a search without coordinates and without a radius. */
  const DEFAULT_RADIUS_USED: real := 50.0

  /** The one way a search fails: coordinates without a radius, which the
      expansion cannot convert to a number. */
  datatype SearchError = RadiusNotGiven

  function NameContains(nameMatches: NameMatch, text: string): Business -> bool
  {
    (b: Business) => nameMatches(b.name, text)
  }

  function InStates(codes: seq<string>): Business -> bool
  {
    (b: Business) => b.state in codes
  }

  /** The store after the text filter, which applies only to a non-empty text. */
  function TextFiltered(store: seq<Business>, nameMatches: NameMatch, text: string): seq<Business>
  {
    if text != "" then Filter(store, NameContains(nameMatches, text)) else store
  }

  /** `bs` after the state filter, which applies only when codes are given. */
  function StateFiltered(bs: seq<Business>, codes: seq<string>): seq<Business>
  {
    if codes != [] then Filter(bs, InStates(codes)) else bs
  }

  /** The records the geographic and the state matches are combined from. */
  function Combined(geoMatches: seq<Business>, filtered: seq<Business>, codes: seq<string>): seq<Business>
  {
    geoMatches + (if codes != [] then filtered else [])
  }

  /** The names of the filters a search applies, in the order it applies them. */
  function FiltersApplied(params: SearchParams): seq<string>
  {
    FilterNames(params.text != "", StateCodes(params.locations) != [], GeoPoints(params.locations) != [])
  }

  /** The names of the filters that apply, given which of them apply. */
  function FilterNames(text: bool, state: bool, geo: bool): seq<string>
  {
    (if text then ["text"] else []) + (if state then ["state"] else []) + (if geo then ["geo"] else [])
  }

  /** The expansion a search with coordinates runs: over the text-filtered
      store, around every point, from the requested radius. */
  function GeoExpansion(store: seq<Business>, haversine: Haversine, nameMatches: NameMatch, params: SearchParams): Outcome
    requires params.radiusMiles.Some?
  {
    Expand(TextFiltered(store, nameMatches, params.text), haversine, AllPoints(GeoPoints(params.locations)), params.radiusMiles.value)
  }

  /** What a search reports, as a function of the store and the parameters. */
  function SearchSpec(store: seq<Business>, haversine: Haversine, nameMatches: NameMatch, params: SearchParams): (r: Result<SearchResult, SearchError>)
    ensures r.Err? <==> GeoPoints(params.locations) != [] && params.radiusMiles.None?
    ensures r.Ok? ==> |r.value.businesses| <= RESULT_LIMIT && r.value.filtersApplied == FiltersApplied(params)
  {
    var codes := StateCodes(params.locations);
    var points := GeoPoints(params.locations);
    var base := TextFiltered(store, nameMatches, params.text);
    var filtered := StateFiltered(base, codes);
    var filters := FiltersApplied(params);
    if points == [] then
      Ok(SearchResult(Take(filtered, RESULT_LIMIT), |filtered|, filters, params.locations, points,
                      params.radiusMiles.GetOr(DEFAULT_RADIUS_USED), false, [], params.radiusMiles))
    else if params.radiusMiles.None? then Err(RadiusNotGiven)
    else
      var e := GeoExpansion(store, haversine, nameMatches, params);
      var combined := Combined(e.matches, filtered, codes);
      Ok(SearchResult(Take(UniqueById(combined), RESULT_LIMIT), |combined|, filters, params.locations, points,
                      e.radiusUsed, e.radiusExpanded, e.radiiTried, params.radiusMiles))
  }

  /** The geographic branch of the search: expand over the text-filtered
      store around every point, put the geographic matches before the
      state-filtered records `filtered` (when codes were given), de-duplicate
      and cap. */
  method SearchAroundPoints(store: seq<Business>, haversine: Haversine, nameMatches: NameMatch, params: SearchParams,
                            filtered: seq<Business>)
    returns (finalBusinesses: seq<Business>, businessList: seq<Business>, expansion: Outcome)
    requires params.radiusMiles.Some?
    modifies set b | b in store
    ensures expansion == GeoExpansion(store, haversine, nameMatches, params)
    ensures finalBusinesses == Combined(expansion.matches, filtered, StateCodes(params.locations))
    ensures businessList == Take(UniqueById(finalBusinesses), RESULT_LIMIT)
    ensures forall b :: b in store && b !in TextFiltered(store, nameMatches, params.text) ==> b.distance == old(b.distance)
    ensures forall b :: b in store && b in TextFiltered(store, nameMatches, params.text) ==>
              b.distance == if expansion.matches != []
                            then Stamp(haversine, b, GeoPoints(params.locations), expansion.radiusUsed, old(b.distance))
                            else old(b.distance)
  {
    var baseBusinesses := store;
    if params.text != "" {
      baseBusinesses := Filter(baseBusinesses, NameContains(nameMatches, params.text));
      FilterMembership(store, NameContains(nameMatches, params.text));
    }
    var geoBusinesses, radiusUsed, radiusExpanded, radiiTried :=
      ExpandRadiusSearchMultipleLocations(baseBusinesses, haversine, GeoPoints(params.locations), params.radiusMiles.value);
    expansion := Outcome(geoBusinesses, radiusUsed, radiusExpanded, radiiTried);
    if StateCodes(params.locations) != [] {
      finalBusinesses := geoBusinesses + filtered;
    } else {
      finalBusinesses := geoBusinesses;
    }
    var uniqueBusinesses := RemoveDuplicates(finalBusinesses);
    businessList := Take(uniqueBusinesses, RESULT_LIMIT);
  }

  /** The text filter, then the split of the locations and the state filter,
      each named in the filters applied when it applies. */
  method ApplyFilters(store: seq<Business>, nameMatches: NameMatch, params: SearchParams)
    returns (businesses: seq<Business>, filtersApplied: seq<string>)
    ensures businesses == StateFiltered(TextFiltered(store, nameMatches, params.text), StateCodes(params.locations))
    ensures filtersApplied == FilterNames(params.text != "", StateCodes(params.locations) != [], false)
  {
    businesses := store;
    filtersApplied := [];
    if params.text != "" {
      businesses := Filter(businesses, NameContains(nameMatches, params.text));
      filtersApplied := filtersApplied + ["text"];
    }
    var stateCodes := StateCodes(params.locations);
    if stateCodes != [] {
      businesses := Filter(businesses, InStates(stateCodes));
      filtersApplied := filtersApplied + ["state"];
    }
  }

  /** `BusinessSearchServiceImpl.search`. The outcome is the specification's;
      the only distances written are those the multi-point expansion writes
      on the text-filtered records. */
  method Search(store: seq<Business>, haversine: Haversine, nameMatches: NameMatch, params: SearchParams)
    returns (outcome: Result<SearchResult, SearchError>)
    modifies set b | b in store
    ensures outcome == SearchSpec(store, haversine, nameMatches, params)
    ensures GeoPoints(params.locations) == [] || params.radiusMiles.None? ==>
              forall b :: b in store ==> b.distance == old(b.distance)
    ensures forall b :: b in store && b !in TextFiltered(store, nameMatches, params.text) ==> b.distance == old(b.distance)
    ensures GeoPoints(params.locations) != [] && params.radiusMiles.Some? ==>
              var e := GeoExpansion(store, haversine, nameMatches, params);
              forall b :: b in store && b in TextFiltered(store, nameMatches, params.text) ==>
                b.distance == if e.matches != [] then Stamp(haversine, b, GeoPoints(params.locations), e.radiusUsed, old(b.distance))
                              else old(b.distance)
  {
    var businesses, filtersApplied := ApplyFilters(store, nameMatches, params);
    var geoLocations := GeoPoints(params.locations);
    var finalBusinesses: seq<Business> := [];
    var radiusUsed := params.radiusMiles.GetOr(DEFAULT_RADIUS_USED);
    var radiusExpanded := false;
    var radiiTried: seq<real> := [];
    var businessList: seq<Business>;
    if geoLocations != [] {
      filtersApplied := filtersApplied + ["geo"];
      if params.radiusMiles.None? {
        return Err(RadiusNotGiven);
      }
      var expansion;
      finalBusinesses, businessList, expansion := SearchAroundPoints(store, haversine, nameMatches, params, businesses);
      radiusUsed, radiusExpanded, radiiTried := expansion.radiusUsed, expansion.radiusExpanded, expansion.radiiTried;
    } else {
      businessList := Take(businesses, RESULT_LIMIT);
    }
    assert filtersApplied == FiltersApplied(params);
    var totalFound := if geoLocations != [] then |finalBusinesses| else |businesses|;
    outcome := Ok(SearchResult(businessList, totalFound, filtersApplied, params.locations, geoLocations,
                               radiusUsed, radiusExpanded, radiiTried, params.radiusMiles));
    if geoLocations != [] {
      SearchSpecAroundPoints(store, haversine, nameMatches, params);
    } else {
      SearchSpecWithoutPoints(store, haversine, nameMatches, params);
    }
  }

  /** `SearchSpec` on a search without coordinates, spelled out. */
  lemma SearchSpecWithoutPoints(store: seq<Business>, haversine: Haversine, nameMatches: NameMatch, params: SearchParams)
    requires GeoPoints(params.locations) == []
    ensures var filtered := StateFiltered(TextFiltered(store, nameMatches, params.text), StateCodes(params.locations));
      SearchSpec(store, haversine, nameMatches, params)
      == Ok(SearchResult(Take(filtered, RESULT_LIMIT), |filtered|, FiltersApplied(params), params.locations, [],
                         params.radiusMiles.GetOr(DEFAULT_RADIUS_USED), false, [], params.radiusMiles))
  {
  }

  /** `SearchSpec` on a search with coordinates and a radius, spelled out. */
  lemma SearchSpecAroundPoints(store: seq<Business>, haversine: Haversine, nameMatches: NameMatch, params: SearchParams)
    requires GeoPoints(params.locations) != [] && params.radiusMiles.Some?
    ensures var filtered := StateFiltered(TextFiltered(store, nameMatches, params.text), StateCodes(params.locations));
      var e := GeoExpansion(store, haversine, nameMatches, params);
      var combined := Combined(e.matches, filtered, StateCodes(params.locations));
      SearchSpec(store, haversine, nameMatches, params)
      == Ok(SearchResult(Take(UniqueById(combined), RESULT_LIMIT), |combined|, FiltersApplied(params), params.locations,
                         GeoPoints(params.locations), e.radiusUsed, e.radiusExpanded, e.radiiTried, params.radiusMiles))
  {
  }

  // ---------------------------------------------------------------------------
  // Properties of a search

  /** Position of a filter name in the fixed order text, state, geo. */
  function FilterRank(f: string): nat
  {
    if f == "text" then 0 else if f == "state" then 1 else 2
  }

  /** `b` passes the text filter and, when codes were given, the state filter. */
  predicate PassesFilters(nameMatches: NameMatch, params: SearchParams, b: Business)
  {
    (params.text != "" ==> nameMatches(b.name, params.text))
    && (StateCodes(params.locations) != [] ==> b.state in StateCodes(params.locations))
  }

  /** The filters applied are named in the fixed order text, state, geo, each
      exactly when its condition holds: a non-empty text, some state location,
      some coordinate location. */
  lemma FiltersAppliedRule(params: SearchParams)
    ensures var f := FiltersApplied(params);
      && (forall i :: 0 <= i < |f| ==> f[i] == "text" || f[i] == "state" || f[i] == "geo")
      && (forall i, j :: 0 <= i < j < |f| ==> FilterRank(f[i]) < FilterRank(f[j]))
      && ("text" in f <==> params.text != "")
      && ("state" in f <==> exists i :: 0 <= i < |params.locations| && params.locations[i].StateLocation?)
      && ("geo" in f <==> exists i :: 0 <= i < |params.locations| && params.locations[i].GeoLocation?)
  {
    SplitByKind(params.locations);
    FilterNamesFacts(params.text != "", StateCodes(params.locations) != [], GeoPoints(params.locations) != []);
  }

  /** The filter names are drawn from text, state and geo, in that order, each
      present exactly when it applies. */
  lemma FilterNamesFacts(text: bool, state: bool, geo: bool)
    ensures var f := FilterNames(text, state, geo);
      && (forall i :: 0 <= i < |f| ==> f[i] == "text" || f[i] == "state" || f[i] == "geo")
      && (forall i, j :: 0 <= i < j < |f| ==> FilterRank(f[i]) < FilterRank(f[j]))
      && ("text" in f <==> text)
      && ("state" in f <==> state)
      && ("geo" in f <==> geo)
  {
    assert "text" != "state" && "text" != "geo" && "state" != "geo";
  }

  /** The search fails only for coordinates without a radius; otherwise the
      locations and the radius are reported as given, and the points reported
      are those of the coordinate locations. */
  lemma ParamsCopiedThrough(store: seq<Business>, haversine: Haversine, nameMatches: NameMatch, params: SearchParams)
    ensures SearchSpec(store, haversine, nameMatches, params).Err?
            <==> GeoPoints(params.locations) != [] && params.radiusMiles.None?
    ensures SearchSpec(store, haversine, nameMatches, params).Ok? ==>
              var r := SearchSpec(store, haversine, nameMatches, params).value;
              && r.locations == params.locations
              && r.radiusMiles == params.radiusMiles
              && forall p :: p in r.geoLocations ==> GeoLocation(p.lat, p.lng) in params.locations
  {
    SplitByKind(params.locations);
  }

  /** The records passing the text and state filters are exactly the records
      of the store that pass them. */
  lemma FilteredMembership(store: seq<Business>, nameMatches: NameMatch, params: SearchParams)
    ensures var filtered := StateFiltered(TextFiltered(store, nameMatches, params.text), StateCodes(params.locations));
      && |filtered| <= |store|
      && (forall i :: 0 <= i < |filtered| ==> filtered[i] in store && PassesFilters(nameMatches, params, filtered[i]))
      && (forall i :: 0 <= i < |store| && PassesFilters(nameMatches, params, store[i]) ==> store[i] in filtered)
  {
    var codes := StateCodes(params.locations);
    var base := TextFiltered(store, nameMatches, params.text);
    var filtered := StateFiltered(base, codes);
    if params.text != "" {
      FilterMembership(store, NameContains(nameMatches, params.text));
    }
    if codes != [] {
      FilterMembership(base, InStates(codes));
    }
    forall i | 0 <= i < |filtered| ensures filtered[i] in store && PassesFilters(nameMatches, params, filtered[i]) {
      assert filtered[i] in base;
      var k :| 0 <= k < |base| && base[k] == filtered[i];
    }
    forall i | 0 <= i < |store| && PassesFilters(nameMatches, params, store[i]) ensures store[i] in filtered {
      assert store[i] in base;
      var k :| 0 <= k < |base| && base[k] == store[i];
    }
  }

  /** Without coordinates: the first hundred of the records passing the
      filters, the full number of them as the total found, and the radius as
      given or 50, unexpanded, with no radius tried. */
  lemma SearchWithoutPoints(store: seq<Business>, haversine: Haversine, nameMatches: NameMatch, params: SearchParams)
    requires GeoPoints(params.locations) == []
    ensures SearchSpec(store, haversine, nameMatches, params).Ok?
    ensures var r := SearchSpec(store, haversine, nameMatches, params).value;
      && r.radiusUsed == params.radiusMiles.GetOr(DEFAULT_RADIUS_USED)
      && !r.radiusExpanded && r.radiiTried == [] && r.geoLocations == []
      && |r.businesses| == (if r.totalFound <= RESULT_LIMIT then r.totalFound else RESULT_LIMIT)
      && (forall i :: 0 <= i < |r.businesses| ==> r.businesses[i] in store && PassesFilters(nameMatches, params, r.businesses[i]))
      && (r.totalFound <= RESULT_LIMIT ==>
            forall i :: 0 <= i < |store| && PassesFilters(nameMatches, params, store[i]) ==> store[i] in r.businesses)
    ensures var filtered := StateFiltered(TextFiltered(store, nameMatches, params.text), StateCodes(params.locations));
      var r := SearchSpec(store, haversine, nameMatches, params).value;
      r.businesses <= filtered && r.totalFound == |filtered|
  {
    FilteredMembership(store, nameMatches, params);
    var filtered := StateFiltered(TextFiltered(store, nameMatches, params.text), StateCodes(params.locations));
    var r := SearchSpec(store, haversine, nameMatches, params).value;
    forall i | 0 <= i < |r.businesses| ensures r.businesses[i] in store && PassesFilters(nameMatches, params, r.businesses[i]) {
      assert r.businesses[i] == filtered[i];
    }
  }

  /** Combining distinct geographic matches with further records: the matches
      come first, no id is repeated, at most a hundred records result, each
      from one of the two lists, and when at most a hundred distinct records
      were combined all their ids are kept. */
  lemma CombineFacts(matches: seq<Business>, rest: seq<Business>)
    requires DistinctIds(matches)
    ensures var r := Take(UniqueById(matches + rest), RESULT_LIMIT);
      && DistinctIds(r)
      && |r| <= RESULT_LIMIT && |r| <= |matches| + |rest|
      && Take(matches, RESULT_LIMIT) <= r
      && (forall i :: 0 <= i < |r| ==> r[i] in matches || r[i] in rest)
      && (|UniqueById(matches + rest)| <= RESULT_LIMIT ==> Ids(r) == Ids(matches) + Ids(rest))
  {
    var combined := matches + rest;
    var u := UniqueById(combined);
    var r := Take(u, RESULT_LIMIT);
    UniqueByIdFacts(combined);
    UniqueByIdPrefix(matches, rest);
    UniqueByIdOfDistinct(matches);
    IdsOfConcat(matches, rest);
    assert DistinctIds(r) by {
      forall i, j | 0 <= i < j < |r| ensures r[i].id != r[j].id {
        assert r[i] == u[i] && r[j] == u[j];
      }
    }
    assert Take(matches, RESULT_LIMIT) <= r by {
      var t := Take(matches, RESULT_LIMIT);
      forall i | 0 <= i < |t| ensures t[i] == r[i] {
        assert t[i] == matches[i] == u[i];
      }
    }
    forall i | 0 <= i < |r| ensures r[i] in matches || r[i] in rest {
      assert r[i] == u[i] && u[i] in combined;
      var k :| 0 <= k < |combined| && combined[k] == r[i];
      if k >= |matches| {
        assert r[i] == rest[k - |matches|];
      }
    }
    if |u| <= RESULT_LIMIT {
      assert r == u;
    }
  }

  /** With coordinates and a radius: the expansion runs over the
      text-filtered store and its radius fields are reported; its matches
      come first, then the state-filtered records when codes were given; no
      id is returned twice; at most a hundred records are returned; the total
      found counts the combination before de-duplication; and when the
      combination has at most a hundred distinct records, their ids are
      exactly those returned. */
  lemma SearchAroundPointsFacts(store: seq<Business>, haversine: Haversine, nameMatches: NameMatch, params: SearchParams)
    requires GeoPoints(params.locations) != [] && params.radiusMiles.Some?
    ensures SearchSpec(store, haversine, nameMatches, params).Ok?
    ensures var r := SearchSpec(store, haversine, nameMatches, params).value;
      var e := GeoExpansion(store, haversine, nameMatches, params);
      var codes := StateCodes(params.locations);
      var rest := if codes != [] then StateFiltered(TextFiltered(store, nameMatches, params.text), codes) else [];
      && r.radiusUsed == e.radiusUsed && r.radiusExpanded == e.radiusExpanded && r.radiiTried == e.radiiTried
      && r.totalFound == |e.matches| + |rest|
      && DistinctIds(r.businesses)
      && |r.businesses| <= RESULT_LIMIT && |r.businesses| <= r.totalFound
      && Take(e.matches, RESULT_LIMIT) <= r.businesses
      && (|UniqueById(e.matches + rest)| <= RESULT_LIMIT ==> Ids(r.businesses) == Ids(e.matches) + Ids(rest))
  {
    var e := GeoExpansion(store, haversine, nameMatches, params);
    var codes := StateCodes(params.locations);
    var base := TextFiltered(store, nameMatches, params.text);
    var filtered := StateFiltered(base, codes);
    var rest := if codes != [] then filtered else [];
    assert Combined(e.matches, filtered, codes) == e.matches + rest;
    MultiPointMatches(base, haversine, GeoPoints(params.locations), params.radiusMiles.value);
    CombineFacts(e.matches, rest);
  }

  /** With coordinates and a radius, every record returned is a record of the
      store that matches the text and lies within the radius used of some
      point or in a listed state. */
  lemma SearchAroundPointsMembers(store: seq<Business>, haversine: Haversine, nameMatches: NameMatch, params: SearchParams)
    requires GeoPoints(params.locations) != [] && params.radiusMiles.Some?
    ensures SearchSpec(store, haversine, nameMatches, params).Ok?
    ensures var r := SearchSpec(store, haversine, nameMatches, params).value;
      var e := GeoExpansion(store, haversine, nameMatches, params);
      var codes := StateCodes(params.locations);
      forall i :: 0 <= i < |r.businesses| ==>
        && r.businesses[i] in store
        && (params.text != "" ==> nameMatches(r.businesses[i].name, params.text))
        && (InStoreNearSome(TextFiltered(store, nameMatches, params.text), haversine, GeoPoints(params.locations),
                            e.radiusUsed, r.businesses[i])
            || (codes != [] && r.businesses[i].state in codes))
  {
    var r := SearchSpec(store, haversine, nameMatches, params).value;
    var e := GeoExpansion(store, haversine, nameMatches, params);
    var codes := StateCodes(params.locations);
    var points := GeoPoints(params.locations);
    var base := TextFiltered(store, nameMatches, params.text);
    var filtered := StateFiltered(base, codes);
    var rest := if codes != [] then filtered else [];
    assert Combined(e.matches, filtered, codes) == e.matches + rest;
    assert r.businesses == Take(UniqueById(e.matches + rest), RESULT_LIMIT);
    MultiPointMatches(base, haversine, points, params.radiusMiles.value);
    CombineFacts(e.matches, rest);
    FilteredMembership(store, nameMatches, params);
    GeoMembers(store, nameMatches, params, base, rest, e.matches, haversine, points, e.radiusUsed, r.businesses);
  }

  /** The membership argument of `SearchAroundPointsMembers`, over plain
      sequences: records drawn from the geographic matches or from the
      state-filtered records pass the text filter and are near a point or in
      a listed state. */
  lemma GeoMembers(store: seq<Business>, nameMatches: NameMatch, params: SearchParams, base: seq<Business>,
                   rest: seq<Business>, matches: seq<Business>, haversine: Haversine, points: seq<Point>,
                   radiusMiles: real, rs: seq<Business>)
    requires base == TextFiltered(store, nameMatches, params.text)
    requires forall k :: 0 <= k < |rest| ==> rest[k] in store && PassesFilters(nameMatches, params, rest[k])
    requires StateCodes(params.locations) == [] ==> rest == []
    requires forall k :: 0 <= k < |matches| ==> InStoreNearSome(base, haversine, points, radiusMiles, matches[k])
    requires forall i :: 0 <= i < |rs| ==> rs[i] in matches || rs[i] in rest
    ensures forall i :: 0 <= i < |rs| ==>
              && rs[i] in store
              && (params.text != "" ==> nameMatches(rs[i].name, params.text))
              && (InStoreNearSome(base, haversine, points, radiusMiles, rs[i])
                  || (StateCodes(params.locations) != [] && rs[i].state in StateCodes(params.locations)))
  {
    if params.text != "" {
      FilterMembership(store, NameContains(nameMatches, params.text));
    }
    forall i | 0 <= i < |rs|
      ensures && rs[i] in store
              && (params.text != "" ==> nameMatches(rs[i].name, params.text))
              && (InStoreNearSome(base, haversine, points, radiusMiles, rs[i])
                  || (StateCodes(params.locations) != [] && rs[i].state in StateCodes(params.locations)))
    {
      var b := rs[i];
      if b in matches {
        var k :| 0 <= k < |matches| && matches[k] == b;
        assert InStoreNearSome(base, haversine, points, radiusMiles, b);
        var m :| 0 <= m < |base| && base[m] == b;
      } else {
        var k :| 0 <= k < |rest| && rest[k] == b;
      }
    }
  }

  /** The geographic matches ignore the state filter: a record matching the
      text and lying within the radius used of some point is returned, by id,
      whatever its state, whenever the combination has at most a hundred
      distinct records. */
  lemma GeoMatchesIgnoreStates(store: seq<Business>, haversine: Haversine, nameMatches: NameMatch, params: SearchParams,
                               i: nat, j: nat)
    requires GeoPoints(params.locations) != [] && params.radiusMiles.Some?
    requires i < |store| && j < |GeoPoints(params.locations)|
    requires params.text != "" ==> nameMatches(store[i].name, params.text)
    requires GeoExpansion(store, haversine, nameMatches, params).matches != []
    requires DistanceTo(haversine, store[i], GeoPoints(params.locations)[j]) <= GeoExpansion(store, haversine, nameMatches, params).radiusUsed
    requires |UniqueById(Combined(GeoExpansion(store, haversine, nameMatches, params).matches,
                                  StateFiltered(TextFiltered(store, nameMatches, params.text), StateCodes(params.locations)),
                                  StateCodes(params.locations)))| <= RESULT_LIMIT
    ensures store[i].id in Ids(SearchSpec(store, haversine, nameMatches, params).value.businesses)
  {
    var base := TextFiltered(store, nameMatches, params.text);
    var e := GeoExpansion(store, haversine, nameMatches, params);
    var codes := StateCodes(params.locations);
    var filtered := StateFiltered(base, codes);
    var rest := if codes != [] then filtered else [];
    assert Combined(e.matches, filtered, codes) == e.matches + rest;
    SearchAroundPointsFacts(store, haversine, nameMatches, params);
    MultiPointMatches(base, haversine, GeoPoints(params.locations), params.radiusMiles.value);
    if params.text != "" {
      FilterMembership(store, NameContains(nameMatches, params.text));
    }
    assert store[i] in base;
    var m :| 0 <= m < |base| && base[m] == store[i];
    assert base[m].id in Ids(e.matches);
  }

  /** Whatever the branch, at most a hundred records are returned, and never
      more than the total found. */
  lemma ReturnedWithinFound(store: seq<Business>, haversine: Haversine, nameMatches: NameMatch, params: SearchParams)
    requires SearchSpec(store, haversine, nameMatches, params).Ok?
    ensures var r := SearchSpec(store, haversine, nameMatches, params).value;
      |r.businesses| <= RESULT_LIMIT && |r.businesses| <= r.totalFound
  {
    if GeoPoints(params.locations) != [] {
      SearchAroundPointsFacts(store, haversine, nameMatches, params);
    }
  }

  /** A request the validator accepts never reaches the failing path. */
  lemma ValidatedRequestSearches(usStates: set<string>, raw: RawRequest, store: seq<Business>, haversine: Haversine,
                                 nameMatches: NameMatch)
    requires Validation.ValidateRequest(usStates, raw).Ok?
    ensures SearchSpec(store, haversine, nameMatches, Validation.ValidateRequest(usStates, raw).value).Ok?
  {
    Validation.AcceptedRequest(usStates, raw);
  }

  /** Repeating one of the location filters changes no part of the result
      except the echoed locations: the same records, the same total, the same
      filters and the same radius trace. */
  lemma RepeatedLocationChangesNothing(store: seq<Business>, haversine: Haversine, nameMatches: NameMatch,
                                       params: SearchParams, k: nat)
    requires k < |params.locations|
    ensures var params2 := params.(locations := params.locations + [params.locations[k]]);
      && (SearchSpec(store, haversine, nameMatches, params2).Ok? <==> SearchSpec(store, haversine, nameMatches, params).Ok?)
      && (SearchSpec(store, haversine, nameMatches, params).Ok? ==>
            SearchSpec(store, haversine, nameMatches, params2).value
            == SearchSpec(store, haversine, nameMatches, params).value.(locations := params2.locations,
                                                                        geoLocations := GeoPoints(params2.locations)))
  {
    var locs := params.locations;
    var loc := locs[k];
    var params2 := params.(locations := locs + [loc]);
    var base := TextFiltered(store, nameMatches, params.text);
    SplitOfAppended(locs, loc);
    SplitComplete(locs);
    assert [loc][1..] == [];
    var codes := StateCodes(locs);
    match loc
    case StateLocation(c) =>
      assert StateCodes([loc]) == [c] && GeoPoints([loc]) == [];
      assert GeoPoints(params2.locations) == GeoPoints(locs);
      FilterAgrees(base, InStates(codes + [c]), InStates(codes));
      assert StateFiltered(base, StateCodes(params2.locations)) == StateFiltered(base, codes);
      assert FiltersApplied(params2) == FiltersApplied(params);
      if GeoPoints(locs) != [] && params.radiusMiles.Some? {
        assert GeoExpansion(store, haversine, nameMatches, params2) == GeoExpansion(store, haversine, nameMatches, params);
      }
    case GeoLocation(lat, lng) =>
      assert StateCodes([loc]) == [] && GeoPoints([loc]) == [Point(lat, lng)];
      assert StateCodes(params2.locations) == codes;
      assert FiltersApplied(params2) == FiltersApplied(params);
      if params.radiusMiles.Some? {
        RepeatedPointChangesNothing(base, haversine, GeoPoints(locs), Point(lat, lng), params.radiusMiles.value);
        assert GeoExpansion(store, haversine, nameMatches, params2) == GeoExpansion(store, haversine, nameMatches, params);
      }
  }

  /** The total found on the geographic path counts the combined list before
      de-duplication: a record that is both a geographic and a state match is
      counted twice, so the total exceeds the number of distinct records
      found. */
  lemma TotalFoundCountsOverlap(store: seq<Business>, haversine: Haversine, nameMatches: NameMatch, params: SearchParams,
                                i: nat, j: nat)
    requires GeoPoints(params.locations) != [] && params.radiusMiles.Some? && StateCodes(params.locations) != []
    requires i < |GeoExpansion(store, haversine, nameMatches, params).matches|
    requires j < |StateFiltered(TextFiltered(store, nameMatches, params.text), StateCodes(params.locations))|
    requires GeoExpansion(store, haversine, nameMatches, params).matches[i].id
             == StateFiltered(TextFiltered(store, nameMatches, params.text), StateCodes(params.locations))[j].id
    ensures SearchSpec(store, haversine, nameMatches, params).Ok?
    ensures SearchSpec(store, haversine, nameMatches, params).value.totalFound
            > |UniqueById(Combined(GeoExpansion(store, haversine, nameMatches, params).matches,
                                   StateFiltered(TextFiltered(store, nameMatches, params.text), StateCodes(params.locations)),
                                   StateCodes(params.locations)))|
  {
    var e := GeoExpansion(store, haversine, nameMatches, params);
    var filtered := StateFiltered(TextFiltered(store, nameMatches, params.text), StateCodes(params.locations));
    SearchSpecAroundPoints(store, haversine, nameMatches, params);
    CombinedOverlapShrinks(e.matches, filtered, StateCodes(params.locations), i, j);
  }

  /** A geographic match and a state match sharing an id make the combined
      list longer than its de-duplication. */
  lemma CombinedOverlapShrinks(matches: seq<Business>, filtered: seq<Business>, codes: seq<string>, i: nat, j: nat)
    requires codes != [] && i < |matches| && j < |filtered| && matches[i].id == filtered[j].id
    ensures |UniqueById(Combined(matches, filtered, codes))| < |Combined(matches, filtered, codes)|
  {
    var combined := Combined(matches, filtered, codes);
    assert combined[i] == matches[i] && combined[|matches| + j] == filtered[j];
    RepeatedIdShrinks(combined, i, |matches| + j);
  }
}
