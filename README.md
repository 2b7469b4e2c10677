# Business search: a verified model of the search core

This project models the core of a Django business-search service in Dafny. A
client posts a list of location filters, an optional radius and optional
text. The service returns matching business rows and a block of search
metadata. The model covers five parts:

- **Request validation** (`Validation`, over `Text`). Each location must be
  either a US state code or a latitude/longitude pair, never both. A state
  code is upper-cased and must be in the state set. Coordinates must lie
  within ±90 / ±180. A request needs 1 to 20 locations. The radius must lie
  in 0.1 to 1000. When any location has coordinates and no radius is given,
  a radius of 50 is filled in.
- **Distance filter and radius expansion** (`Distance`, `Expansion`). A
  record is within a radius when its distance to the point is at most the
  radius. The search tries the requested radius first. If nothing matches,
  it climbs the fixed sequence 1, 5, 10, 25, 50, 100, 500, skipping every
  step that is not above the requested radius, and stops at the first step
  with a match. With several points, each step gathers the matches of every
  point and de-duplicates them by id, first seen first. Every record the
  filter keeps gets its computed distance written onto the record in place.
- **The orchestrator** (`SearchService`). It applies the text filter, splits
  the locations into state codes and points, and applies the state filter.
  With points, it runs the expansion over the text-filtered store, puts the
  geographic matches before the state matches, de-duplicates and caps the
  list at 100. It also reports the filters applied, the total found and the
  radius trace.
- **The response builder** (`Response`). It reports the count returned and
  the total found capped at 100. It summarises each location by kind. It
  adds the requested radius and the expansion trace only for geographic
  searches, and the cache key only for cached responses.
- **The cache key** (`CacheKey`). Before hashing, the request is
  normalised: the locations are sorted, the text is stripped and
  lower-cased, and absent keys are defaulted. So the key ignores location
  order and the case and padding of the text.

The business row is a class (`Domain.Business`). Its columns are constants,
and its one mutable field, `distance`, receives the in-place write of the
distance filter. The methods that write it state every record's new
distance. Each imperative routine in the source (the radius filter, the two
expansion loops, the orchestrator, the duplicate-removal loop and the
summary loop of the builder) is a method with a loop. Each such method is
proved equal to a specification function, and the lemmas state the
properties of those functions.

The great-circle distance, the database's case-insensitive name match, the
set of US state codes and the JSON+MD5 digest are parameters of the model.

The source keeps two copies of most core code. `core/infrastructure/utils.py`
and `core/utils.py` hold the same radius helpers. `core/search/service.py`
and `core/services.py` hold the same orchestrator. `core/api/serializers.py`
and `core/serializers.py` hold the same validators. `core/response/builder.py`
and `core/services.py` hold the same response builder. `core/cache/service.py`
and `core/services.py` hold the same key function. The copies agree line for
line in the modelled parts, so each member models both copies and the table
cites one of them.

## Model

| member | source | states |
|---|---|---|
| Domain.SplitByKind | core/search/service.py:32-33 | Splitting the locations into state codes and points loses nothing: the two lists together are as long as the input, every code or point comes from a filter of that kind, and a list is empty exactly when no filter of its kind exists |
| Domain.SplitComplete | core/services.py:45-46 | Every state filter's code is among the codes, every coordinate filter's point among the points |
| Domain.SplitOfAppended | core/services.py:45-46 | Splitting a list extended by one filter extends the list of that filter's kind, in order |
| Records.FilterMembership | core/infrastructure/utils.py:46-55 | Filtering keeps exactly the elements that satisfy the condition, and never grows the list |
| Records.FilterAgrees | core/search/service.py:36-38 | A filter depends only on the condition's answers for the listed records |
| Records.FilterKeepsDistinctIds | core/search/service.py:36-38 | Filtering a list without repeated ids leaves no repeated ids |
| Records.IdsOfConcat | core/search/service.py:65 | The ids of a concatenation are the union of the ids of its parts |
| Records.UniqueByIdFacts | core/search/service.py:69-75 | De-duplication leaves each id exactly once, keeps exactly the ids of its input, uses only input records, and is empty only for an empty input |
| Records.UniqueById | core/search/service.py:69-75 | De-duplication never lengthens the list |
| Records.UniqueByIdKeepsFirst | core/infrastructure/utils.py:114-119 | The first occurrence wins: the first record with each id is kept, and every kept record is the first input record with its id |
| Records.UniqueByIdIgnoresSeen | core/infrastructure/utils.py:114-119 | Appending records whose ids were already seen leaves the de-duplicated list unchanged |
| Records.UniqueByIdOfDistinct | core/infrastructure/utils.py:114-119 | A list without repeated ids is its own de-duplication, so de-duplication is idempotent |
| Records.UniqueByIdPrefix | core/services.py:83-88 | De-duplication only appends: an extended list's de-duplication starts with the original's |
| Records.RepeatedIdShrinks | core/services.py:83-88 | A list with a repeated id loses at least one record to de-duplication |
| Records.Take | core/search/service.py:77 | The first n records: a prefix of the list, of length min(n, length) |
| Records.RemoveDuplicates | core/search/service.py:70-75 | The seen-ids loop returns the de-duplication of its input, first record with each id first |
| Records.UniqueByIdStep | core/infrastructure/utils.py:116-119 | One step of the seen-ids loop: the next record is kept exactly when its id was not seen, and its id joins the seen ids |
| Distance.IsWithinRadius | core/infrastructure/utils.py:32-37 | A record exactly at the radius is inside, and one beyond it is outside |
| Distance.WithinRadius | core/infrastructure/utils.py:40-57 | The records the radius filter returns are store records within the radius, no more of them than the store has |
| Distance.WithinRadiusMembership | core/infrastructure/utils.py:40-57 | The radius filter returns only store records at distance at most the radius (the boundary counts as inside), returns every such record, never grows, and maps an empty input to an empty output |
| Distance.RadiusMonotone | core/infrastructure/utils.py:32-37 | Every record found at radius r is found again at any larger radius |
| Distance.ZeroRadiusAdmitsSamePoint | core/utils.py:61-62 | The radius test is inclusive: with radius 0 a point is within the radius of itself |
| Distance.GetBusinessesWithinRadius | core/utils.py:65-92 | Returns the in-order subsequence of records within the radius. Each returned record has its distance set to the computed distance, which is at most the radius. Records outside the radius keep their distance |
| Distance.ValidateCoordinates | core/infrastructure/utils.py:60-66 | Accepted coordinates are present and lie within ±90 / ±180 |
| Distance.ValidateCoordinatesBounds | core/infrastructure/utils.py:60-66 | Coordinates are accepted exactly within the inclusive bounds ±90 / ±180, and an unconvertible value is refused instead of raising |
| Expansion.StepsAboveMembers | core/infrastructure/utils.py:82-85 | The steps to try are members of the sequence, each above the requested radius, and no more than the sequence has |
| Expansion.StepsAboveComplete | core/infrastructure/utils.py:82-85 | Every step of the sequence above the requested radius is among the steps to try |
| Expansion.StepsAboveAscending | core/infrastructure/utils.py:123-125 | The steps tried keep the ascending order of the sequence |
| Expansion.Walk | core/infrastructure/utils.py:82-92 | The walk over the expansion steps always reports the radius as expanded, and reports 500 when it finds nothing |
| Expansion.Expand | core/infrastructure/utils.py:69-92 | An unexpanded search found matches at the requested radius and reports that radius. A search that finds nothing reports 500, expanded |
| Expansion.WalkRecordsSteps | core/infrastructure/utils.py:82-89 | The expansion walk records each step it tries, in order, and marks the radius as expanded |
| Expansion.WalkEarlierStepsEmpty | core/infrastructure/utils.py:86-89 | Every step before the last one tried found nothing |
| Expansion.WalkEnds | core/infrastructure/utils.py:86-92 | The walk ends with the matches of the last radius tried, or, after trying every step, with no matches and radius 500 |
| Expansion.WalkAgrees | core/infrastructure/utils.py:123-146 | Two probes that agree on every step give the same walk |
| Expansion.WalkExhaustedAllEmpty | core/infrastructure/utils.py:91-92 | A walk that finds nothing found nothing at every step |
| Expansion.WalkStopsAtMatch | core/infrastructure/utils.py:82-89 | A walk that found something tried a prefix of the steps, every step before the last found nothing, and it returns the last step's matches at that radius |
| Expansion.WalkTraceEmptyBeforeLast | core/infrastructure/utils.py:76-89 | A walk starting from an empty requested radius found nothing at any radius of its trace but the last |
| Expansion.WalkExhausted | core/infrastructure/utils.py:86-92 | A walk that finds nothing tried every step, all empty, and reports radius 500 |
| Expansion.TraceAscends | core/infrastructure/utils.py:74-86 | The requested radius followed by a prefix of ascending steps above it, all from the sequence, rises strictly |
| Expansion.InitialRadiusFirst | core/infrastructure/utils.py:73-79 | The requested radius is always tried first. The search is unexpanded exactly when it finds matches there, and then it returns those matches at that radius |
| Expansion.ExpansionStopsAtFirstMatch | core/infrastructure/utils.py:82-89 | A successful expansion tried the requested radius, then a prefix of the steps above it, and returns the matches of the last radius tried |
| Expansion.ExpansionEarlierRadiiEmpty | core/infrastructure/utils.py:76-89 | Every radius tried before the reported one found nothing, so the search stops at the first radius with matches |
| Expansion.ExhaustedExpansion | core/infrastructure/utils.py:91-92 | A search that finds nothing reports radius 500, expanded, having tried the requested radius and every step above it, all empty |
| Expansion.NoStepsBeyondSequence | core/infrastructure/utils.py:82-92 | With a requested radius of 500 or more and no match, no step is tried and the result is empty at radius 500 |
| Expansion.TriedRadiiAscend | core/infrastructure/utils.py:74-86 | The radii tried start at the requested radius, rise strictly, come from the sequence after the first, and number at most eight |
| Expansion.GatheredMembers | core/infrastructure/utils.py:102-110 | Everything gathered around the points is a store record within the radius of some point |
| Expansion.GatheredComplete | core/infrastructure/utils.py:102-110 | Every store record within the radius of some point is gathered |
| Expansion.GatheredEmpty | core/infrastructure/utils.py:112-113 | The gathered list is empty exactly when no point has a record within the radius |
| Expansion.MultiPointHits | core/infrastructure/utils.py:112-120 | At one radius the multi-point matches have distinct ids. They are near some point. Every record near any point is present by id. They are empty only when every point finds nothing |
| Expansion.MultiPointMatches | core/infrastructure/utils.py:95-149 | The multi-point expansion returns distinct ids, all within the final radius of some point. When it finds anything, it is every record within that radius of any point |
| Expansion.RepeatedPointHits | core/infrastructure/utils.py:103-120 | Repeating a point does not change the de-duplicated matches at a radius |
| Expansion.RepeatedPointChangesNothing | core/infrastructure/utils.py:95-149 | Repeating a point does not change the expansion outcome |
| Expansion.OnePointAgreesWithSinglePoint | core/infrastructure/utils.py:69-149 | On a store without repeated ids, the multi-point expansion with one point equals the single-point expansion |
| Expansion.StampWhenNothingGathered | core/infrastructure/utils.py:128-136 | A pass that gathers nothing writes no distance |
| Expansion.StepAt | core/infrastructure/utils.py:82-89 | One step of the loop: skip a step not above the requested radius, stop at a step with matches, otherwise record the step and go on |
| Expansion.ExpandRadiusSearch | core/infrastructure/utils.py:69-92 | The single-point loop returns the expansion outcome. When matches were found, each record within the final radius carries its distance to the point; every other record is untouched |
| Expansion.GatherWithinRadius | core/infrastructure/utils.py:102-110 | One gathering pass returns the per-point matches concatenated in point order. Each record carries its distance to the last point whose radius it is within |
| Expansion.ExpandRadiusSearchMultipleLocations | core/infrastructure/utils.py:95-149 | The multi-point loop returns the expansion outcome. Distances are written only by the successful pass, as that pass stamps them |
| Text.UpperFacts | core/api/serializers.py:38 | Upper-casing keeps the length, leaves no lower-case ASCII letter, agrees with the input up to case, and is idempotent |
| Text.LowerFacts | core/cache/service.py:35 | Lower-casing keeps the length, leaves no upper-case ASCII letter, keeps whitespace where it was, and is idempotent |
| Text.UpperOfUpper | core/api/serializers.py:38-42 | A text without lower-case letters is its own upper-case form |
| Text.TrimStartFacts | core/cache/service.py:35 | Removing leading whitespace removes only whitespace, up to the first other character |
| Text.TrimEndFacts | core/cache/service.py:35 | Removing trailing whitespace removes only whitespace, back to the last other character |
| Text.TrimEndKeepsStart | core/cache/service.py:35 | Removing trailing whitespace from a text that does not start with whitespace leaves one that does not start with whitespace |
| Text.StripFacts | core/cache/service.py:35 | `strip()` yields an unpadded middle section, removing only whitespace on either side |
| Text.StripOfUnpadded | core/services.py:132 | An unpadded text is its own strip |
| Text.StripIdempotent | core/services.py:132 | Stripping twice is stripping once |
| Text.NormalTextIdempotent | core/cache/service.py:35 | Stripping then lower-casing an already normalised text changes nothing |
| Validation.ValidateLocation | core/api/serializers.py:19-56 | An accepted location is a state location exactly when a state was given. Its state code is a known one, and its coordinates lie within ±90 / ±180 |
| Validation.ValidateLocationItems | core/api/serializers.py:61 | The entry pass returns one location per entry when it accepts, and one error slot per entry when it refuses |
| Validation.ValidateLocationCount | core/api/serializers.py:77-85 | A location list is accepted, unchanged, exactly when it has 1 to 20 entries |
| Validation.ValidateLocationsField | core/api/serializers.py:61-85 | A missing field is refused. An accepted field has one location per entry, 1 to 20 of them |
| Validation.ValidateRadius | core/api/serializers.py:62-69 | An accepted radius is the given one, absent or within 0.1 to 1000. Only a given radius can be refused |
| Validation.ApplyDefaultRadius | core/api/serializers.py:87-102 | A given radius is kept. The result has a radius exactly when one was given or some location has coordinates |
| Validation.ValidateRequest | core/api/serializers.py:59-102 | An accepted request has 1 to 20 locations, a radius within 0.1 to 1000 when it has one, and a radius whenever a location has coordinates. A refused request reports at least one field error |
| Validation.AcceptedLocation | core/api/serializers.py:19-56 | An accepted location is well formed. It is a state location exactly when a state was given, carrying the upper-cased code. Otherwise it is the given coordinate pair |
| Validation.ExactlyOneKind | core/api/serializers.py:21-33 | State with a full pair is refused as "both". No state and no full pair (including a lone lat or lng) is refused as "neither". Every accepted location has exactly one kind |
| Validation.StateCaseIgnored | core/serializers.py:32-38 | A state code is accepted exactly when its upper-case form is, with the same result |
| Validation.LatitudeReportedFirst | core/api/serializers.py:45-50 | An out-of-range latitude is the error reported, whatever the longitude |
| Validation.CoordinatesAgree | core/serializers.py:41-50 | A coordinate location is accepted exactly when the radius helpers' coordinate check accepts it |
| Validation.LocationRoundTrip | core/api/serializers.py:19-56 | Every well-formed location, written back as a raw location, validates to itself |
| Validation.LocationItemsFacts | core/api/serializers.py:61 | The list validates exactly when every item does. On success each item is its own result, in order. On failure the errors sit at the positions of the failing items |
| Validation.LocationsFieldFacts | core/api/serializers.py:77-85 | The location field is accepted exactly when present, with 1 to 20 items, each valid. An empty list is refused as having no location |
| Validation.RadiusBounds | core/api/serializers.py:62-69 | A radius is accepted exactly within 0.1 to 1000 inclusive, unchanged. An absent radius is accepted |
| Validation.DefaultRadiusRule | core/api/serializers.py:87-102 | The radius is replaced exactly when a coordinate location exists and no radius was given, and then it becomes 50 |
| Validation.AcceptedRequest | core/serializers.py:55-98 | An accepted request has 1 to 20 well-formed locations and a radius within bounds if any. It has a radius whenever a coordinate location exists. A given radius is kept, and the text is passed through |
| Validation.RefusedRequest | core/api/serializers.py:59-85 | A request is refused exactly when its locations or its radius are, and each field's error is reported exactly when that field fails |
| SearchService.SearchSpec | core/search/service.py:20-95 | The search fails exactly when points come without a radius. A result holds at most 100 records, and its filter names are text, state and geo as they apply |
| SearchService.Search | core/search/service.py:20-95 | The orchestrator returns the search result its specification describes, or fails when points come without a radius. Only text-matching records can have their distance written, as the successful expansion pass stamps them. Without points, no distance changes |
| SearchService.SearchAroundPoints | core/services.py:60-90 | The geographic branch runs the expansion over the text-filtered store. It puts the geographic matches before the state matches and de-duplicates and caps the combination. Only text-matching records get distances |
| SearchService.FiltersAppliedRule | core/search/service.py:24-48 | The filters applied name only text, state and geo, each once, in that order. "text" appears exactly for a non-empty text, "state" exactly for a state filter, "geo" exactly for a coordinate filter |
| SearchService.FilterNamesFacts | core/services.py:37-61 | The filter names are drawn from text, state and geo, in that order, each present exactly when it applies |
| SearchService.ApplyFilters | core/search/service.py:23-39 | The text filter and then the state filter yield the records passing both, in store order. "text" and "state" are recorded exactly when those filters apply |
| SearchService.ParamsCopiedThrough | core/search/service.py:85-95 | The search fails exactly when points come without a radius. Otherwise the result echoes the locations and the requested radius, and its points come from the locations |
| SearchService.FilteredMembership | core/search/service.py:26-39 | The text- and state-filtered list holds exactly the store records that pass both filters |
| SearchService.SearchWithoutPoints | core/search/service.py:78-83 | Without points the search succeeds. It reports the requested radius or 50, unexpanded, with no radius tried. It returns a prefix, in store order, of the records passing the filters: the first 100, or all of them when no more than 100 pass. The total found is the number of records passing the filters |
| SearchService.CombineFacts | core/services.py:75-90 | Combining distinct geographic matches with further records gives distinct ids, at most 100. The geographic matches come first. When nothing is cut, every id of both parts is kept |
| SearchService.SearchAroundPointsFacts | core/services.py:60-96 | With points, the result carries the expansion's radius trace. The total is the geographic plus state matches before de-duplication. Records are distinct, at most 100, not above the total, geographic first. All ids are kept when nothing is cut |
| SearchService.SearchAroundPointsMembers | core/search/service.py:47-77 | Every record returned with points matches the text. It is within the final radius of a point or in a requested state |
| SearchService.GeoMatchesIgnoreStates | core/search/service.py:50-65 | The geographic path does not apply the state filter: a text-matching record within the final radius of a point is returned even if its state was not requested |
| SearchService.ReturnedWithinFound | core/search/service.py:77-83 | At most 100 records are returned, and never more than the total found |
| SearchService.ValidatedRequestSearches | core/api/views.py:94-99 | A request the validator accepts never reaches the search's failing path |
| SearchService.RepeatedLocationChangesNothing | core/search/service.py:32-77 | Repeating a location filter changes nothing in the result but the echoed locations: same records, total, filters and radius trace |
| SearchService.TotalFoundCountsOverlap | core/search/service.py:83 | On the geographic path, a record matched both by a point and by a state is counted twice. The total then exceeds the number of distinct records found |
| Response.SuccessMetadata | core/response/builder.py:28-77 | The count is the number of records. The total found is capped at 100 and never above the search total. There is one summary per location. The requested radius appears exactly for a geographic search, and the cache key only for a cached response |
| Response.BuildSuccessResponse | core/response/builder.py:28-77 | The builder's loop and conditional keys produce the serialized records and the metadata its specification describes |
| Response.CountsCapped | core/services.py:223-225 | The count returned is the number of records. The total found is the search's total capped at 100: equal to it up to 100, exactly 100 above |
| Response.SummaryPerLocation | core/response/builder.py:32-44 | The summary has one entry per location, in order, typed as the location is and carrying its code or coordinates |
| Response.OptionalKeys | core/services.py:237-245 | The requested radius appears exactly for a geographic search. The expansion trace appears exactly when radii were also tried. The cache key appears exactly for a cached response with a non-empty key. The filters and the cached flag pass through |
| Response.OrchestratorMetadata | core/response/builder.py:50-68 | For a search result, the count returned is at most the total found. The requested radius and the trace appear together, exactly for a geographic search. The trace starts at the requested radius and rises strictly |
| CacheKey.StrLeTotal | core/cache/service.py:33 | Any two strings are ordered one way or the other |
| CacheKey.StrLeAntisymmetric | core/cache/service.py:33 | Strings ordered both ways are equal |
| CacheKey.StrLeTransitive | core/cache/service.py:33 | The string order is transitive |
| CacheKey.OptStrLeOrder | core/cache/service.py:33 | The order on optional strings is total, antisymmetric and transitive |
| CacheKey.LocLeTotal | core/cache/service.py:33 | The location order is total, and locations ordered both ways are equal |
| CacheKey.LocLeTransitive | core/cache/service.py:33 | The location order is transitive |
| CacheKey.InsertPermutes | core/services.py:130 | Inserting adds exactly the inserted location |
| CacheKey.InsertSorted | core/services.py:130 | Inserting into a sorted list keeps it sorted |
| CacheKey.SortFacts | core/cache/service.py:33 | Sorting yields a sorted permutation of the locations |
| CacheKey.SortedHeadLeast | core/cache/service.py:33 | The head of a sorted list precedes every location in it |
| CacheKey.TailsAlike | core/cache/service.py:33 | Lists with equal contents and equal heads have tails with equal contents |
| CacheKey.SortedUnique | core/cache/service.py:33 | Two sorted lists with the same contents are the same list |
| CacheKey.SortCanonical | core/cache/service.py:33 | Two location lists sort alike exactly when they hold the same locations |
| CacheKey.SortOfSorted | core/services.py:130 | Sorting a sorted list changes nothing |
| CacheKey.GenerateKey | core/cache/service.py:39-40 | The key is "business_search:" followed by 32 lower-case hexadecimal digits |
| CacheKey.Normalize | core/cache/service.py:31-36 | The normalised locations are a sorted permutation of the given ones, absent counting as empty. The radius is kept as given |
| CacheKey.NormalizeCharacterized | core/cache/service.py:31-36 | Over the model's raw locations, two requests normalise alike exactly when they have the same locations in any order (absent counting as empty), the same radius, and texts equal after strip and lower-case (absent counting as empty) |
| CacheKey.SameKey | core/services.py:126-138 | Over the model's raw locations, requests differing only in location order, text case and padding, or absent versus empty keys get the same key |
| CacheKey.PermutedLocationsSameKey | core/cache/service.py:33 | Swapping two locations never changes the key |
| CacheKey.MissingKeysDefault | core/cache/service.py:33-35 | A missing location list and a missing text give the same key as an empty list and an empty text |
| CacheKey.PaddedMixedCaseTextSameKey | core/cache/service.py:35 | "  Coffee Shop  " and "coffee shop" give the same key |
| CacheKey.PaddedTextStrips | core/cache/service.py:35 | Stripping "  Coffee Shop  " gives "Coffee Shop" |
| CacheKey.MixedCaseTextLowers | core/cache/service.py:35 | Lower-casing "Coffee Shop" gives "coffee shop", and "coffee shop" is already lower-case |
| CacheKey.NormalizeIdempotent | core/cache/service.py:31-36 | Normalising an already normalised request changes nothing |

## Left out

- The great-circle distance (floating-point trigonometry) is the parameter `haversine`. The distances the tests compute for known city pairs are not modelled.
- Floating point is modelled as exact reals. So are the `float()` conversions of Decimal values, NaN and the integer `50` versus `50.0` of the default radius.
- The database is a sequence of rows in store order. That order stands for the model's `ordering = ["name"]`, so querysets keep it. `name__icontains` is the parameter `nameMatches`; the database's case folding is not modelled. `state__in` is a membership test on the codes.
- Each queryset evaluation in the source builds fresh row objects. In the model, the state-filtered rows and the geographic rows are the same objects. The distance the expansion writes is not part of the serialized response, so this changes no output.
- The set of US state codes is the parameter `usStates`.
- Validation.ValidateRequest: DRF's field machinery is not modelled. This covers CharField whitespace trimming and `max_length`, DecimalField digit limits and rounding, null values, and unknown keys. The text is passed through as given. A state is upper-cased but not trimmed. An absent key and a JSON null are both `None`.
- Validation.ValidateLocation: a stray lone `lat` or `lng` on a state location is dropped from the validated location. The source keeps it in the dict, where it has no effect on the search or on the summary, since the state key is tested first.
- The in-place updates of the validated dict (`data['state']`, `data['radius_miles']`) are modelled as values returned by the validators.
- Distance.ValidateCoordinates: a value `float()` cannot convert is modelled as `None`. Parsing of strings is not modelled.
- Text: upper- and lower-casing cover the ASCII letters only. Python's full Unicode case mapping is not modelled.
- CacheKey.Sort: the locations are sorted by a lexicographic order on (state, latitude, longitude). The source sorts by the `str()` of each location dict, which also depends on how the dict is written. The digest differs, but the digest is opaque.
- CacheKey.SameKey: a raw location in the model records only its state, latitude and longitude. It does not record the order of the dict's keys, how a number is spelled (`34` or `34.0`), or an extra null key such as `"state": null`. All of these change the source's `str()`, and so its sort order and its key. The source's key ignores the order of the locations only when every location is written the same way. This caveat also applies to the "if" half of CacheKey.NormalizeCharacterized and to CacheKey.PermutedLocationsSameKey.
- Response.SuccessMetadata: requires a radius whenever the result has points. Without one, the source's `float(None)` raises a TypeError. The search never returns such a result (Response.OrchestratorMetadata), so that path is not modelled.
- CacheKey.GenerateKey: `json.dumps` and MD5 form the parameter `fingerprint`, which returns a 32-digit hex string. A JSON null text, on which the source's `strip()` raises, is not modelled.
- The cache get/set and its timeout, the metrics service and its wall-clock processing time (a parameter of the builder), logging, the dependency container, the HTTP views and the error responses are not modelled.
- Response.BuildSuccessResponse: the builder skips a location that has neither a state key nor a lat/lng pair. Validated locations always have one, so the model's typed locations never take that branch.
- SearchService.SearchSpec: the source raises a TypeError (`float(None)`) when points come without a radius. The model returns `Err(RadiusNotGiven)`. A request the validator accepts never reaches it.
- The code is followed where a natural reading would differ. A text filter applies only to a non-empty text, by Python truthiness. The total found on the geographic path counts the combined list before de-duplication, so a record matched by both a point and a state counts twice (`SearchService.TotalFoundCountsOverlap`).
