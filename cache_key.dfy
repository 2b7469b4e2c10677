/** The cache key of a search request: the request is normalised (locations in a
    canonical order, text stripped and lower-cased, absent keys defaulted) and
    the normalised value is hashed behind the prefix "business_search:". The JSON
    encoding and the MD5 digest are a parameter of the model. */
module CacheKey {
  import opened Wrappers
  import opened Domain
  import opened Text

  const KEY_PREFIX: string := "business_search:"

  // ---------------------------------------------------------------------------
  // A total order on raw locations, the sort key of the location list

  /** Lexicographic order on strings. */
  predicate StrLe(a: string, b: string)
  {
    a == [] || (b != [] && (a[0] < b[0] || (a[0] == b[0] && StrLe(a[1..], b[1..]))))
  }

  lemma {:induction false} StrLeTotal(a: string, b: string)
    ensures StrLe(a, b) || StrLe(b, a)
  {
    if a != [] && b != [] && a[0] == b[0] {
      StrLeTotal(a[1..], b[1..]);
    }
  }

  lemma {:induction false} StrLeAntisymmetric(a: string, b: string)
    requires StrLe(a, b) && StrLe(b, a)
    ensures a == b
  {
    if a != [] && b != [] {
      StrLeAntisymmetric(a[1..], b[1..]);
      assert a == [a[0]] + a[1..] && b == [b[0]] + b[1..];
    }
  }

  lemma {:induction false} StrLeTransitive(a: string, b: string, c: string)
    requires StrLe(a, b) && StrLe(b, c)
    ensures StrLe(a, c)
  {
    if a != [] && b != [] && c != [] && a[0] == b[0] && b[0] == c[0] {
      StrLeTransitive(a[1..], b[1..], c[1..]);
    }
  }

  /** Absent before present; present values by their own order. */
  predicate OptStrLe(a: Option<string>, b: Option<string>)
  {
    a.None? || (b.Some? && StrLe(a.value, b.value))
  }

  predicate OptRealLe(a: Option<real>, b: Option<real>)
  {
    a.None? || (b.Some? && a.value <= b.value)
  }

  lemma OptStrLeOrder(a: Option<string>, b: Option<string>, c: Option<string>)
    ensures OptStrLe(a, b) || OptStrLe(b, a)
    ensures OptStrLe(a, b) && OptStrLe(b, a) ==> a == b
    ensures OptStrLe(a, b) && OptStrLe(b, c) ==> OptStrLe(a, c)
  {
    if a.Some? && b.Some? {
      StrLeTotal(a.value, b.value);
      if StrLe(a.value, b.value) && StrLe(b.value, a.value) {
        StrLeAntisymmetric(a.value, b.value);
      }
      if c.Some? && StrLe(a.value, b.value) && StrLe(b.value, c.value) {
        StrLeTransitive(a.value, b.value, c.value);
      }
    }
  }

  /** Locations ordered by state, then latitude, then longitude. */
  predicate LocLe(x: RawLocation, y: RawLocation)
  {
    if x.state != y.state then OptStrLe(x.state, y.state)
    else if x.lat != y.lat then OptRealLe(x.lat, y.lat)
    else OptRealLe(x.lng, y.lng)
  }

  /** The order is total, and two locations that are ordered both ways are the
      same location. */
  lemma LocLeTotal(x: RawLocation, y: RawLocation)
    ensures LocLe(x, y) || LocLe(y, x)
    ensures LocLe(x, y) && LocLe(y, x) ==> x == y
  {
    OptStrLeOrder(x.state, y.state, y.state);
  }

  lemma LocLeTransitive(x: RawLocation, y: RawLocation, z: RawLocation)
    requires LocLe(x, y) && LocLe(y, z)
    ensures LocLe(x, z)
  {
    OptStrLeOrder(x.state, y.state, z.state);
    OptStrLeOrder(x.state, z.state, y.state);
    OptStrLeOrder(y.state, z.state, x.state);
  }

  // ---------------------------------------------------------------------------
  // Sorting the location list

  predicate Sorted(s: seq<RawLocation>)
  {
    forall i, j :: 0 <= i < j < |s| ==> LocLe(s[i], s[j])
  }

  /** `x` placed before the first element it does not follow. */
  function Insert(x: RawLocation, s: seq<RawLocation>): seq<RawLocation>
  {
    if s == [] then [x]
    else if LocLe(x, s[0]) then [x] + s
    else [s[0]] + Insert(x, s[1..])
  }

  /** `sorted(locations, key=...)`. */
  function Sort(s: seq<RawLocation>): seq<RawLocation>
  {
    if s == [] then [] else Insert(s[0], Sort(s[1..]))
  }

  lemma {:induction false} InsertPermutes(x: RawLocation, s: seq<RawLocation>)
    ensures multiset(Insert(x, s)) == multiset(s) + multiset{x}
  {
    if s != [] && !LocLe(x, s[0]) {
      InsertPermutes(x, s[1..]);
      assert s == [s[0]] + s[1..];
    }
  }

  lemma {:induction false} InsertSorted(x: RawLocation, s: seq<RawLocation>)
    requires Sorted(s)
    ensures Sorted(Insert(x, s))
  {
    if s == [] {
    } else if LocLe(x, s[0]) {
      var r := [x] + s;
      forall i, j | 0 <= i < j < |r| ensures LocLe(r[i], r[j]) {
        if i == 0 && j > 1 {
          LocLeTransitive(x, s[0], s[j - 1]);
        }
      }
    } else {
      LocLeTotal(x, s[0]);
      var t := s[1..];
      assert Sorted(t);
      InsertSorted(x, t);
      InsertPermutes(x, t);
      var r := [s[0]] + Insert(x, t);
      forall j | 0 < j < |r| ensures LocLe(s[0], r[j]) {
        assert r[j] in multiset(t) + multiset{x};
        if r[j] in multiset(t) {
          var k :| 0 <= k < |t| && t[k] == r[j];
          assert s[k + 1] == r[j];
        }
      }
    }
  }

  /** Sorting yields a sorted permutation of its input. */
  lemma {:induction false} SortFacts(s: seq<RawLocation>)
    ensures Sorted(Sort(s))
    ensures multiset(Sort(s)) == multiset(s)
  {
    if s != [] {
      SortFacts(s[1..]);
      InsertSorted(s[0], Sort(s[1..]));
      InsertPermutes(s[0], Sort(s[1..]));
      assert s == [s[0]] + s[1..];
    }
  }

  /** The head of a sorted list precedes every location in it. */
  lemma SortedHeadLeast(s: seq<RawLocation>, x: RawLocation)
    requires Sorted(s) && x in multiset(s)
    ensures LocLe(s[0], x)
  {
    var k :| 0 <= k < |s| && s[k] == x;
    if k == 0 {
      LocLeTotal(x, x);
    }
  }

  /** Removing the head of two lists with equal heads and equal contents leaves
      tails with equal contents. */
  lemma TailsAlike(a: seq<RawLocation>, b: seq<RawLocation>)
    requires a != [] && b != [] && a[0] == b[0] && multiset(a) == multiset(b)
    ensures multiset(a[1..]) == multiset(b[1..])
  {
    assert a == [a[0]] + a[1..] && b == [b[0]] + b[1..];
    assert multiset(a) == multiset{a[0]} + multiset(a[1..]);
    assert multiset(b) == multiset{b[0]} + multiset(b[1..]);
    assert multiset(a[1..]) == multiset(a) - multiset{a[0]};
    assert multiset(b[1..]) == multiset(b) - multiset{b[0]};
  }

  /** Two sorted lists holding the same locations are the same list. */
  lemma {:induction false} SortedUnique(a: seq<RawLocation>, b: seq<RawLocation>)
    requires Sorted(a) && Sorted(b) && multiset(a) == multiset(b)
    ensures a == b
  {
    if a != [] {
      assert a[0] in multiset(b);
      assert b != [] && b[0] in multiset(a);
      SortedHeadLeast(a, b[0]);
      SortedHeadLeast(b, a[0]);
      LocLeTotal(a[0], b[0]);
      TailsAlike(a, b);
      assert Sorted(a[1..]) && Sorted(b[1..]);
      SortedUnique(a[1..], b[1..]);
      assert a == [a[0]] + a[1..] && b == [b[0]] + b[1..];
    } else {
      assert |b| == |multiset(b)| == 0;
    }
  }

  /** The sorted list depends only on which locations are given, not on their
      order, and two lists sort alike exactly when they hold the same
      locations. */
  lemma SortCanonical(a: seq<RawLocation>, b: seq<RawLocation>)
    ensures Sort(a) == Sort(b) <==> multiset(a) == multiset(b)
  {
    SortFacts(a);
    SortFacts(b);
    if multiset(a) == multiset(b) {
      SortedUnique(Sort(a), Sort(b));
    }
  }

  /** Sorting a sorted list changes nothing. */
  lemma SortOfSorted(s: seq<RawLocation>)
    requires Sorted(s)
    ensures Sort(s) == s
  {
    SortFacts(s);
    SortedUnique(Sort(s), s);
  }

  // ---------------------------------------------------------------------------
  // Normalisation and the key

  /** The normalised request that is encoded and hashed. */
  datatype NormalizedRequest = NormalizedRequest(locations: seq<RawLocation>, radiusMiles: Option<real>, text: string)

  /** Absent locations are an empty list, absent text is empty; the text is
      stripped and lower-cased; the radius is kept as given. */
  function Normalize(raw: RawRequest): (r: NormalizedRequest)
    ensures Sorted(r.locations) && multiset(r.locations) == multiset(raw.locations.GetOr([]))
    ensures r.radiusMiles == raw.radiusMiles
  {
    SortFacts(raw.locations.GetOr([]));
    NormalizedRequest(Sort(raw.locations.GetOr([])), raw.radiusMiles, Lower(Strip(raw.text.GetOr(""))))
  }

  predicate IsHexDigit(c: char)
  {
    '0' <= c <= '9' || 'a' <= c <= 'f'
  }

  /** An MD5 hex digest: 32 lower-case hexadecimal digits. */
  type Digest = s: string | |s| == 32 && forall i :: 0 <= i < |s| ==> IsHexDigit(s[i])
    witness "00000000000000000000000000000000"

  /** `md5(json.dumps(normalized, sort_keys=True)).hexdigest()`. */
  type Fingerprint = NormalizedRequest -> Digest

  /** `generate_key`. */
  function GenerateKey(fingerprint: Fingerprint, raw: RawRequest): (key: string)
    ensures |key| == |KEY_PREFIX| + 32 && key[..|KEY_PREFIX|] == KEY_PREFIX
    ensures forall i :: |KEY_PREFIX| <= i < |key| ==> IsHexDigit(key[i])
  {
    KEY_PREFIX + fingerprint(Normalize(raw))
  }

  /** Two requests normalise alike exactly when they give the same locations
      in any order (an absent list counting as empty), the same radius, and
      texts that agree once stripped and lower-cased (an absent text counting
      as empty). */
  lemma NormalizeCharacterized(r1: RawRequest, r2: RawRequest)
    ensures Normalize(r1) == Normalize(r2) <==>
              && multiset(r1.locations.GetOr([])) == multiset(r2.locations.GetOr([]))
              && r1.radiusMiles == r2.radiusMiles
              && Lower(Strip(r1.text.GetOr(""))) == Lower(Strip(r2.text.GetOr("")))
  {
    SortCanonical(r1.locations.GetOr([]), r2.locations.GetOr([]));
  }

  /** Requests that differ only in the order of their locations, the case and
      padding of their text, or an absent list or text versus an empty one get
      the same key. */
  lemma SameKey(fingerprint: Fingerprint, r1: RawRequest, r2: RawRequest)
    requires multiset(r1.locations.GetOr([])) == multiset(r2.locations.GetOr([]))
    requires r1.radiusMiles == r2.radiusMiles
    requires Lower(Strip(r1.text.GetOr(""))) == Lower(Strip(r2.text.GetOr("")))
    ensures GenerateKey(fingerprint, r1) == GenerateKey(fingerprint, r2)
  {
    NormalizeCharacterized(r1, r2);
  }

  /** Reordering the location list never changes the key. */
  lemma PermutedLocationsSameKey(fingerprint: Fingerprint, locations: seq<RawLocation>, i: nat, j: nat,
                                 radiusMiles: Option<real>, text: Option<string>)
    requires i < j < |locations|
    ensures var swapped := locations[i := locations[j]][j := locations[i]];
      GenerateKey(fingerprint, RawRequest(Some(locations), radiusMiles, text))
        == GenerateKey(fingerprint, RawRequest(Some(swapped), radiusMiles, text))
  {
    var swapped := locations[i := locations[j]][j := locations[i]];
    assert locations == locations[..i] + [locations[i]] + locations[i + 1..j] + [locations[j]] + locations[j + 1..];
    assert swapped == locations[..i] + [locations[j]] + locations[i + 1..j] + [locations[i]] + locations[j + 1..];
    SortCanonical(locations, swapped);
  }

  /** A missing location list and a missing text key behave as an empty list and
      an empty text. */
  lemma MissingKeysDefault(fingerprint: Fingerprint, radiusMiles: Option<real>)
    ensures GenerateKey(fingerprint, RawRequest(None, radiusMiles, None))
              == GenerateKey(fingerprint, RawRequest(Some([]), radiusMiles, Some("")))
  {
  }

  /** "  Coffee Shop  " and "coffee shop" give the same key. */
  lemma PaddedMixedCaseTextSameKey(fingerprint: Fingerprint, locations: Option<seq<RawLocation>>,
                                    radiusMiles: Option<real>)
    ensures GenerateKey(fingerprint, RawRequest(locations, radiusMiles, Some("  Coffee Shop  ")))
              == GenerateKey(fingerprint, RawRequest(locations, radiusMiles, Some("coffee shop")))
  {
    var padded := RawRequest(locations, radiusMiles, Some("  Coffee Shop  "));
    var plain := RawRequest(locations, radiusMiles, Some("coffee shop"));
    PaddedTextStrips();
    StripOfUnpadded("coffee shop");
    MixedCaseTextLowers();
    SameKey(fingerprint, padded, plain);
  }

  lemma PaddedTextStrips()
    ensures Strip("  Coffee Shop  ") == "Coffee Shop"
  {
    var padded := "  Coffee Shop  ";
    assert TrimStart(padded) == TrimStart(padded[1..]) == TrimStart(padded[2..]) == padded[2..];
    var tail := padded[2..];
    assert TrimEnd(tail) == TrimEnd(tail[..12]) == TrimEnd(tail[..11]) == tail[..11];
    assert tail[..11] == "Coffee Shop";
  }

  lemma MixedCaseTextLowers()
    ensures Lower("Coffee Shop") == "coffee shop"
    ensures Lower("coffee shop") == "coffee shop"
  {
  }

  /** Normalising a normalised request changes nothing. */
  lemma NormalizeIdempotent(raw: RawRequest)
    ensures var n := Normalize(raw);
      Normalize(RawRequest(Some(n.locations), n.radiusMiles, Some(n.text))) == n
  {
    SortFacts(raw.locations.GetOr([]));
    SortOfSorted(Sort(raw.locations.GetOr([])));
    NormalTextIdempotent(raw.text.GetOr(""));
  }
}
