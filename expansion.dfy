/** The radius auto-expansion engine: try the requested radius, and when nothing
    is found walk the fixed escalation sequence upwards, recording every radius
    tried. One variant searches around a single point; the other unions the
    matches of several points at each radius and removes repeated ids. */
module Expansion {
  import opened Wrappers
  import opened Domain
  import opened Records
  import opened Distance

  /** The escalation sequence, in miles. */
  const RADIUS_EXPANSION_SEQUENCE: seq<real> := [1.0, 5.0, 10.0, 25.0, 50.0, 100.0, 500.0]

  /** The radius reported when even the last step finds nothing. */
  const EXHAUSTED_RADIUS: real := 500.0

  /** What one search probes at a given radius: one point, or all of several. */
  datatype Target = SinglePoint(point: Point) | AllPoints(points: seq<Point>)

  /** The four values both expansion functions return:
      (results, radius_used, radius_expanded, radii_tried). */
  datatype Outcome = Outcome(matches: seq<Business>, radiusUsed: real, radiusExpanded: bool, radiiTried: seq<real>)

  /** The matches of every point at `radiusMiles`, concatenated in point order. */
  function Gathered(bs: seq<Business>, haversine: Haversine, points: seq<Point>, radiusMiles: real): seq<Business>
  {
    if points == [] then []
    else Gathered(bs, haversine, points[..|points| - 1], radiusMiles)
         + WithinRadius(bs, haversine, points[|points| - 1], radiusMiles)
  }

  /** What a search finds at one radius: for several points, their matches with
      repeated ids removed, first occurrence kept. */
  function Hits(bs: seq<Business>, haversine: Haversine, target: Target, radiusMiles: real): seq<Business>
  {
    match target
    case SinglePoint(p) => WithinRadius(bs, haversine, p, radiusMiles)
    case AllPoints(points) => UniqueById(Gathered(bs, haversine, points, radiusMiles))
  }

  /** The steps of `steps` strictly above `initial`, in order: the steps left
      after skipping every value not larger than the radius already tried. */
  function StepsAbove(steps: seq<real>, initial: real): seq<real>
  {
    if steps == [] then []
    else (if steps[0] > initial then [steps[0]] else []) + StepsAbove(steps[1..], initial)
  }

  /** What `target` finds at each radius, as one function of the radius. */
  function Probe(bs: seq<Business>, haversine: Haversine, target: Target): real -> seq<Business>
  {
    (radiusMiles: real) => Hits(bs, haversine, target, radiusMiles)
  }

  /** Try `steps` in order after the radii `tried`, stopping at the first step
      at which `probe` finds something. */
  function Walk(probe: real -> seq<Business>, steps: seq<real>, tried: seq<real>): (r: Outcome)
    ensures r.radiusExpanded
    ensures r.matches == [] ==> r.radiusUsed == EXHAUSTED_RADIUS
    decreases |steps|
  {
    if steps == [] then Outcome([], EXHAUSTED_RADIUS, true, tried)
    else
      var found := probe(steps[0]);
      if found != [] then Outcome(found, steps[0], true, tried + [steps[0]])
      else Walk(probe, steps[1..], tried + [steps[0]])
  }

  /** The outcome of a search that starts at `initial` and escalates on failure. */
  function Expand(bs: seq<Business>, haversine: Haversine, target: Target, initial: real): (r: Outcome)
    ensures !r.radiusExpanded ==> r.matches != [] && r.radiusUsed == initial
    ensures r.matches == [] ==> r.radiusExpanded && r.radiusUsed == EXHAUSTED_RADIUS
  {
    var found := Hits(bs, haversine, target, initial);
    if found != [] then Outcome(found, initial, false, [initial])
    else Walk(Probe(bs, haversine, target), StepsAbove(RADIUS_EXPANSION_SEQUENCE, initial), [initial])
  }

  predicate StrictlyAscending(s: seq<real>)
  {
    forall i, j :: 0 <= i < j < |s| ==> s[i] < s[j]
  }

  /** The distance a record carries after the points have been scanned at
      `radiusMiles` in order: that of the last point within the radius, or what
      it carried before when no point is. */
  function Stamp(haversine: Haversine, b: Business, points: seq<Point>, radiusMiles: real, prior: Option<real>): Option<real>
  {
    if points == [] then prior
    else
      var last := points[|points| - 1];
      if DistanceTo(haversine, b, last) <= radiusMiles then Some(DistanceTo(haversine, b, last))
      else Stamp(haversine, b, points[..|points| - 1], radiusMiles, prior)
  }

  // ---------------------------------------------------------------------------
  // Facts about the specification

  /** Every step kept lies above `initial` and comes from `steps`. */
  lemma {:induction false} StepsAboveMembers(steps: seq<real>, initial: real)
    ensures |StepsAbove(steps, initial)| <= |steps|
    ensures forall k :: 0 <= k < |StepsAbove(steps, initial)| ==>
              StepsAbove(steps, initial)[k] in steps && StepsAbove(steps, initial)[k] > initial
  {
    if steps != [] {
      var rest := steps[1..];
      StepsAboveMembers(rest, initial);
      var tail := StepsAbove(rest, initial);
      var a := StepsAbove(steps, initial);
      if steps[0] > initial {
        assert a == [steps[0]] + tail;
        forall k | 0 <= k < |a| ensures a[k] in steps && a[k] > initial {
          if k > 0 {
            assert a[k] == tail[k - 1];
            assert tail[k - 1] in rest;
          }
        }
      } else {
        assert a == tail;
        forall k | 0 <= k < |a| ensures a[k] in steps && a[k] > initial {
          assert tail[k] in rest;
        }
      }
    }
  }

  /** Every step above `initial` is kept. */
  lemma {:induction false} StepsAboveComplete(steps: seq<real>, initial: real)
    ensures forall k :: 0 <= k < |steps| && steps[k] > initial ==> steps[k] in StepsAbove(steps, initial)
  {
    if steps != [] {
      var rest := steps[1..];
      StepsAboveComplete(rest, initial);
      var tail := StepsAbove(rest, initial);
      var head := if steps[0] > initial then [steps[0]] else [];
      assert StepsAbove(steps, initial) == head + tail;
      forall k | 0 <= k < |steps| && steps[k] > initial ensures steps[k] in StepsAbove(steps, initial) {
        if k > 0 {
          assert steps[k] == rest[k - 1];
          assert steps[k] in tail;
        }
      }
    }
  }

  /** Keeping only the steps above `initial` keeps an ascending list ascending. */
  lemma {:induction false} StepsAboveAscending(steps: seq<real>, initial: real)
    requires StrictlyAscending(steps)
    ensures StrictlyAscending(StepsAbove(steps, initial))
  {
    if steps != [] {
      var rest := steps[1..];
      assert StrictlyAscending(rest) by {
        forall i, j | 0 <= i < j < |rest| ensures rest[i] < rest[j] {
          assert rest[i] == steps[i + 1] && rest[j] == steps[j + 1];
        }
      }
      StepsAboveAscending(rest, initial);
      StepsAboveMembers(rest, initial);
      var tail := StepsAbove(rest, initial);
      var a := StepsAbove(steps, initial);
      if steps[0] > initial {
        assert a == [steps[0]] + tail;
        forall i, j | 0 <= i < j < |a| ensures a[i] < a[j] {
          assert a[j] == tail[j - 1];
          if i == 0 {
            assert tail[j - 1] in rest;
            var m :| 0 <= m < |rest| && rest[m] == tail[j - 1];
            assert steps[m + 1] == a[j];
          } else {
            assert a[i] == tail[i - 1];
          }
        }
      } else {
        assert a == tail;
      }
    }
  }

  /** Walking records every step walked, in order, and always counts as an
      expansion. */
  lemma {:induction false} WalkRecordsSteps(probe: real -> seq<Business>, steps: seq<real>, tried: seq<real>)
    ensures var e := Walk(probe, steps, tried);
      && e.radiusExpanded
      && |tried| <= |e.radiiTried| <= |tried| + |steps|
      && e.radiiTried == tried + steps[..|e.radiiTried| - |tried|]
    decreases |steps|
  {
    if steps != [] && probe(steps[0]) == [] {
      var tried' := tried + [steps[0]];
      WalkRecordsSteps(probe, steps[1..], tried');
      var e := Walk(probe, steps[1..], tried');
      assert e == Walk(probe, steps, tried);
      var n := |e.radiiTried| - |tried'|;
      assert steps[..n + 1] == [steps[0]] + steps[1..][..n];
    }
  }

  /** Every radius walked before the last one found nothing. */
  lemma {:induction false} WalkEarlierStepsEmpty(probe: real -> seq<Business>, steps: seq<real>, tried: seq<real>)
    ensures var e := Walk(probe, steps, tried);
      forall i :: |tried| <= i < |e.radiiTried| - 1 ==> probe(e.radiiTried[i]) == []
    decreases |steps|
  {
    if steps != [] && probe(steps[0]) == [] {
      var tried' := tried + [steps[0]];
      WalkEarlierStepsEmpty(probe, steps[1..], tried');
      WalkRecordsSteps(probe, steps[1..], tried');
      var e := Walk(probe, steps[1..], tried');
      assert e == Walk(probe, steps, tried);
      assert e.radiiTried[|tried|] == steps[0];
    }
  }

  /** A walk either stops at a step that found something, reporting that step
      and what it found, or walks every step and reports nothing at the
      exhausted radius. */
  lemma {:induction false} WalkEnds(probe: real -> seq<Business>, steps: seq<real>, tried: seq<real>)
    ensures var e := Walk(probe, steps, tried);
      && (e.matches != [] ==>
            |e.radiiTried| > |tried|
            && e.radiusUsed == e.radiiTried[|e.radiiTried| - 1]
            && e.matches == probe(e.radiusUsed))
      && (e.matches == [] ==> e.radiiTried == tried + steps && e.radiusUsed == EXHAUSTED_RADIUS)
    decreases |steps|
  {
    if steps != [] && probe(steps[0]) == [] {
      var tried' := tried + [steps[0]];
      WalkEnds(probe, steps[1..], tried');
      assert Walk(probe, steps[1..], tried') == Walk(probe, steps, tried);
      assert tried' + steps[1..] == tried + steps;
    }
  }

  /** Two probes that find the same records at every radius of `steps` walk
      those steps identically. */
  lemma {:induction false} WalkAgrees(probe1: real -> seq<Business>, probe2: real -> seq<Business>, steps: seq<real>, tried: seq<real>)
    requires forall i :: 0 <= i < |steps| ==> probe1(steps[i]) == probe2(steps[i])
    ensures Walk(probe1, steps, tried) == Walk(probe2, steps, tried)
    decreases |steps|
  {
    if steps != [] {
      assert probe1(steps[0]) == probe2(steps[0]);
      var rest := steps[1..];
      assert forall i :: 0 <= i < |rest| ==> rest[i] == steps[i + 1];
      WalkAgrees(probe1, probe2, rest, tried + [steps[0]]);
    }
  }

  /** When the last radius walked found nothing, no radius walked found
      anything. */
  lemma {:induction false} WalkExhaustedAllEmpty(probe: real -> seq<Business>, steps: seq<real>, tried: seq<real>)
    requires Walk(probe, steps, tried).matches == []
    ensures forall i :: 0 <= i < |steps| ==> probe(steps[i]) == []
    decreases |steps|
  {
    if steps != [] {
      assert probe(steps[0]) == [];
      WalkExhaustedAllEmpty(probe, steps[1..], tried + [steps[0]]);
      assert forall i :: 1 <= i < |steps| ==> steps[i] == steps[1..][i - 1];
    }
  }

  // ---------------------------------------------------------------------------
  // Properties of the expansion

  /** The requested radius is always tried first, and the search counts as
      expanded exactly when that radius found nothing. */
  lemma InitialRadiusFirst(bs: seq<Business>, haversine: Haversine, target: Target, initial: real)
    ensures var e := Expand(bs, haversine, target, initial);
      && |e.radiiTried| >= 1
      && e.radiiTried[0] == initial
      && (!e.radiusExpanded <==> Hits(bs, haversine, target, initial) != [])
      && (Hits(bs, haversine, target, initial) != [] ==>
            e == Outcome(Hits(bs, haversine, target, initial), initial, false, [initial]))
  {
    WalkRecordsSteps(Probe(bs, haversine, target), StepsAbove(RADIUS_EXPANSION_SEQUENCE, initial), [initial]);
  }

  /** A search that had to expand and then found something tried the
      requested radius and then the steps above it up to the one it reports,
      and returns that step's matches. */
  lemma ExpansionStopsAtFirstMatch(bs: seq<Business>, haversine: Haversine, target: Target, initial: real)
    requires Hits(bs, haversine, target, initial) == []
    requires Expand(bs, haversine, target, initial).matches != []
    ensures var e := Expand(bs, haversine, target, initial);
      var above := StepsAbove(RADIUS_EXPANSION_SEQUENCE, initial);
      && e.radiusExpanded
      && 2 <= |e.radiiTried| <= 1 + |above|
      && e.radiiTried == [initial] + above[..|e.radiiTried| - 1]
      && e.radiusUsed == e.radiiTried[|e.radiiTried| - 1]
      && e.matches == Hits(bs, haversine, target, e.radiusUsed)
  {
    var probe := Probe(bs, haversine, target);
    var above := StepsAbove(RADIUS_EXPANSION_SEQUENCE, initial);
    assert Expand(bs, haversine, target, initial) == Walk(probe, above, [initial]);
    WalkStopsAtMatch(probe, above, [initial]);
  }

  /** Every radius an expansion tried before the one it reports found
      nothing, so the reported step is the first that finds anything. */
  lemma ExpansionEarlierRadiiEmpty(bs: seq<Business>, haversine: Haversine, target: Target, initial: real)
    requires Expand(bs, haversine, target, initial).matches != []
    ensures var e := Expand(bs, haversine, target, initial);
      forall i :: 0 <= i < |e.radiiTried| - 1 ==> Hits(bs, haversine, target, e.radiiTried[i]) == []
  {
    var e := Expand(bs, haversine, target, initial);
    if Hits(bs, haversine, target, initial) == [] {
      var probe := Probe(bs, haversine, target);
      var above := StepsAbove(RADIUS_EXPANSION_SEQUENCE, initial);
      assert e == Walk(probe, above, [initial]);
      assert probe(initial) == [];
      WalkTraceEmptyBeforeLast(probe, above, initial);
      forall i | 0 <= i < |e.radiiTried| - 1 ensures Hits(bs, haversine, target, e.radiiTried[i]) == [] {
        assert probe(e.radiiTried[i]) == [];
      }
    }
  }

  /** A walk that starts from a radius that found nothing found nothing at any
      radius of its trace but the last. */
  lemma WalkTraceEmptyBeforeLast(probe: real -> seq<Business>, steps: seq<real>, initial: real)
    requires probe(initial) == []
    ensures var e := Walk(probe, steps, [initial]);
      forall i :: 0 <= i < |e.radiiTried| - 1 ==> probe(e.radiiTried[i]) == []
  {
    WalkRecordsSteps(probe, steps, [initial]);
    WalkEarlierStepsEmpty(probe, steps, [initial]);
  }

  /** A walk that found something stopped at the first step with matches:
      the trace is the steps up to it, every earlier step found nothing, and
      the matches are that step's. */
  lemma WalkStopsAtMatch(probe: real -> seq<Business>, steps: seq<real>, tried: seq<real>)
    requires Walk(probe, steps, tried).matches != []
    ensures var e := Walk(probe, steps, tried);
      && e.radiusExpanded
      && |tried| < |e.radiiTried| <= |tried| + |steps|
      && e.radiiTried == tried + steps[..|e.radiiTried| - |tried|]
      && e.radiusUsed == e.radiiTried[|e.radiiTried| - 1]
      && e.matches == probe(e.radiusUsed)
      && forall i :: |tried| <= i < |e.radiiTried| - 1 ==> probe(e.radiiTried[i]) == []
  {
    WalkRecordsSteps(probe, steps, tried);
    WalkEarlierStepsEmpty(probe, steps, tried);
    WalkEnds(probe, steps, tried);
  }

  /** A search that found nothing anywhere reports no matches at the exhausted
      radius, having tried the requested radius and then every step above it. */
  lemma ExhaustedExpansion(bs: seq<Business>, haversine: Haversine, target: Target, initial: real)
    requires Expand(bs, haversine, target, initial).matches == []
    ensures Expand(bs, haversine, target, initial)
            == Outcome([], EXHAUSTED_RADIUS, true, [initial] + StepsAbove(RADIUS_EXPANSION_SEQUENCE, initial))
    ensures var tried := Expand(bs, haversine, target, initial).radiiTried;
            forall i :: 0 <= i < |tried| ==> Hits(bs, haversine, target, tried[i]) == []
  {
    var e := Expand(bs, haversine, target, initial);
    if Hits(bs, haversine, target, initial) == [] {
      var probe := Probe(bs, haversine, target);
      var above := StepsAbove(RADIUS_EXPANSION_SEQUENCE, initial);
      assert e == Walk(probe, above, [initial]);
      WalkExhausted(probe, above, initial);
      forall i | 0 <= i < |e.radiiTried| ensures Hits(bs, haversine, target, e.radiiTried[i]) == [] {
        assert probe(e.radiiTried[i]) == [];
      }
    }
  }

  /** A walk from a radius that found nothing, which finds nothing, tried every
      step, all empty, and reports the exhausted radius. */
  lemma WalkExhausted(probe: real -> seq<Business>, steps: seq<real>, initial: real)
    requires probe(initial) == []
    requires Walk(probe, steps, [initial]).matches == []
    ensures Walk(probe, steps, [initial]) == Outcome([], EXHAUSTED_RADIUS, true, [initial] + steps)
    ensures forall i :: 0 <= i < |[initial] + steps| ==> probe(([initial] + steps)[i]) == []
  {
    WalkRecordsSteps(probe, steps, [initial]);
    WalkEnds(probe, steps, [initial]);
    WalkExhaustedAllEmpty(probe, steps, [initial]);
    var tried := [initial] + steps;
    forall i | 0 <= i < |tried| ensures probe(tried[i]) == [] {
      if i > 0 {
        assert tried[i] == steps[i - 1];
      }
    }
  }

  /** A requested radius at or beyond the last step is never expanded: when it
      finds nothing the search still reports the exhausted radius of 500 miles,
      even if that is smaller than the radius requested. */
  lemma NoStepsBeyondSequence(bs: seq<Business>, haversine: Haversine, target: Target, initial: real)
    requires initial >= EXHAUSTED_RADIUS
    requires Hits(bs, haversine, target, initial) == []
    ensures Expand(bs, haversine, target, initial) == Outcome([], EXHAUSTED_RADIUS, true, [initial])
  {
    var above := StepsAbove(RADIUS_EXPANSION_SEQUENCE, initial);
    StepsAboveMembers(RADIUS_EXPANSION_SEQUENCE, initial);
  }

  /** A trace made of the requested radius followed by a prefix of ascending
      steps, all above it and all from the sequence, rises strictly. */
  lemma TraceAscends(initial: real, above: seq<real>, n: nat, tried: seq<real>)
    requires StrictlyAscending(above) && n <= |above|
    requires forall k :: 0 <= k < |above| ==> above[k] in RADIUS_EXPANSION_SEQUENCE && above[k] > initial
    requires tried == [initial] + above[..n]
    ensures StrictlyAscending(tried)
    ensures forall i :: 1 <= i < |tried| ==> tried[i] in RADIUS_EXPANSION_SEQUENCE
  {
    forall i | 1 <= i < |tried| ensures tried[i] in RADIUS_EXPANSION_SEQUENCE && tried[i] > initial {
      assert tried[i] == above[i - 1];
    }
    forall i, j | 0 <= i < j < |tried| ensures tried[i] < tried[j] {
      if i > 0 {
        assert tried[i] == above[i - 1] && tried[j] == above[j - 1];
      }
    }
  }

  /** The radii tried start at the requested radius, rise strictly, come from
      the escalation sequence after the first, and number at most eight. */
  lemma TriedRadiiAscend(bs: seq<Business>, haversine: Haversine, target: Target, initial: real)
    ensures var tried := Expand(bs, haversine, target, initial).radiiTried;
      && 1 <= |tried| <= 1 + |RADIUS_EXPANSION_SEQUENCE|
      && tried[0] == initial
      && StrictlyAscending(tried)
      && forall i :: 1 <= i < |tried| ==> tried[i] in RADIUS_EXPANSION_SEQUENCE
  {
    if Hits(bs, haversine, target, initial) == [] {
      var above := StepsAbove(RADIUS_EXPANSION_SEQUENCE, initial);
      assert StrictlyAscending(RADIUS_EXPANSION_SEQUENCE);
      StepsAboveMembers(RADIUS_EXPANSION_SEQUENCE, initial);
      StepsAboveAscending(RADIUS_EXPANSION_SEQUENCE, initial);
      var e := Walk(Probe(bs, haversine, target), above, [initial]);
      assert Expand(bs, haversine, target, initial) == e;
      WalkRecordsSteps(Probe(bs, haversine, target), above, [initial]);
      TraceAscends(initial, above, |e.radiiTried| - 1, e.radiiTried);
    }
  }

  /** `b` is a record of the store within `radiusMiles` of one of `points`. */
  predicate InStoreNearSome(bs: seq<Business>, haversine: Haversine, points: seq<Point>, radiusMiles: real, b: Business)
  {
    b in bs && exists j :: 0 <= j < |points| && DistanceTo(haversine, b, points[j]) <= radiusMiles
  }

  /** Gathering at one radius yields only records of the store, each within the
      radius of some point. */
  lemma {:induction false} GatheredMembers(bs: seq<Business>, haversine: Haversine, points: seq<Point>, radiusMiles: real)
    ensures forall k :: 0 <= k < |Gathered(bs, haversine, points, radiusMiles)| ==>
              InStoreNearSome(bs, haversine, points, radiusMiles, Gathered(bs, haversine, points, radiusMiles)[k])
  {
    if points != [] {
      var init := points[..|points| - 1];
      var p := points[|points| - 1];
      GatheredMembers(bs, haversine, init, radiusMiles);
      WithinRadiusMembership(bs, haversine, p, radiusMiles);
      var g0 := Gathered(bs, haversine, init, radiusMiles);
      var w := WithinRadius(bs, haversine, p, radiusMiles);
      var g := g0 + w;
      forall k | 0 <= k < |g| ensures InStoreNearSome(bs, haversine, points, radiusMiles, g[k]) {
        if k < |g0| {
          assert g[k] == g0[k];
          assert InStoreNearSome(bs, haversine, init, radiusMiles, g0[k]);
          var j :| 0 <= j < |init| && DistanceTo(haversine, g0[k], init[j]) <= radiusMiles;
          assert points[j] == init[j];
        } else {
          assert g[k] == w[k - |g0|];
          assert DistanceTo(haversine, g[k], points[|points| - 1]) <= radiusMiles;
        }
      }
    }
  }

  /** Gathering at one radius finds every record of the store within the
      radius of any point. */
  lemma {:induction false} GatheredComplete(bs: seq<Business>, haversine: Haversine, points: seq<Point>, radiusMiles: real)
    ensures forall j, i :: 0 <= j < |points| && 0 <= i < |bs| && DistanceTo(haversine, bs[i], points[j]) <= radiusMiles ==>
              bs[i] in Gathered(bs, haversine, points, radiusMiles)
  {
    if points != [] {
      var init := points[..|points| - 1];
      var p := points[|points| - 1];
      GatheredComplete(bs, haversine, init, radiusMiles);
      WithinRadiusMembership(bs, haversine, p, radiusMiles);
      var g0 := Gathered(bs, haversine, init, radiusMiles);
      var w := WithinRadius(bs, haversine, p, radiusMiles);
      assert Gathered(bs, haversine, points, radiusMiles) == g0 + w;
      forall j, i | 0 <= j < |points| && 0 <= i < |bs| && DistanceTo(haversine, bs[i], points[j]) <= radiusMiles
        ensures bs[i] in g0 + w
      {
        if j < |points| - 1 {
          assert points[j] == init[j];
          assert bs[i] in g0;
        } else {
          assert bs[i] in w;
        }
      }
    }
  }

  /** Gathering finds nothing exactly when no single point finds anything. */
  lemma {:induction false} GatheredEmpty(bs: seq<Business>, haversine: Haversine, points: seq<Point>, radiusMiles: real)
    ensures Gathered(bs, haversine, points, radiusMiles) == [] <==>
            forall j :: 0 <= j < |points| ==> WithinRadius(bs, haversine, points[j], radiusMiles) == []
  {
    if points != [] {
      var init := points[..|points| - 1];
      GatheredEmpty(bs, haversine, init, radiusMiles);
      assert forall j :: 0 <= j < |init| ==> init[j] == points[j];
    }
  }

  /** At one radius, the multi-point search finds each record within the radius
      of some point exactly once, and finds nothing exactly when no point
      finds anything. */
  lemma MultiPointHits(bs: seq<Business>, haversine: Haversine, points: seq<Point>, radiusMiles: real)
    ensures var h := Hits(bs, haversine, AllPoints(points), radiusMiles);
      && DistinctIds(h)
      && (forall k :: 0 <= k < |h| ==> InStoreNearSome(bs, haversine, points, radiusMiles, h[k]))
      && (forall j, i :: 0 <= j < |points| && 0 <= i < |bs| && DistanceTo(haversine, bs[i], points[j]) <= radiusMiles ==>
            bs[i].id in Ids(h))
      && (h == [] <==> forall j :: 0 <= j < |points| ==> WithinRadius(bs, haversine, points[j], radiusMiles) == [])
  {
    var g := Gathered(bs, haversine, points, radiusMiles);
    var h := UniqueById(g);
    UniqueByIdFacts(g);
    GatheredMembers(bs, haversine, points, radiusMiles);
    GatheredComplete(bs, haversine, points, radiusMiles);
    GatheredEmpty(bs, haversine, points, radiusMiles);
    forall k | 0 <= k < |h| ensures InStoreNearSome(bs, haversine, points, radiusMiles, h[k]) {
      var m :| 0 <= m < |g| && g[m] == h[k];
    }
    forall j, i | 0 <= j < |points| && 0 <= i < |bs| && DistanceTo(haversine, bs[i], points[j]) <= radiusMiles
      ensures bs[i].id in Ids(h)
    {
      var m :| 0 <= m < |g| && g[m] == bs[i];
      assert bs[i].id in Ids(g);
    }
  }

  /** What the multi-point expansion returns is what it found at the radius it
      reports: each record once, each a record of the store within that
      radius of some point, and every record within that radius of any point
      by id. */
  lemma MultiPointMatches(bs: seq<Business>, haversine: Haversine, points: seq<Point>, initial: real)
    ensures var e := Expand(bs, haversine, AllPoints(points), initial);
      && DistinctIds(e.matches)
      && (forall k :: 0 <= k < |e.matches| ==> InStoreNearSome(bs, haversine, points, e.radiusUsed, e.matches[k]))
      && (e.matches != [] ==>
            e.matches == Hits(bs, haversine, AllPoints(points), e.radiusUsed)
            && forall j, i :: 0 <= j < |points| && 0 <= i < |bs| && DistanceTo(haversine, bs[i], points[j]) <= e.radiusUsed ==>
                 bs[i].id in Ids(e.matches))
  {
    var e := Expand(bs, haversine, AllPoints(points), initial);
    if e.matches != [] {
      if Hits(bs, haversine, AllPoints(points), initial) == [] {
        ExpansionStopsAtFirstMatch(bs, haversine, AllPoints(points), initial);
      }
      assert e.matches == Hits(bs, haversine, AllPoints(points), e.radiusUsed);
      MultiPointHits(bs, haversine, points, e.radiusUsed);
    }
  }

  /** Listing a point a second time does not change what the multi-point
      search finds, at any radius. */
  lemma RepeatedPointHits(bs: seq<Business>, haversine: Haversine, points: seq<Point>, p: Point, radiusMiles: real)
    requires p in points
    ensures Hits(bs, haversine, AllPoints(points + [p]), radiusMiles) == Hits(bs, haversine, AllPoints(points), radiusMiles)
  {
    var g := Gathered(bs, haversine, points, radiusMiles);
    var w := WithinRadius(bs, haversine, p, radiusMiles);
    assert (points + [p])[..|points + [p]| - 1] == points;
    assert Gathered(bs, haversine, points + [p], radiusMiles) == g + w;
    WithinRadiusMembership(bs, haversine, p, radiusMiles);
    GatheredComplete(bs, haversine, points, radiusMiles);
    var j :| 0 <= j < |points| && points[j] == p;
    forall k | 0 <= k < |w| ensures w[k].id in Ids(g) {
      var i :| 0 <= i < |bs| && bs[i] == w[k];
      var m :| 0 <= m < |g| && g[m] == bs[i];
    }
    UniqueByIdIgnoresSeen(g, w);
  }

  /** Listing a point a second time does not change the outcome of the
      multi-point expansion. */
  lemma RepeatedPointChangesNothing(bs: seq<Business>, haversine: Haversine, points: seq<Point>, p: Point, initial: real)
    requires p in points
    ensures Expand(bs, haversine, AllPoints(points + [p]), initial) == Expand(bs, haversine, AllPoints(points), initial)
  {
    RepeatedPointHits(bs, haversine, points, p, initial);
    var steps := StepsAbove(RADIUS_EXPANSION_SEQUENCE, initial);
    forall i | 0 <= i < |steps|
      ensures Probe(bs, haversine, AllPoints(points + [p]))(steps[i]) == Probe(bs, haversine, AllPoints(points))(steps[i])
    {
      RepeatedPointHits(bs, haversine, points, p, steps[i]);
    }
    WalkAgrees(Probe(bs, haversine, AllPoints(points + [p])), Probe(bs, haversine, AllPoints(points)), steps, [initial]);
  }

  /** Over a store without repeated ids, the multi-point search around one
      point has the outcome of the single-point search around it. */
  lemma OnePointAgreesWithSinglePoint(bs: seq<Business>, haversine: Haversine, p: Point, initial: real)
    requires DistinctIds(bs)
    ensures Expand(bs, haversine, AllPoints([p]), initial) == Expand(bs, haversine, SinglePoint(p), initial)
  {
    forall r: real
      ensures Hits(bs, haversine, AllPoints([p]), r) == Hits(bs, haversine, SinglePoint(p), r)
    {
      assert [p][..0] == [];
      assert Gathered(bs, haversine, [p], r) == WithinRadius(bs, haversine, p, r);
      FilterKeepsDistinctIds(bs, InRadius(haversine, p, r));
      UniqueByIdOfDistinct(WithinRadius(bs, haversine, p, r));
    }
    var steps := StepsAbove(RADIUS_EXPANSION_SEQUENCE, initial);
    WalkAgrees(Probe(bs, haversine, AllPoints([p])), Probe(bs, haversine, SinglePoint(p)), steps, [initial]);
  }

  /** Scanning the points finds nothing only if no record was within the
      radius of any point, so no distance was written. */
  lemma {:induction false} StampWhenNothingGathered(bs: seq<Business>, haversine: Haversine, points: seq<Point>, radiusMiles: real)
    requires Gathered(bs, haversine, points, radiusMiles) == []
    ensures forall i, prior :: 0 <= i < |bs| ==> Stamp(haversine, bs[i], points, radiusMiles, prior) == prior
  {
    if points != [] {
      var init := points[..|points| - 1];
      var last := points[|points| - 1];
      assert Gathered(bs, haversine, points, radiusMiles)
          == Gathered(bs, haversine, init, radiusMiles) + WithinRadius(bs, haversine, last, radiusMiles);
      StampWhenNothingGathered(bs, haversine, init, radiusMiles);
      WithinRadiusMembership(bs, haversine, last, radiusMiles);
    }
  }

  // ---------------------------------------------------------------------------
  // The engine

  /** One step of the escalation loop: the step at index `k` is walked when it
      lies above `initial`, and skipped otherwise. */
  lemma StepAt(probe: real -> seq<Business>, k: nat, initial: real, tried: seq<real>)
    requires k < |RADIUS_EXPANSION_SEQUENCE|
    ensures var radius := RADIUS_EXPANSION_SEQUENCE[k];
      var rest := StepsAbove(RADIUS_EXPANSION_SEQUENCE[k + 1..], initial);
      && (radius <= initial ==> Walk(probe, StepsAbove(RADIUS_EXPANSION_SEQUENCE[k..], initial), tried) == Walk(probe, rest, tried))
      && (radius > initial && probe(radius) != [] ==>
            Walk(probe, StepsAbove(RADIUS_EXPANSION_SEQUENCE[k..], initial), tried) == Outcome(probe(radius), radius, true, tried + [radius]))
      && (radius > initial && probe(radius) == [] ==>
            Walk(probe, StepsAbove(RADIUS_EXPANSION_SEQUENCE[k..], initial), tried) == Walk(probe, rest, tried + [radius]))
  {
    assert RADIUS_EXPANSION_SEQUENCE[k..][1..] == RADIUS_EXPANSION_SEQUENCE[k + 1..];
    var radius := RADIUS_EXPANSION_SEQUENCE[k];
    var rest := StepsAbove(RADIUS_EXPANSION_SEQUENCE[k + 1..], initial);
    if radius > initial {
      assert StepsAbove(RADIUS_EXPANSION_SEQUENCE[k..], initial) == [radius] + rest;
      assert ([radius] + rest)[1..] == rest;
    } else {
      assert RADIUS_EXPANSION_SEQUENCE[k..][0] == radius;
      assert StepsAbove(RADIUS_EXPANSION_SEQUENCE[k..], initial) == [] + rest;
      assert [] + rest == rest;
    }
  }

  /** `expand_radius_search`: the single-point search. Its outcome is the
      specification's, and the only distances written are those of the records
      it returns, measured from the point. */
  method ExpandRadiusSearch(bs: seq<Business>, haversine: Haversine, p: Point, initialRadius: real)
    returns (results: seq<Business>, radiusUsed: real, radiusExpanded: bool, radiiTried: seq<real>)
    modifies set b | b in bs
    ensures Outcome(results, radiusUsed, radiusExpanded, radiiTried) == Expand(bs, haversine, SinglePoint(p), initialRadius)
    ensures forall b :: b in bs ==>
              b.distance == if results != [] && DistanceTo(haversine, b, p) <= radiusUsed
                            then Some(DistanceTo(haversine, b, p)) else old(b.distance)
  {
    radiiTried := [initialRadius];
    results := GetBusinessesWithinRadius(bs, haversine, p, initialRadius);
    if results != [] {
      return results, initialRadius, false, radiiTried;
    }
    for k := 0 to |RADIUS_EXPANSION_SEQUENCE|
      invariant Walk(Probe(bs, haversine, SinglePoint(p)), StepsAbove(RADIUS_EXPANSION_SEQUENCE[k..], initialRadius), radiiTried)
                == Expand(bs, haversine, SinglePoint(p), initialRadius)
      invariant forall b :: b in bs ==> b.distance == old(b.distance)
    {
      var radius := RADIUS_EXPANSION_SEQUENCE[k];
      StepAt(Probe(bs, haversine, SinglePoint(p)), k, initialRadius, radiiTried);
      if radius <= initialRadius {
        continue;
      }
      radiiTried := radiiTried + [radius];
      results := GetBusinessesWithinRadius(bs, haversine, p, radius);
      if results != [] {
        return results, radius, true, radiiTried;
      }
    }
    return [], EXHAUSTED_RADIUS, true, radiiTried;
  }

  /** One pass over the points at one radius: the records within the radius of
      each point, concatenated in point order, with every distance written as
      the scan writes it. */
  method GatherWithinRadius(bs: seq<Business>, haversine: Haversine, points: seq<Point>, radiusMiles: real)
    returns (allResults: seq<Business>)
    modifies set b | b in bs
    ensures allResults == Gathered(bs, haversine, points, radiusMiles)
    ensures forall b :: b in bs ==> b.distance == Stamp(haversine, b, points, radiusMiles, old(b.distance))
  {
    allResults := [];
    for k := 0 to |points|
      invariant allResults == Gathered(bs, haversine, points[..k], radiusMiles)
      invariant forall b :: b in bs ==> b.distance == Stamp(haversine, b, points[..k], radiusMiles, old(b.distance))
    {
      assert points[..k + 1][..k] == points[..k];
      var locationResults := GetBusinessesWithinRadius(bs, haversine, points[k], radiusMiles);
      allResults := allResults + locationResults;
    }
    assert points[..|points|] == points;
  }

  /** `expand_radius_search_multiple_locations`: the multi-point search. Its
      outcome is the specification's; when it finds something, each record
      carries the distance to the last point it lies within the successful
      radius of, and when it finds nothing no distance was written. */
  method ExpandRadiusSearchMultipleLocations(bs: seq<Business>, haversine: Haversine, geoLocations: seq<Point>, initialRadius: real)
    returns (results: seq<Business>, radiusUsed: real, radiusExpanded: bool, radiiTried: seq<real>)
    modifies set b | b in bs
    ensures Outcome(results, radiusUsed, radiusExpanded, radiiTried) == Expand(bs, haversine, AllPoints(geoLocations), initialRadius)
    ensures forall b :: b in bs ==>
              b.distance == if results != [] then Stamp(haversine, b, geoLocations, radiusUsed, old(b.distance))
                            else old(b.distance)
  {
    radiiTried := [initialRadius];
    var allResults := GatherWithinRadius(bs, haversine, geoLocations, initialRadius);
    if allResults != [] {
      var uniqueResults := RemoveDuplicates(allResults);
      UniqueByIdFacts(allResults);
      return uniqueResults, initialRadius, false, radiiTried;
    }
    StampWhenNothingGathered(bs, haversine, geoLocations, initialRadius);
    for k := 0 to |RADIUS_EXPANSION_SEQUENCE|
      invariant Walk(Probe(bs, haversine, AllPoints(geoLocations)), StepsAbove(RADIUS_EXPANSION_SEQUENCE[k..], initialRadius), radiiTried)
                == Expand(bs, haversine, AllPoints(geoLocations), initialRadius)
      invariant forall b :: b in bs ==> b.distance == old(b.distance)
    {
      var radius := RADIUS_EXPANSION_SEQUENCE[k];
      StepAt(Probe(bs, haversine, AllPoints(geoLocations)), k, initialRadius, radiiTried);
      if radius <= initialRadius {
        continue;
      }
      radiiTried := radiiTried + [radius];
      allResults := GatherWithinRadius(bs, haversine, geoLocations, radius);
      if allResults != [] {
        var uniqueResults := RemoveDuplicates(allResults);
        UniqueByIdFacts(allResults);
        return uniqueResults, radius, true, radiiTried;
      }
      StampWhenNothingGathered(bs, haversine, geoLocations, radius);
    }
    return [], EXHAUSTED_RADIUS, true, radiiTried;
  }
}
