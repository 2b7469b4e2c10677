/** Operations on lists of business rows shared by the radius engine and the
    orchestrator: order-preserving filtering (the ORM's `filter`), de-duplication
    by id keeping the first occurrence, and the result cap. */
module Records {
  import opened Domain

  /** The input-order subsequence of `s` whose elements satisfy `keep`. */
  function Filter<T>(s: seq<T>, keep: T -> bool): seq<T>
  {
    if s == [] then []
    else Filter(s[..|s| - 1], keep) + (if keep(s[|s| - 1]) then [s[|s| - 1]] else [])
  }

  /** Filtering keeps exactly the elements that satisfy the condition. */
  lemma {:induction false} FilterMembership<T>(s: seq<T>, keep: T -> bool)
    ensures forall i :: 0 <= i < |Filter(s, keep)| ==> Filter(s, keep)[i] in s && keep(Filter(s, keep)[i])
    ensures forall i :: 0 <= i < |s| && keep(s[i]) ==> s[i] in Filter(s, keep)
    ensures |Filter(s, keep)| <= |s|
  {
    if s != [] {
      var init := s[..|s| - 1];
      FilterMembership(init, keep);
      assert s == init + [s[|s| - 1]];
      forall i | 0 <= i < |s| && keep(s[i]) ensures s[i] in Filter(s, keep) {
        if i < |s| - 1 {
          assert s[i] == init[i];
        }
      }
    }
  }

  /** The ids occurring in `s`. */
  function Ids(s: seq<Business>): set<int>
  {
    set i | 0 <= i < |s| :: s[i].id
  }

  lemma IdsOfConcat(a: seq<Business>, b: seq<Business>)
    ensures Ids(a + b) == Ids(a) + Ids(b)
  {
    var c := a + b;
    forall id | id in Ids(c) ensures id in Ids(a) + Ids(b) {
      var i :| 0 <= i < |c| && c[i].id == id;
      if i < |a| { assert c[i] == a[i]; } else { assert c[i] == b[i - |a|]; }
    }
    forall id | id in Ids(a) + Ids(b) ensures id in Ids(c) {
      if id in Ids(a) {
        var i :| 0 <= i < |a| && a[i].id == id;
        assert c[i] == a[i];
      } else {
        var i :| 0 <= i < |b| && b[i].id == id;
        assert c[|a| + i] == b[i];
      }
    }
  }

  /** No id occurs twice in `s`. */
  predicate DistinctIds(s: seq<Business>)
  {
    forall i, j :: 0 <= i < j < |s| ==> s[i].id != s[j].id
  }

  /** Filtering a list without repeated ids leaves no repeated ids. */
  lemma {:induction false} FilterKeepsDistinctIds(s: seq<Business>, keep: Business -> bool)
    requires DistinctIds(s)
    ensures DistinctIds(Filter(s, keep))
  {
    if s != [] {
      var init := s[..|s| - 1];
      var last := s[|s| - 1];
      assert DistinctIds(init) by {
        forall i, j | 0 <= i < j < |init| ensures init[i].id != init[j].id {
          assert init[i] == s[i] && init[j] == s[j];
        }
      }
      FilterKeepsDistinctIds(init, keep);
      FilterMembership(init, keep);
      var f := Filter(init, keep);
      if keep(last) {
        var r := Filter(s, keep);
        assert r == f + [last];
        forall i, j | 0 <= i < j < |r| ensures r[i].id != r[j].id {
          if j == |f| {
            assert r[i] == f[i] && f[i] in init;
            var k :| 0 <= k < |init| && init[k] == f[i];
            assert s[k] == f[i];
          } else {
            assert r[i] == f[i] && r[j] == f[j];
          }
        }
      }
    }
  }

  /** `s` without every record whose id already occurred earlier in `s`: the
      first record with each id is kept, in input order. */
  function UniqueById(s: seq<Business>): (r: seq<Business>)
    ensures |r| <= |s|
  {
    if s == [] then []
    else
      var init := s[..|s| - 1];
      UniqueById(init) + (if s[|s| - 1].id in Ids(init) then [] else [s[|s| - 1]])
  }

  /** De-duplication keeps exactly the ids of its input, each once, using only
      records of the input; it is empty exactly when its input is. */
  lemma {:induction false} UniqueByIdFacts(s: seq<Business>)
    ensures DistinctIds(UniqueById(s))
    ensures Ids(UniqueById(s)) == Ids(s)
    ensures forall i :: 0 <= i < |UniqueById(s)| ==> UniqueById(s)[i] in s
    ensures |UniqueById(s)| <= |s|
    ensures UniqueById(s) == [] <==> s == []
  {
    if s != [] {
      var init, last := s[..|s| - 1], s[|s| - 1];
      UniqueByIdFacts(init);
      assert s == init + [last];
      IdsOfConcat(init, [last]);
      assert Ids([last]) == {last.id};
      var u := UniqueById(init);
      if last.id !in Ids(init) {
        var r := u + [last];
        assert UniqueById(s) == r;
        forall i, j | 0 <= i < j < |r| ensures r[i].id != r[j].id {
          if j == |u| {
            assert r[i].id in Ids(u);
          } else {
            assert r[i] == u[i] && r[j] == u[j];
          }
        }
        IdsOfConcat(u, [last]);
      } else {
        assert UniqueById(s) == u;
      }
    }
  }

  /** No record before position `k` of `s` has the id of `s[k]`. */
  predicate FirstWithId(s: seq<Business>, k: int)
    requires 0 <= k < |s|
  {
    forall j :: 0 <= j < k ==> s[j].id != s[k].id
  }

  /** The first occurrence wins: the first record with each id is kept, and a
      kept record is the first input record with its id. */
  lemma {:induction false} UniqueByIdKeepsFirst(s: seq<Business>)
    ensures forall k :: 0 <= k < |s| && FirstWithId(s, k) ==> s[k] in UniqueById(s)
    ensures forall i, k ::
              0 <= i < |UniqueById(s)| && 0 <= k < |s| && FirstWithId(s, k) && s[k].id == UniqueById(s)[i].id
              ==> UniqueById(s)[i] == s[k]
  {
    if s != [] {
      var init, last := s[..|s| - 1], s[|s| - 1];
      UniqueByIdKeepsFirst(init);
      UniqueByIdFacts(s);
      var u := UniqueById(s);
      assert UniqueById(init) <= u;
      forall k | 0 <= k < |s| && FirstWithId(s, k) ensures s[k] in u {
        if k < |s| - 1 {
          assert s[k] == init[k];
          assert FirstWithId(init, k) by {
            forall j | 0 <= j < k ensures init[j].id != init[k].id {
              assert init[j] == s[j];
            }
          }
        } else {
          assert last.id !in Ids(init) by {
            forall j | 0 <= j < |init| ensures init[j].id != last.id {
              assert init[j] == s[j];
            }
          }
          assert u == UniqueById(init) + [last];
        }
      }
      forall i, k | 0 <= i < |u| && 0 <= k < |s| && FirstWithId(s, k) && s[k].id == u[i].id
        ensures u[i] == s[k]
      {
        var i' :| 0 <= i' < |u| && u[i'] == s[k];
        assert i' == i;
      }
    }
  }

  /** Records whose ids all occur earlier change nothing: appending them to a
      list does not change its de-duplication. */
  lemma {:induction false} UniqueByIdIgnoresSeen(a: seq<Business>, b: seq<Business>)
    requires forall i :: 0 <= i < |b| ==> b[i].id in Ids(a)
    ensures UniqueById(a + b) == UniqueById(a)
  {
    if b != [] {
      var b' := b[..|b| - 1];
      UniqueByIdIgnoresSeen(a, b');
      var last := b[|b| - 1];
      assert (a + b)[..|a + b| - 1] == a + b';
      assert (a + b)[|a + b| - 1] == last;
      var x :| x in a && x.id == last.id;
      assert x in a + b';
      assert last.id in Ids(a + b');
      assert UniqueById(a + b) == UniqueById(a + b');
    } else {
      assert a + b == a;
    }
  }

  /** De-duplicating a list whose ids are already distinct changes nothing;
      hence de-duplication is idempotent. */
  lemma {:induction false} UniqueByIdOfDistinct(s: seq<Business>)
    requires DistinctIds(s)
    ensures UniqueById(s) == s
  {
    if s != [] {
      var init := s[..|s| - 1];
      assert DistinctIds(init);
      UniqueByIdOfDistinct(init);
      assert s == init + [s[|s| - 1]];
    }
  }

  /** De-duplication only ever appends: de-duplicating a list extended at the
      end starts with the de-duplication of the original list. */
  lemma {:induction false} UniqueByIdPrefix(a: seq<Business>, b: seq<Business>)
    ensures UniqueById(a) <= UniqueById(a + b)
  {
    if b == [] {
      assert a + b == a;
    } else {
      var b' := b[..|b| - 1];
      UniqueByIdPrefix(a, b');
      assert (a + b)[..|a + b| - 1] == a + b';
    }
  }

  /** Filtering depends only on the condition's answers for the elements of
      the list. */
  lemma {:induction false} FilterAgrees<T>(s: seq<T>, keep1: T -> bool, keep2: T -> bool)
    requires forall i :: 0 <= i < |s| ==> keep1(s[i]) == keep2(s[i])
    ensures Filter(s, keep1) == Filter(s, keep2)
  {
    if s != [] {
      FilterAgrees(s[..|s| - 1], keep1, keep2);
    }
  }

  /** A list in which some id occurs twice loses a record to de-duplication. */
  lemma {:induction false} RepeatedIdShrinks(s: seq<Business>, i: nat, j: nat)
    requires i < j < |s| && s[i].id == s[j].id
    ensures |UniqueById(s)| < |s|
  {
    var init := s[..|s| - 1];
    UniqueByIdFacts(init);
    if j == |s| - 1 {
      assert init[i] == s[i];
      assert s[j].id in Ids(init);
    } else {
      RepeatedIdShrinks(init, i, j);
    }
  }

  /** The first `n` records of `s` (Python's `s[:n]`). */
  function Take<T>(s: seq<T>, n: nat): (r: seq<T>)
    ensures |r| == if |s| <= n then |s| else n
    ensures r <= s
  {
    if |s| <= n then s else s[..n]
  }

  /** One step of the duplicate-removal loop: the next record is kept exactly
      when its id was not seen before, and its id joins the seen ids. */
  lemma UniqueByIdStep(s: seq<Business>, i: nat)
    requires i < |s|
    ensures UniqueById(s[..i + 1]) == UniqueById(s[..i]) + (if s[i].id in Ids(s[..i]) then [] else [s[i]])
    ensures Ids(s[..i + 1]) == Ids(s[..i]) + {s[i].id}
  {
    assert s[..i + 1][..i] == s[..i];
    assert s[..i + 1] == s[..i] + [s[i]];
    IdsOfConcat(s[..i], [s[i]]);
    assert Ids([s[i]]) == {s[i].id};
  }

  /** Removes repeated ids, keeping the first record seen with each id. */
  method RemoveDuplicates(s: seq<Business>) returns (unique: seq<Business>)
    ensures unique == UniqueById(s)
  {
    var seen: set<int> := {};
    unique := [];
    for i := 0 to |s|
      invariant unique == UniqueById(s[..i])
      invariant seen == Ids(s[..i])
    {
      UniqueByIdStep(s, i);
      if s[i].id !in seen {
        seen := seen + {s[i].id};
        unique := unique + [s[i]];
      }
    }
    assert s[..|s|] == s;
  }
}
