// Small shared datatypes and lemmas about finite sequences.
module Wrappers {
  datatype Option<+T> = None | Some(value: T) {
    function GetOr(default: T): T { if Some? then value else default }
  }

  datatype Result<+T, +E> = Ok(value: T) | Err(error: E)
}

// The pigeonhole principle for sequences of values drawn from a finite set.
module Pigeonhole {

  ghost predicate Distinct<T>(s: seq<T>) {
    forall i, j :: 0 <= i < j < |s| ==> s[i] != s[j]
  }

  ghost function Elements<T>(s: seq<T>): set<T> {
    set x | x in s
  }

  lemma {:induction false} DistinctCount<T>(s: seq<T>)
    requires Distinct(s)
    ensures |Elements(s)| == |s|
  {
    if s == [] {
      assert Elements(s) == {};
    } else {
      var init, last := s[..|s| - 1], s[|s| - 1];
      DistinctCount(init);
      assert s == init + [last];
      assert Elements(s) == Elements(init) + {last};
    }
  }

  lemma SubsetSize<T>(a: set<T>, b: set<T>)
    requires a <= b
    ensures |a| <= |b|
  {
    assert b == a + (b - a);
  }

  lemma HasMember(s: set<int>)
    requires s != {}
    ensures exists k :: k in s
  {
    if forall k :: k !in s { assert false; }
  }

  // A sequence that holds every member of a set once.
  ghost predicate Lists<T>(order: seq<T>, ids: set<T>) {
    Distinct(order) && (forall k :: k in order ==> k in ids) && (forall k :: k in ids ==> k in order)
  }

  lemma ListsMore<T>(order: seq<T>, ids: set<T>, k: T)
    requires Lists(order, ids) && k !in ids
    ensures Lists(order + [k], ids + {k})
  {
  }

  lemma Enumerate<T>(ids: set<T>) returns (order: seq<T>)
    ensures Lists(order, ids)
    decreases |ids|
  {
    if ids == {} {
      order := [];
    } else {
      var k :| k in ids;
      var rest := Enumerate(ids - {k});
      order := rest + [k];
      ListsMore(rest, ids - {k}, k);
      assert ids - {k} + {k} == ids;
    }
  }

  // The members of a set in any order at all.
  method AnyOrder<T(==)>(ids: set<T>) returns (order: seq<T>)
    ensures Lists(order, ids) && forall k :: k in order ==> k in ids
  {
    order := [];
    var remaining := ids;
    while remaining != {}
      invariant remaining <= ids && Lists(order, ids - remaining)
      decreases |remaining|
    {
      var k :| k in remaining;
      ListsMore(order, ids - remaining, k);
      assert ids - (remaining - {k}) == ids - remaining + {k};
      order, remaining := order + [k], remaining - {k};
    }
  }

  // More visits than places: some place is visited twice.
  lemma Collision<T>(s: seq<T>, places: set<T>) returns (i: nat, j: nat)
    requires forall k :: 0 <= k < |s| ==> s[k] in places
    requires |s| > |places|
    ensures i < j < |s| && s[i] == s[j]
  {
    if Distinct(s) {
      DistinctCount(s);
      SubsetSize(Elements(s), places);
      assert false;
    }
    i, j :| 0 <= i < j < |s| && s[i] == s[j];
  }
}

// Powers of two.
module Powers {
  function Pow2(n: nat): nat {
    if n == 0 then 1 else 2 * Pow2(n - 1)
  }

  lemma {:induction false} Pow2Monotone(m: nat, n: nat)
    requires m <= n
    ensures Pow2(m) <= Pow2(n)
  {
    if m < n { Pow2Monotone(m, n - 1); }
  }
}

// Sums over the values of a finite map.
module MapSums {

  ghost function Sum<K>(m: map<K, int>): int {
    if m.Keys == {} then 0
    else
      var k :| k in m.Keys;
      m[k] + Sum(m - {k})
  }

  lemma {:induction false} SumWithout<K>(m: map<K, int>, k: K)
    requires k in m
    ensures Sum(m) == m[k] + Sum(m - {k})
    decreases |m|
  {
    var j :| j in m.Keys && Sum(m) == m[j] + Sum(m - {j});
    if j != k {
      SumWithout(m - {j}, k);
      assert m - {j} - {k} == m - {k} - {j};
      SumWithout(m - {k}, j);
    }
  }

  ghost function At<K>(m: map<K, int>, k: K): int {
    if k in m then m[k] else 0
  }

  lemma SumUpdate<K>(m: map<K, int>, k: K, v: int)
    ensures Sum(m[k := v]) == Sum(m) - At(m, k) + v
  {
    SumWithout(m[k := v], k);
    assert m[k := v] - {k} == m - {k};
    if k in m {
      SumWithout(m, k);
    } else {
      assert m - {k} == m;
    }
  }
}
