/** What the store answers to the temperature query: every beer whose serving
    range contains the temperature, sorted ascending by style. */
module StoreQuery {
  import opened Beers
  import StyleOrder

  /** The query document `{minTemp: {$lte: t}, maxTemp: {$gte: t}}`. */
  datatype TempQuery = TempQuery(minTempLte: real, maxTempGte: real)

  function QueryFor(t: real): TempQuery
  {
    TempQuery(t, t)
  }

  predicate Matches(q: TempQuery, b: Beer)
  {
    b.minTemp <= q.minTempLte && b.maxTemp >= q.maxTempGte
  }

  /** The temperature query selects exactly the beers whose range holds `t`. */
  lemma QueryForMatchesInRange(t: real, b: Beer)
    ensures Matches(QueryFor(t), b) <==> InRange(b, t)
  {
  }

  /** No beer sorts before an earlier one. */
  ghost predicate Sorted(s: seq<Beer>)
  {
    forall i, j :: 0 <= i < j < |s| ==> !StyleOrder.Less(s[j].beerStyle, s[i].beerStyle)
  }

  /** Styles strictly ascend. */
  ghost predicate StrictlySorted(s: seq<Beer>)
  {
    forall i, j :: 0 <= i < j < |s| ==> StyleOrder.Less(s[i].beerStyle, s[j].beerStyle)
  }

  /** No two records share a style (the store's unique index on `beerStyle`). */
  ghost predicate UniqueStyles(s: seq<Beer>)
  {
    forall i, j :: 0 <= i < j < |s| ==> s[i].beerStyle != s[j].beerStyle
  }

  /** The matching records in store order. */
  function Select(store: seq<Beer>, q: TempQuery): (r: seq<Beer>)
    ensures forall b :: b in r <==> b in store && Matches(q, b)
    ensures multiset(r) <= multiset(store)
  {
    if store == [] then []
    else
      var rest := Select(store[1..], q);
      assert store == [store[0]] + store[1..];
      if Matches(q, store[0]) then [store[0]] + rest else rest
  }

  /** Selection keeps every matching record as many times as the store
      holds it, and no other record. */
  lemma {:induction false} SelectCounts(store: seq<Beer>, q: TempQuery)
    ensures forall b :: multiset(Select(store, q))[b] == (if Matches(q, b) then multiset(store)[b] else 0)
  {
    if store != [] {
      SelectCounts(store[1..], q);
      assert store == [store[0]] + store[1..];
    }
  }

  /** Selection keeps styles unique. */
  lemma {:induction false} SelectUnique(store: seq<Beer>, q: TempQuery)
    requires UniqueStyles(store)
    ensures UniqueStyles(Select(store, q))
  {
    if store != [] {
      var rest := Select(store[1..], q);
      SelectUnique(store[1..], q);
      forall b | b in rest
        ensures b.beerStyle != store[0].beerStyle
      {
        var m :| 0 <= m < |store[1..]| && store[1..][m] == b;
        assert store[m + 1] == b;
      }
    }
  }

  /** Places `x` after every beer that sorts strictly before it. */
  function Insert(x: Beer, s: seq<Beer>): (r: seq<Beer>)
    ensures multiset(r) == multiset(s) + multiset{x}
    ensures forall b :: b in r <==> b in s || b == x
  {
    if s == [] then [x]
    else if StyleOrder.Less(s[0].beerStyle, x.beerStyle) then
      assert s == [s[0]] + s[1..];
      [s[0]] + Insert(x, s[1..])
    else
      [x] + s
  }

  /** Insertion keeps a sorted sequence sorted. */
  lemma {:induction false} InsertSorted(x: Beer, s: seq<Beer>)
    requires Sorted(s)
    ensures Sorted(Insert(x, s))
  {
    if s == [] {
    } else if StyleOrder.Less(s[0].beerStyle, x.beerStyle) {
      var tail := Insert(x, s[1..]);
      InsertSorted(x, s[1..]);
      forall b | b in tail
        ensures !StyleOrder.Less(b.beerStyle, s[0].beerStyle)
      {
        if b == x {
          StyleOrder.LessAsymmetric(s[0].beerStyle, x.beerStyle);
        } else {
          var m :| 0 <= m < |s[1..]| && s[1..][m] == b;
          assert s[m + 1] == b;
        }
      }
      assert Insert(x, s) == [s[0]] + tail;
    } else {
      forall k | 0 <= k < |s|
        ensures !StyleOrder.Less(s[k].beerStyle, x.beerStyle)
      {
        if k > 0 {
          StyleOrder.NotLessTransitive(s[k].beerStyle, s[0].beerStyle, x.beerStyle);
        }
      }
    }
  }

  /** Inserting a beer of a new style into a strictly ascending sequence keeps
      it strictly ascending. */
  lemma {:induction false} InsertStrictlySorted(x: Beer, s: seq<Beer>)
    requires StrictlySorted(s) && FreshStyle(x, s)
    ensures StrictlySorted(Insert(x, s))
  {
    if s == [] {
    } else if StyleOrder.Less(s[0].beerStyle, x.beerStyle) {
      var tail := Insert(x, s[1..]);
      assert FreshStyle(x, s[1..]) by {
        forall b | b in s[1..]
          ensures b.beerStyle != x.beerStyle
        {
          assert b in s;
        }
      }
      InsertStrictlySorted(x, s[1..]);
      forall b | b in tail
        ensures StyleOrder.Less(s[0].beerStyle, b.beerStyle)
      {
        if b != x {
          var m :| 0 <= m < |s[1..]| && s[1..][m] == b;
          assert s[m + 1] == b;
        }
      }
      assert Insert(x, s) == [s[0]] + tail;
    } else {
      assert s[0] in s;
      StyleOrder.LessConnected(x.beerStyle, s[0].beerStyle);
      forall k | 0 < k < |s|
        ensures StyleOrder.Less(x.beerStyle, s[k].beerStyle)
      {
        StyleOrder.LessTransitive(x.beerStyle, s[0].beerStyle, s[k].beerStyle);
      }
    }
  }

  /** No beer of `s` has the style of `x`. */
  ghost predicate FreshStyle(x: Beer, s: seq<Beer>)
  {
    forall b :: b in s ==> b.beerStyle != x.beerStyle
  }

  /** Insertion sort by style. */
  function SortByStyle(s: seq<Beer>): (r: seq<Beer>)
    ensures Sorted(r)
    ensures multiset(r) == multiset(s)
  {
    if s == [] then []
    else
      var tail := SortByStyle(s[1..]);
      assert s == [s[0]] + s[1..];
      InsertSorted(s[0], tail);
      Insert(s[0], tail)
  }

  /** Sorting a sequence of unique styles yields strictly ascending styles. */
  lemma {:induction false} SortStrictlySorted(s: seq<Beer>)
    requires UniqueStyles(s)
    ensures StrictlySorted(SortByStyle(s))
  {
    if s != [] {
      var tail := SortByStyle(s[1..]);
      SortStrictlySorted(s[1..]);
      forall b | b in tail
        ensures b.beerStyle != s[0].beerStyle
      {
        assert b in multiset(tail);
        assert b in multiset(s[1..]);
        var m :| 0 <= m < |s[1..]| && s[1..][m] == b;
        assert s[m + 1] == b;
      }
      InsertStrictlySorted(s[0], tail);
    }
  }

  /** `Beer.find(query).sort({beerStyle: 1})`. */
  function Find(store: seq<Beer>, q: TempQuery): (r: seq<Beer>)
    ensures forall b :: b in r <==> b in store && Matches(q, b)
    ensures multiset(r) == multiset(Select(store, q))
    ensures Sorted(r)
    ensures UniqueStyles(store) ==> StrictlySorted(r)
  {
    var r := SortByStyle(Select(store, q));
    assert forall b :: b in r <==> b in multiset(r);
    assert UniqueStyles(store) ==> StrictlySorted(r) by {
      if UniqueStyles(store) {
        SelectUnique(store, q);
        SortStrictlySorted(Select(store, q));
      }
    }
    r
  }

  /** The store's answer to the temperature query: exactly the beers whose
      range holds `t`, as a permutation of the matching records, in ascending
      style order, strictly so when styles are unique. */
  function FilterByTemperature(store: seq<Beer>, t: real): (r: seq<Beer>)
    ensures forall b :: b in r <==> b in store && InRange(b, t)
    ensures multiset(r) == multiset(Select(store, QueryFor(t)))
    ensures Sorted(r)
    ensures UniqueStyles(store) ==> StrictlySorted(r)
  {
    Find(store, QueryFor(t))
  }

  /** Two strictly ascending sequences with the same members are equal. */
  lemma {:induction false} StrictlySortedUnique(a: seq<Beer>, b: seq<Beer>)
    requires StrictlySorted(a) && StrictlySorted(b)
    requires forall x :: x in a <==> x in b
    ensures a == b
    decreases |a|
  {
    if a != [] {
      assert a[0] in b;
    }
    if b != [] {
      assert b[0] in a;
    }
    if a != [] {
      var i :| 0 <= i < |a| && a[i] == b[0];
      var j :| 0 <= j < |b| && b[j] == a[0];
      assert i > 0 && j > 0 ==> !StyleOrder.Less(b[0].beerStyle, a[0].beerStyle) by {
        if i > 0 && j > 0 {
          StyleOrder.LessAsymmetric(a[0].beerStyle, b[0].beerStyle);
        }
      }
      assert a[0] == b[0];
      forall x
        ensures x in a[1..] <==> x in b[1..]
      {
        if x in a[1..] {
          var m :| 0 <= m < |a[1..]| && a[1..][m] == x;
          assert a[m + 1] == x;
          StyleOrder.LessIrreflexive(a[0].beerStyle);
          assert x in b && x != b[0];
          var n :| 0 <= n < |b| && b[n] == x;
          assert b[1..][n - 1] == x;
        }
        if x in b[1..] {
          var m :| 0 <= m < |b[1..]| && b[1..][m] == x;
          assert b[m + 1] == x;
          StyleOrder.LessIrreflexive(b[0].beerStyle);
          assert x in a && x != a[0];
          var n :| 0 <= n < |a| && a[n] == x;
          assert a[1..][n - 1] == x;
        }
      }
      StrictlySortedUnique(a[1..], b[1..]);
      assert a == [a[0]] + a[1..] && b == [b[0]] + b[1..];
    }
  }

  /** With unique styles the answer is fully determined by its contents: any
      strictly ascending listing of exactly the in-range beers is the
      store's answer. */
  lemma FilterByTemperatureCharacterized(store: seq<Beer>, t: real, r: seq<Beer>)
    requires UniqueStyles(store)
    requires StrictlySorted(r)
    requires forall b :: b in r <==> b in store && InRange(b, t)
    ensures r == FilterByTemperature(store, t)
  {
    StrictlySortedUnique(r, FilterByTemperature(store, t));
  }
}
