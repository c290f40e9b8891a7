/**
 * The Gainer Ranker: the filters that drop failed or too small rows, and the
 * stable descending sort by premarket change (`list.sort` and `sorted` with
 * `reverse=True`, which keep rows with equal keys in their original order).
 */
module Ranking {
  import opened Wrappers
  import opened Quotes

  // ---------------------------------------------------------------- sorting

  /** Non-increasing by `key`. */
  ghost predicate SortedDesc<T>(s: seq<T>, key: T -> real) {
    forall i, j :: 0 <= i < j < |s| ==> key(s[i]) >= key(s[j])
  }

  /** The elements of `s` whose key is `k`, in their order in `s`. */
  function WithKey<T>(s: seq<T>, key: T -> real, k: real): (r: seq<T>)
    ensures |r| <= |s|
  {
    if s == [] then []
    else (if key(s[0]) == k then [s[0]] else []) + WithKey(s[1..], key, k)
  }

  /** Puts `x` in front of the first element whose key is not above its own. */
  function Insert<T>(x: T, s: seq<T>, key: T -> real): (r: seq<T>)
    ensures |r| == |s| + 1
  {
    if s == [] || key(s[0]) <= key(x) then [x] + s
    else [s[0]] + Insert(x, s[1..], key)
  }

  /** Stable sort, descending by `key`: one output row for each input row. */
  function SortDesc<T>(s: seq<T>, key: T -> real): (r: seq<T>)
    ensures |r| == |s|
  {
    if s == [] then [] else Insert(s[0], SortDesc(s[1..], key), key)
  }

  lemma {:induction false} InsertPermutes<T>(x: T, s: seq<T>, key: T -> real)
    ensures multiset(Insert(x, s, key)) == multiset(s) + multiset{x}
  {
    if s != [] && key(s[0]) > key(x) {
      InsertPermutes(x, s[1..], key);
      assert s == [s[0]] + s[1..];
    }
  }

  lemma {:induction false} InsertSorted<T>(x: T, s: seq<T>, key: T -> real)
    requires SortedDesc(s, key)
    ensures SortedDesc(Insert(x, s, key), key)
  {
    if s != [] && key(s[0]) > key(x) {
      var rest := Insert(x, s[1..], key);
      InsertSorted(x, s[1..], key);
      InsertPermutes(x, s[1..], key);
      forall j | 0 <= j < |rest| ensures key(s[0]) >= key(rest[j]) {
        assert rest[j] in multiset(s[1..]) + multiset{x};
        if rest[j] != x {
          assert rest[j] in multiset(s[1..]);
          var m :| 0 <= m < |s[1..]| && s[1..][m] == rest[j];
          assert s[1 + m] == rest[j];
        }
      }
      var r := [s[0]] + rest;
      assert Insert(x, s, key) == r;
      forall i, j | 0 <= i < j < |r| ensures key(r[i]) >= key(r[j]) {
        assert r[j] == rest[j - 1];
        if i > 0 { assert r[i] == rest[i - 1]; }
      }
    }
  }

  lemma WithKeyCons<T>(y: T, s: seq<T>, key: T -> real, k: real)
    ensures WithKey([y] + s, key, k) == (if key(y) == k then [y] else []) + WithKey(s, key, k)
  {
    assert ([y] + s)[1..] == s;
  }

  lemma SwapEmpty<T>(a: seq<T>, b: seq<T>, w: seq<T>)
    requires a == [] || b == []
    ensures a + (b + w) == b + (a + w)
  {
  }

  /** Insertion keeps every key class in order, with `x` at the front of its own. */
  lemma {:induction false} InsertWithKey<T>(x: T, s: seq<T>, key: T -> real, k: real)
    ensures WithKey(Insert(x, s, key), key, k)
         == (if key(x) == k then [x] else []) + WithKey(s, key, k)
  {
    if s == [] || key(s[0]) <= key(x) {
      WithKeyCons(x, s, key, k);
    } else {
      var rest := Insert(x, s[1..], key);
      var head := if key(s[0]) == k then [s[0]] else [];
      var xs := if key(x) == k then [x] else [];
      assert Insert(x, s, key) == [s[0]] + rest;
      InsertWithKey(x, s[1..], key, k);
      WithKeyCons(s[0], rest, key, k);
      assert s == [s[0]] + s[1..];
      WithKeyCons(s[0], s[1..], key, k);
      SwapEmpty(head, xs, WithKey(s[1..], key, k));
    }
  }

  /** The ranked order is a permutation of the input, sorted non-increasing by key. */
  lemma {:induction false} SortDescCorrect<T>(s: seq<T>, key: T -> real)
    ensures multiset(SortDesc(s, key)) == multiset(s)
    ensures |SortDesc(s, key)| == |s|
    ensures SortedDesc(SortDesc(s, key), key)
  {
    if s != [] {
      SortDescCorrect(s[1..], key);
      InsertPermutes(s[0], SortDesc(s[1..], key), key);
      InsertSorted(s[0], SortDesc(s[1..], key), key);
      assert s == [s[0]] + s[1..];
      assert |multiset(SortDesc(s, key))| == |multiset(s)|;
    }
  }

  /** Two permutations of each other have the same members. */
  lemma SameMembers<T>(a: seq<T>, b: seq<T>)
    requires multiset(a) == multiset(b)
    ensures forall x :: x in a <==> x in b
  {
    forall x ensures x in a <==> x in b {
      assert x in a <==> x in multiset(a);
      assert x in b <==> x in multiset(b);
    }
  }

  /** Sorting neither adds nor loses elements. */
  lemma SortDescSameElements<T>(s: seq<T>, key: T -> real)
    ensures forall x :: x in SortDesc(s, key) <==> x in s
  {
    SortDescCorrect(s, key);
    SameMembers(SortDesc(s, key), s);
  }

  /** Stability: rows with equal keys keep their relative order. */
  lemma {:induction false} SortDescStable<T>(s: seq<T>, key: T -> real, k: real)
    ensures WithKey(SortDesc(s, key), key, k) == WithKey(s, key, k)
  {
    if s != [] {
      SortDescStable(s[1..], key, k);
      InsertWithKey(s[0], SortDesc(s[1..], key), key, k);
    }
  }

  // ---------------------------------------------------------------- filters

  /** The row as a ranked row, when both change and capitalisation are present. */
  function AsGainer(r: Row): Gainer
    requires r.pct.Some? && r.mcap.Some?
  {
    Gainer(r.ticker, r.pct.value, r.mcap.value, r.vol)
  }

  /** The test of the multithreaded runners: `pct is not None and mcap is not None and mcap > min`. */
  predicate KeepPresent(r: Row, minCap: real) {
    r.pct.Some? && r.mcap.Some? && r.mcap.value > minCap
  }

  /** Python truthiness of a float that may be `None`. */
  predicate Truthy(v: Option<real>) { v.Some? && v.value != 0.0 }

  /** The test of `getGainers`: `market_cap and pct_change and market_cap > min_market_cap`. */
  predicate KeepTruthy(r: Row, minCap: real) {
    Truthy(r.mcap) && Truthy(r.pct) && r.mcap.value > minCap
  }

  /** The filtering comprehension of `getGainers_mt`. */
  function Present(rows: seq<Row>, minCap: real): (r: seq<Gainer>)
    ensures |r| <= |rows|
  {
    if rows == [] then []
    else (if KeepPresent(rows[0], minCap) then [AsGainer(rows[0])] else []) + Present(rows[1..], minCap)
  }

  /**
   * The filter keeps exactly the rows whose change and capitalisation are not
   * `None` and whose capitalisation is strictly above the floor.
   */
  lemma {:induction false} PresentExactly(rows: seq<Row>, minCap: real)
    ensures forall g :: g in Present(rows, minCap) ==>
              g.mcap > minCap && Row(g.ticker, Some(g.pct), Some(g.mcap), g.vol) in rows
    ensures forall i :: 0 <= i < |rows| && KeepPresent(rows[i], minCap) ==> AsGainer(rows[i]) in Present(rows, minCap)
  {
    if rows != [] {
      PresentExactly(rows[1..], minCap);
      assert forall i :: 1 <= i < |rows| ==> rows[i] == rows[1..][i - 1];
    }
  }

  /** The filtering comprehension of `getGainers` in commands/helpers/filter_gainers.py. */
  function Truthful(rows: seq<Row>, minCap: real): (r: seq<Gainer>)
    ensures |r| <= |rows|
  {
    if rows == [] then []
    else (if KeepTruthy(rows[0], minCap) then [AsGainer(rows[0])] else []) + Truthful(rows[1..], minCap)
  }

  /**
   * The truthiness filter keeps exactly the rows whose capitalisation and
   * change are present and non-zero, with the capitalisation above the floor.
   */
  lemma {:induction false} TruthfulExactly(rows: seq<Row>, minCap: real)
    ensures forall g :: g in Truthful(rows, minCap) ==>
              g.mcap > minCap && g.pct != 0.0 && g.mcap != 0.0 &&
              Row(g.ticker, Some(g.pct), Some(g.mcap), g.vol) in rows
    ensures forall i :: 0 <= i < |rows| && KeepTruthy(rows[i], minCap) ==> AsGainer(rows[i]) in Truthful(rows, minCap)
  {
    if rows != [] {
      TruthfulExactly(rows[1..], minCap);
      assert forall i :: 1 <= i < |rows| ==> rows[i] == rows[1..][i - 1];
    }
  }

  /** The filter distributes over concatenation. */
  lemma {:induction false} PresentAppend(a: seq<Row>, b: seq<Row>, minCap: real)
    ensures Present(a + b, minCap) == Present(a, minCap) + Present(b, minCap)
  {
    if a != [] {
      assert (a + b)[0] == a[0];
      assert (a + b)[1..] == a[1..] + b;
      PresentAppend(a[1..], b, minCap);
    } else {
      assert a + b == b;
    }
  }

  /**
   * The row of a ticker whose fetch failed adds nothing to the table, wherever
   * it lands in `all_rows`, and the truthiness filter drops it as well.
   */
  lemma FailureRowDropped(a: seq<Row>, t: string, b: seq<Row>, minCap: real)
    ensures Present(a + [FailureRow(t)] + b, minCap) == Present(a + b, minCap)
    ensures Truthful([FailureRow(t)], minCap) == []
  {
    PresentAppend(a, [FailureRow(t)], minCap);
    PresentAppend(a + [FailureRow(t)], b, minCap);
    PresentAppend(a, b, minCap);
  }

  /** Taking the element at `j` out of a sequence takes it out of its multiset. */
  lemma RemoveAt<T>(b: seq<T>, j: nat)
    requires j < |b|
    ensures multiset(b[..j] + b[j + 1..]) == multiset(b) - multiset{b[j]}
  {
    assert b == b[..j] + [b[j]] + b[j + 1..];
  }

  /** Filtering the sequence with its element at `j` taken out. */
  lemma PresentRemoveAt(b: seq<Row>, j: nat, minCap: real)
    requires j < |b|
    ensures multiset(Present(b, minCap))
         == multiset(Present(b[..j] + b[j + 1..], minCap)) + multiset(Present([b[j]], minCap))
  {
    assert b == (b[..j] + [b[j]]) + b[j + 1..];
    PresentAppend(b[..j] + [b[j]], b[j + 1..], minCap);
    PresentAppend(b[..j], [b[j]], minCap);
    PresentAppend(b[..j], b[j + 1..], minCap);
  }

  /** One step of the permutation proof: take the first row of `a` out of `b` at `j`. */
  lemma PresentPermutationStep(a: seq<Row>, b: seq<Row>, j: nat, minCap: real)
    requires a != [] && j < |b| && b[j] == a[0]
    requires multiset(Present(a[1..], minCap)) == multiset(Present(b[..j] + b[j + 1..], minCap))
    ensures multiset(Present(a, minCap)) == multiset(Present(b, minCap))
  {
    PresentRemoveAt(a, 0, minCap);
    assert a[..0] + a[1..] == a[1..];
    PresentRemoveAt(b, j, minCap);
  }

  /** The first element of `a` occurs in its permutation `b`; the rest are permutations too. */
  lemma PickFirst<T>(a: seq<T>, b: seq<T>) returns (j: nat)
    requires a != [] && multiset(a) == multiset(b)
    ensures j < |b| && b[j] == a[0]
    ensures multiset(a[1..]) == multiset(b[..j] + b[j + 1..])
  {
    var x := a[0];
    assert a == [x] + a[1..];
    assert multiset(a) == multiset{x} + multiset(a[1..]);
    assert x in multiset(b);
    j :| 0 <= j < |b| && b[j] == x;
    RemoveAt(b, j);
  }

  /** Filtering two permutations of the same rows gives permutations of the same ranked rows. */
  lemma {:induction false} PresentPermutation(a: seq<Row>, b: seq<Row>, minCap: real)
    requires multiset(a) == multiset(b)
    ensures multiset(Present(a, minCap)) == multiset(Present(b, minCap))
  {
    if a != [] {
      var j := PickFirst(a, b);
      PresentPermutation(a[1..], b[..j] + b[j + 1..], minCap);
      PresentPermutationStep(a, b, j, minCap);
    }
  }

  /** `pct is not None` keeps a premarket change of exactly zero. */
  lemma ZeroChangeKept(t: string, cap: real, vol: Option<real>, minCap: real)
    requires cap > minCap
    ensures Present([Row(t, Some(0.0), Some(cap), vol)], minCap) == [Gainer(t, 0.0, cap, vol)]
  {
  }

  /** Python truthiness drops a premarket change of exactly zero. */
  lemma ZeroChangeDropped(t: string, cap: real, vol: Option<real>, minCap: real)
    ensures Truthful([Row(t, Some(0.0), Some(cap), vol)], minCap) == []
  {
  }

  /** The capitalisation floor is strict: a row exactly at it is dropped by both filters. */
  lemma FloorIsStrict(t: string, pct: real, vol: Option<real>, minCap: real)
    ensures Present([Row(t, Some(pct), Some(minCap), vol)], minCap) == []
    ensures Truthful([Row(t, Some(pct), Some(minCap), vol)], minCap) == []
  {
  }
}
