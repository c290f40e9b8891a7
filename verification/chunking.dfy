/**
 * `chunked(seq, n_chunks)`, identical in commands/helpers/gainer_multiThread.py
 * and gainer_multiThread.py, and the merge of the per-chunk results in the
 * order in which the worker threads complete.
 */
module Chunking {
  import opened Wrappers
  import Ranking

  // ------------------------------------------------------------ partition

  /** `max(1, n_chunks)`. */
  function Clamp(nChunks: int): (n: int)
    ensures n >= 1 && n >= nChunks
    ensures nChunks >= 1 ==> n == nChunks
    ensures nChunks < 1 ==> n == 1
  {
    if nChunks < 1 then 1 else nChunks
  }

  /** `math.ceil(length / n)`, computed exactly on integers. */
  function CeilDiv(length: nat, n: int): (size: nat)
    requires n >= 1
    ensures size * n >= length
    ensures (size - 1) * n < length || size == 0
    ensures size == 0 <==> length == 0
  {
    CeilDivFacts(length, n);
    (length + n - 1) / n
  }

  lemma CeilDivFacts(length: nat, n: int)
    requires n >= 1
    ensures var q := (length + n - 1) / n;
      q >= 0 && q * n >= length && ((q - 1) * n < length || q == 0) && (q == 0 <==> length == 0)
  {
    var x := length + n - 1;
    var q := x / n;
    var m := x % n;
    assert x == q * n + m && 0 <= m < n;
    assert (q - 1) * n == q * n - n;
  }

  /** `[s[i:i+size] for i in range(0, len(s), size)]` for a step `size >= 1`. */
  function Split<T>(s: seq<T>, size: nat): (r: seq<seq<T>>)
    requires size >= 1
    ensures |r| <= |s|
    decreases |s|
  {
    if s == [] then []
    else if |s| <= size then [s]
    else [s[..size]] + Split(s[size..], size)
  }

  /**
   * `chunked(s, n_chunks)`. When `s` is empty the step is 0 and `range` raises
   * `ValueError`.
   */
  function Chunked<T>(s: seq<T>, nChunks: int): (r: Result<seq<seq<T>>>)
    ensures r.Raised? <==> s == []
    ensures r.Ok? ==> r.value == Split(s, ChunkSize(|s|, nChunks))
  {
    var size := CeilDiv(|s|, Clamp(nChunks));
    if size == 0 then Raised("ValueError") else Ok(Split(s, size))
  }

  /** The chunk length `chunked` uses. */
  function ChunkSize(length: nat, nChunks: int): (size: nat)
    ensures size * Clamp(nChunks) >= length
    ensures length > 0 ==> size >= 1 && (size - 1) * Clamp(nChunks) < length
  {
    CeilDiv(length, Clamp(nChunks))
  }

  /** The number of chunks `chunked` makes (zero for an empty input, where it raises). */
  function NumChunks<T>(s: seq<T>, nChunks: int): nat {
    if s == [] then 0 else |Split(s, ChunkSize(|s|, nChunks))|
  }

  /** Concatenation of a list of lists, first to last. */
  function Flatten<T>(ss: seq<seq<T>>): (r: seq<T>) {
    if ss == [] then [] else ss[0] + Flatten(ss[1..])
  }

  lemma {:induction false} FlattenAppend<T>(a: seq<seq<T>>, b: seq<seq<T>>)
    ensures Flatten(a + b) == Flatten(a) + Flatten(b)
  {
    if a == [] {
      assert a + b == b;
    } else {
      assert (a + b)[0] == a[0];
      assert (a + b)[1..] == a[1..] + b;
      FlattenAppend(a[1..], b);
    }
  }

  /** The chunks, put back together in order, are the input. */
  lemma {:induction false} SplitFlatten<T>(s: seq<T>, size: nat)
    requires size >= 1
    ensures Flatten(Split(s, size)) == s
    decreases |s|
  {
    if s != [] && |s| > size {
      SplitFlatten(s[size..], size);
      var r := Split(s, size);
      assert r[0] == s[..size] && r[1..] == Split(s[size..], size);
      assert s == s[..size] + s[size..];
    } else if s != [] {
      assert Flatten([s]) == s + Flatten<T>([]);
    }
  }

  /**
   * Every chunk is non-empty and at most `size` long, and every chunk but the
   * last is exactly `size` long.
   */
  lemma {:induction false} SplitShape<T>(s: seq<T>, size: nat)
    requires size >= 1
    ensures var r := Split(s, size);
      forall i :: 0 <= i < |r| ==> 0 < |r[i]| <= size && (i < |r| - 1 ==> |r[i]| == size)
    decreases |s|
  {
    if s != [] && |s| > size {
      SplitShape(s[size..], size);
      var r := Split(s, size);
      assert forall i :: 1 <= i < |r| ==> r[i] == Split(s[size..], size)[i - 1];
    }
  }

  /** The number of chunks is the least count whose chunks of `size` cover the input. */
  lemma {:induction false} SplitCount<T>(s: seq<T>, size: nat)
    requires size >= 1
    ensures var c := |Split(s, size)|;
      c * size >= |s| && (c == 0 || (c - 1) * size < |s|)
    decreases |s|
  {
    if s != [] && |s| > size {
      SplitCount(s[size..], size);
      var c := |Split(s[size..], size)|;
      assert |Split(s, size)| == c + 1;
      assert (c + 1) * size == c * size + size;
      assert (c + 1 - 1) * size == c * size;
    }
  }

  /** `a * c < b * c` with `c > 0` gives `a < b`. */
  lemma MulCancel(a: int, b: int, c: int)
    requires c > 0 && a * c < b * c
    ensures a < b
  {
  }

  /**
   * For a non-empty input, `chunked` makes non-empty chunks, each at most
   * `ceil(len/n)` long and all but the last exactly that long, whose
   * concatenation is the input, and at most `max(1, n_chunks)` of them.
   */
  lemma ChunkedFacts<T>(s: seq<T>, nChunks: int)
    requires s != []
    ensures Chunked(s, nChunks).Ok?
    ensures var cs := Chunked(s, nChunks).value;
      var size := ChunkSize(|s|, nChunks);
      && Flatten(cs) == s
      && (forall i :: 0 <= i < |cs| ==> 0 < |cs[i]| <= size && (i < |cs| - 1 ==> |cs[i]| == size))
      && 1 <= |cs| <= Clamp(nChunks)
      && |cs| == NumChunks(s, nChunks)
  {
    var size := ChunkSize(|s|, nChunks);
    var n := Clamp(nChunks);
    SplitFlatten(s, size);
    SplitShape(s, size);
    SplitCount(s, size);
    CountWithin(|Split(s, size)|, |s|, size, n);
  }

  /** `c` pieces of `size`, the last one partial, fit in `n` pieces when `size * n` covers the length. */
  lemma CountWithin(c: nat, length: nat, size: nat, n: nat)
    requires size >= 1 && c >= 1
    requires (c - 1) * size < length <= size * n
    ensures c <= n
  {
    assert (c - 1) * size < n * size;
    MulCancel(c - 1, n, size);
  }

  // ---------------------------------------------------------------- merge

  /** `[0, 1, ..., n - 1]`. */
  function Range(n: nat): (r: seq<nat>)
    ensures |r| == n
    ensures forall i :: 0 <= i < n ==> r[i] == i
  {
    if n == 0 then [] else Range(n - 1) + [n - 1]
  }

  /**
   * An order in which `n` futures can complete: every chunk index exactly once.
   */
  predicate IsSchedule(order: seq<nat>, n: nat) {
    multiset(order) == multiset(Range(n))
  }

  predicate InRange(order: seq<nat>, n: nat) {
    forall j :: 0 <= j < |order| ==> order[j] < n
  }

  /** `all_rows.extend(f.result())` for the futures in the order `order` names them. */
  function Merge<T>(outs: seq<seq<T>>, order: seq<nat>): seq<T>
    requires InRange(order, |outs|)
  {
    if order == [] then []
    else Merge(outs, order[..|order| - 1]) + outs[order[|order| - 1]]
  }

  lemma ScheduleInRange(order: seq<nat>, n: nat)
    requires IsSchedule(order, n)
    ensures InRange(order, n)
    ensures |order| == n
  {
    forall j | 0 <= j < |order| ensures order[j] < n {
      assert order[j] in multiset(Range(n));
    }
    assert |multiset(order)| == |multiset(Range(n))|;
  }

  /**
   * The `as_completed` loop: the outputs are appended one future at a time, in
   * the order `order` names them.
   */
  method MergeInOrder<T>(outs: seq<seq<T>>, order: seq<nat>) returns (all: seq<T>)
    requires InRange(order, |outs|)
    ensures all == Merge(outs, order)
  {
    all := [];
    var j := 0;
    while j < |order|
      invariant 0 <= j <= |order|
      invariant InRange(order[..j], |outs|)
      invariant all == Merge(outs, order[..j])
    {
      assert order[..j + 1][..j] == order[..j];
      all := all + outs[order[j]];
      j := j + 1;
    }
    assert order[..j] == order;
  }

  lemma InRangeAppend(a: seq<nat>, b: seq<nat>, n: nat)
    requires InRange(a, n) && InRange(b, n)
    ensures InRange(a + b, n)
  {
    forall j | 0 <= j < |a + b| ensures (a + b)[j] < n {
      if j >= |a| {
        assert (a + b)[j] == b[j - |a|];
      }
    }
  }

  /** One more completed future: its rows go at the end. */
  lemma MergeSnoc<T>(outs: seq<seq<T>>, a: seq<nat>, x: nat)
    requires InRange(a, |outs|) && x < |outs|
    ensures InRange(a + [x], |outs|)
    ensures Merge(outs, a + [x]) == Merge(outs, a) + outs[x]
  {
    InRangeAppend(a, [x], |outs|);
    assert (a + [x])[..|a|] == a;
  }

  lemma {:induction false} MergeAppend<T>(outs: seq<seq<T>>, a: seq<nat>, b: seq<nat>)
    requires InRange(a, |outs|) && InRange(b, |outs|)
    ensures InRange(a + b, |outs|)
    ensures Merge(outs, a + b) == Merge(outs, a) + Merge(outs, b)
  {
    InRangeAppend(a, b, |outs|);
    if b == [] {
      assert a + b == a;
    } else {
      var b' := b[..|b| - 1];
      var c := b[|b| - 1];
      assert InRange(b', |outs|);
      MergeAppend(outs, a, b');
      assert a + b == (a + b') + [c];
      MergeSnoc(outs, a + b', c);
    }
  }

  /** Completing in submission order gives the plain concatenation. */
  lemma {:induction false} MergeRange<T>(outs: seq<seq<T>>, m: nat)
    requires m <= |outs|
    ensures InRange(Range(m), |outs|)
    ensures Merge(outs, Range(m)) == Flatten(outs[..m])
  {
    if m > 0 {
      MergeRange(outs, m - 1);
      assert Range(m) == Range(m - 1) + [m - 1];
      MergeSnoc(outs, Range(m - 1), m - 1);
      FlattenLast(outs[..m]);
      assert outs[..m][..m - 1] == outs[..m - 1];
    }
  }

  /** The last list goes at the end of the concatenation. */
  lemma FlattenLast<T>(ss: seq<seq<T>>)
    requires ss != []
    ensures Flatten(ss) == Flatten(ss[..|ss| - 1]) + ss[|ss| - 1]
  {
    var n := |ss|;
    assert ss == ss[..n - 1] + [ss[n - 1]];
    FlattenAppend(ss[..n - 1], [ss[n - 1]]);
    assert Flatten([ss[n - 1]]) == ss[n - 1] + Flatten<T>([]);
  }

  /** One step of the permutation proof: take the last index of `o1` out of `o2` at `j`. */
  lemma MergeRemoveAt<T>(outs: seq<seq<T>>, o2: seq<nat>, j: nat)
    requires j < |o2| && InRange(o2, |outs|)
    ensures InRange(o2[..j] + o2[j + 1..], |outs|)
    ensures multiset(Merge(outs, o2))
         == multiset(Merge(outs, o2[..j] + o2[j + 1..])) + multiset(outs[o2[j]])
  {
    assert o2 == (o2[..j] + [o2[j]]) + o2[j + 1..];
    MergeAppend(outs, o2[..j] + [o2[j]], o2[j + 1..]);
    MergeAppend(outs, o2[..j], [o2[j]]);
    MergeAppend(outs, o2[..j], o2[j + 1..]);
    assert Merge(outs, [o2[j]]) == Merge(outs, []) + outs[o2[j]];
  }

  /** The rows merged depend only on which futures completed, not on their order. */
  lemma {:induction false} MergePermutes<T>(outs: seq<seq<T>>, o1: seq<nat>, o2: seq<nat>)
    requires InRange(o1, |outs|) && InRange(o2, |outs|)
    requires multiset(o1) == multiset(o2)
    ensures multiset(Merge(outs, o1)) == multiset(Merge(outs, o2))
    decreases |o1|
  {
    if o1 != [] {
      var init := o1[..|o1| - 1];
      var j := PickLast(o1, o2);
      var rest := o2[..j] + o2[j + 1..];
      MergeRemoveAt(outs, o2, j);
      assert InRange(init, |outs|);
      MergePermutes(outs, init, rest);
      assert o1 == init + [o2[j]];
      MergeSnoc(outs, init, o2[j]);
    } else {
      assert o2 == [];
    }
  }

  /** The last index of `o1` occurs in its permutation `o2`; the rest are permutations too. */
  lemma PickLast(o1: seq<nat>, o2: seq<nat>) returns (j: nat)
    requires o1 != [] && multiset(o1) == multiset(o2)
    ensures j < |o2| && o2[j] == o1[|o1| - 1]
    ensures multiset(o1[..|o1| - 1]) == multiset(o2[..j] + o2[j + 1..])
  {
    var x := o1[|o1| - 1];
    assert o1 == o1[..|o1| - 1] + [x];
    assert x in multiset(o2);
    j :| 0 <= j < |o2| && o2[j] == x;
    Ranking.RemoveAt(o2, j);
  }

  /**
   * Whatever order the futures complete in, the merged rows are a permutation
   * of the chunk outputs concatenated in submission order.
   */
  lemma MergeSchedule<T>(outs: seq<seq<T>>, order: seq<nat>)
    requires IsSchedule(order, |outs|)
    ensures InRange(order, |outs|)
    ensures multiset(Merge(outs, order)) == multiset(Flatten(outs))
    ensures |Merge(outs, order)| == |Flatten(outs)|
  {
    ScheduleInRange(order, |outs|);
    MergeRange(outs, |outs|);
    assert outs[..|outs|] == outs;
    MergePermutes(outs, order, Range(|outs|));
    assert |multiset(Merge(outs, order))| == |multiset(Flatten(outs))|;
  }
}
