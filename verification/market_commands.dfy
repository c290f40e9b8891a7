/**
 * commands/market_commands.py, `top5`: the first five and the last five rows
 * of the ranked table, concatenated, with duplicate rows dropped (pandas
 * `drop_duplicates` compares whole rows and keeps the first occurrence).
 * Rows are of any type: only their equality matters.
 */
module MarketCommands {

  function Min(a: int, b: int): int { if a <= b then a else b }

  /** No row occurs twice. */
  predicate Distinct<T(==)>(s: seq<T>) {
    forall i, j :: 0 <= i < j < |s| ==> s[i] != s[j]
  }

  /** `df.head(k)`: the first `min(k, n)` rows. */
  function Head<T>(s: seq<T>, k: nat): (r: seq<T>)
    ensures |r| == Min(k, |s|)
    ensures forall i :: 0 <= i < |r| ==> r[i] == s[i]
  {
    s[..Min(k, |s|)]
  }

  /** `df.tail(k)`: the last `min(k, n)` rows. */
  function Tail<T>(s: seq<T>, k: nat): (r: seq<T>)
    ensures |r| == Min(k, |s|)
    ensures forall i :: 0 <= i < |r| ==> r[i] == s[|s| - |r| + i]
  {
    s[|s| - Min(k, |s|)..]
  }

  /**
   * `drop_duplicates()`: each row at its first occurrence, in order. The
   * result is free of duplicates and holds exactly the rows of `s`.
   */
  function DropDuplicates<T(==)>(s: seq<T>): (r: seq<T>)
    ensures Distinct(r)
    ensures forall i :: 0 <= i < |r| ==> r[i] in s
    ensures forall i :: 0 <= i < |s| ==> s[i] in r
    ensures |r| <= |s|
  {
    if s == [] then []
    else
      var init := s[..|s| - 1];
      var d := DropDuplicates(init);
      if s[|s| - 1] in init then d else d + [s[|s| - 1]]
  }

  /** A table without duplicates is left as it is. */
  lemma {:induction false} DropDuplicatesOfDistinct<T>(s: seq<T>)
    requires Distinct(s)
    ensures DropDuplicates(s) == s
  {
    if s != [] {
      var init := s[..|s| - 1];
      DropDuplicatesOfDistinct(init);
      assert s == init + [s[|s| - 1]];
    }
  }

  /** One more row: dropped if it already occurred, kept at the end otherwise. */
  lemma DropSnoc<T>(s: seq<T>, c: T)
    ensures DropDuplicates(s + [c]) == if c in s then DropDuplicates(s) else DropDuplicates(s) + [c]
  {
    assert (s + [c])[..|s|] == s;
  }

  /** Rows that already occurred in `x` contribute nothing after it. */
  lemma {:induction false} DropRepeated<T>(x: seq<T>, y: seq<T>)
    requires forall e :: e in y ==> e in x
    ensures DropDuplicates(x + y) == DropDuplicates(x)
  {
    if y == [] {
      assert x + y == x;
    } else {
      var y' := y[..|y| - 1];
      var c := y[|y| - 1];
      DropRepeated(x, y');
      assert x + y == (x + y') + [c];
      DropSnoc(x + y', c);
    }
  }

  /** Rows of `y` that already occurred in `x` can be skipped, whatever follows. */
  lemma {:induction false} DropRepeatedMiddle<T>(x: seq<T>, y: seq<T>, z: seq<T>)
    requires forall e :: e in y ==> e in x
    ensures DropDuplicates(x + y + z) == DropDuplicates(x + z)
  {
    if z == [] {
      assert x + y + z == x + y;
      assert x + z == x;
      DropRepeated(x, y);
    } else {
      var z' := z[..|z| - 1];
      var c := z[|z| - 1];
      DropRepeatedMiddle(x, y, z');
      assert x + y + z == (x + y + z') + [c];
      assert x + z == (x + z') + [c];
      assert c in x + y + z' <==> c in x + z';
      DropSnoc(x + y + z', c);
      DropSnoc(x + z', c);
    }
  }

  /**
   * `pd.concat([df.head(5), df.tail(5)]).drop_duplicates()`: at most ten rows,
   * no duplicates, every one from the table, and an empty table gives an empty
   * selection.
   */
  function TopBottom<T(==)>(s: seq<T>): (r: seq<T>)
    ensures |r| <= 10
    ensures Distinct(r)
    ensures forall i :: 0 <= i < |r| ==> r[i] in s
    ensures s == [] ==> r == []
  {
    DropDuplicates(Head(s, 5) + Tail(s, 5))
  }

  /** Up to ten distinct rows: the selection is the whole table, in order. */
  lemma TopBottomSmall<T>(s: seq<T>)
    requires Distinct(s) && |s| <= 10
    ensures TopBottom(s) == s
  {
    var n := |s|;
    var a := Min(5, n);
    assert Head(s, 5) == s[..a];
    assert Tail(s, 5) == s[n - a..];
    if n <= 5 {
      assert s[..a] == s && s[n - a..] == s;
      DropRepeated(s, s);
    } else {
      assert s[n - 5..] == s[n - 5..5] + s[5..];
      assert s[..5] + s[n - 5..] == s[..5] + s[n - 5..5] + s[5..];
      DropRepeatedMiddle(s[..5], s[n - 5..5], s[5..]);
      assert s[..5] + s[5..] == s;
    }
    DropDuplicatesOfDistinct(s);
  }

  /** Ten or more distinct rows: the first five followed by the last five. */
  lemma TopBottomLarge<T>(s: seq<T>)
    requires Distinct(s) && |s| >= 10
    ensures TopBottom(s) == s[..5] + s[|s| - 5..]
    ensures |TopBottom(s)| == 10
  {
    HeadTailLarge(s);
    EndsDistinct(s);
    DropDuplicatesOfDistinct(s[..5] + s[|s| - 5..]);
  }

  lemma HeadTailLarge<T>(s: seq<T>)
    requires |s| >= 10
    ensures Head(s, 5) + Tail(s, 5) == s[..5] + s[|s| - 5..]
  {
  }

  /** The first five and the last five rows of a distinct table of ten or more do not overlap. */
  lemma EndsDistinct<T>(s: seq<T>)
    requires Distinct(s) && |s| >= 10
    ensures Distinct(s[..5] + s[|s| - 5..])
  {
    var n := |s|;
    var c := s[..5] + s[n - 5..];
    forall i, j | 0 <= i < j < |c| ensures c[i] != c[j] {
      var i' := if i < 5 then i else n - 10 + i;
      var j' := if j < 5 then j else n - 10 + j;
      assert c[i] == s[i'] && c[j] == s[j'];
    }
  }
}
