/**
 * commands/helpers/utility.py: ticker normalisation and the number
 * formatters used for the ranked table. The formatters are modelled up to the
 * choice of placeholder, suffix tier and scaled value; the digit string that
 * Python's `.2f` produces is not modelled.
 */
module Utility {
  import opened Wrappers
  import opened Text

  /** `t.replace('.', '-').upper().strip()`. */
  function NormalizeTicker(t: string): (r: string)
    ensures '.' !in r
    ensures forall i :: 0 <= i < |r| ==> !IsLowerAscii(r[i])
    ensures NoOuterSpace(r)
    ensures |r| <= |t|
  {
    var upper := Upper(ReplaceChar(t, '.', '-'));
    UpperNoDot(t);
    Strip(upper)
  }

  /** Before stripping, the ticker has no dot and no lower-case ASCII letter. */
  lemma UpperNoDot(t: string)
    ensures forall c :: c in Upper(ReplaceChar(t, '.', '-')) ==> c != '.' && !IsLowerAscii(c)
  {
    var replaced := ReplaceChar(t, '.', '-');
    var upper := Upper(replaced);
    forall i | 0 <= i < |upper| ensures upper[i] != '.' && !IsLowerAscii(upper[i]) {
      assert replaced[i] != '.';
    }
  }

  /** The character map of `normalize_ticker`: '.' becomes '-', ASCII letters are upper-cased. */
  function MapChar(c: char): char {
    UpperChar(if c == '.' then '-' else c)
  }

  /**
   * `r` is the slice of `t` from `i` with every character mapped by `MapChar`,
   * and `t` has only whitespace around that slice.
   */
  predicate NormalizedAt(t: string, r: string, i: int) {
    && 0 <= i && i + |r| <= |t|
    && (forall k :: 0 <= k < |r| ==> r[k] == MapChar(t[i + k]))
    && (forall k :: 0 <= k < i ==> IsSpace(t[k]))
    && (forall k :: i + |r| <= k < |t| ==> IsSpace(t[k]))
  }

  /** The character map keeps exactly the whitespace characters whitespace. */
  lemma MapCharSpace(c: char)
    ensures IsSpace(MapChar(c)) <==> IsSpace(c)
  {
  }

  lemma MappedInfix(t: string, mapped: string, r: string, i: int)
    requires |mapped| == |t|
    requires forall k :: 0 <= k < |t| ==> mapped[k] == MapChar(t[k])
    requires OuterSpaceAround(mapped, r, i)
    ensures NormalizedAt(t, r, i)
  {
    forall k | 0 <= k < |t| && IsSpace(mapped[k]) ensures IsSpace(t[k]) {
      MapCharSpace(t[k]);
    }
    forall k | 0 <= k < |r| ensures r[k] == MapChar(t[i + k]) {
      assert r[k] == mapped[i + k];
    }
  }

  /** The normalised ticker keeps every inner character of `t`, mapped, and drops only outer whitespace. */
  lemma NormalizeTickerChars(t: string)
    ensures exists i :: NormalizedAt(t, NormalizeTicker(t), i)
  {
    var upper := Upper(ReplaceChar(t, '.', '-'));
    assert forall k :: 0 <= k < |t| ==> upper[k] == MapChar(t[k]);
    StripIsInfix(upper);
    var i :| OuterSpaceAround(upper, Strip(upper), i);
    MappedInfix(t, upper, Strip(upper), i);
    assert NormalizeTicker(t) == Strip(upper);
    assert NormalizedAt(t, NormalizeTicker(t), i);
  }

  /** Normalising an already normalised ticker is a no-op. */
  lemma NormalizeIdempotent(t: string)
    ensures NormalizeTicker(NormalizeTicker(t)) == NormalizeTicker(t)
  {
    var n := NormalizeTicker(t);
    ReplaceAbsent(n, '.', '-');
    UpperOfUpper(n);
    StripNoOp(n);
  }

  /** The suffix a formatted number carries. */
  datatype Suffix = Trillions | Billions | Millions | Thousands | NoSuffix

  function Scale(s: Suffix): real {
    match s
    case Trillions => 1_000_000_000_000.0
    case Billions => 1_000_000_000.0
    case Millions => 1_000_000.0
    case Thousands => 1_000.0
    case NoSuffix => 1.0
  }

  /**
   * A formatted table cell: the placeholder shown when `float(v)` fails, a
   * value scaled down to a suffix, or a percentage (the fraction times 100).
   */
  datatype Cell = Placeholder | Scaled(mantissa: real, suffix: Suffix) | Percent(points: real)

  /**
   * The suffix tier of `format_large_num`: T from 1e12, B from 1e9, M from 1e6,
   * K from 1e3, none below. The printed mantissa times the suffix's scale is the
   * value; it is at least 1 whenever a suffix is printed and below 1000 unless
   * the suffix is T.
   */
  function Tiered(v: real): (c: Cell)
    ensures c.Scaled?
    ensures c.mantissa * Scale(c.suffix) == v
    ensures c.suffix != NoSuffix ==> c.mantissa >= 1.0
    ensures c.suffix != Trillions ==> c.mantissa < 1000.0
  {
    if v >= 1_000_000_000_000.0 then Scaled(v / 1_000_000_000_000.0, Trillions)
    else if v >= 1_000_000_000.0 then Scaled(v / 1_000_000_000.0, Billions)
    else if v >= 1_000_000.0 then Scaled(v / 1_000_000.0, Millions)
    else if v >= 1_000.0 then Scaled(v / 1_000.0, Thousands)
    else Scaled(v, NoSuffix)
  }

  /** The three facts in Tiered's contract pin the tier down: no other cell has them. */
  lemma TierDetermined(v: real, c: Cell)
    requires c.Scaled? && c.mantissa * Scale(c.suffix) == v
    requires c.suffix != NoSuffix ==> c.mantissa >= 1.0
    requires c.suffix != Trillions ==> c.mantissa < 1000.0
    ensures c == Tiered(v)
  {
    match c.suffix
    case Trillions =>
    case Billions =>
    case Millions =>
    case Thousands =>
    case NoSuffix =>
  }

  /** `format_large_num(v)`: the placeholder when `float(v)` raises (for `None`), else the tier. */
  function FormatLargeNum(v: Option<real>): (c: Cell)
    ensures c.Placeholder? <==> v.None?
    ensures v.Some? ==> c.Scaled? && c.mantissa * Scale(c.suffix) == v.value
  {
    match v
    case None => Placeholder
    case Some(x) => Tiered(x)
  }

  /** `format_percentage(v)`: the placeholder for `None`, else the fraction as percentage points. */
  function FormatPercentage(v: Option<real>): (c: Cell)
    ensures c.Placeholder? <==> v.None?
    ensures v.Some? ==> c.Percent? && c.points == v.value * 100.0
  {
    match v
    case None => Placeholder
    case Some(x) => Percent(x * 100.0)
  }
}
