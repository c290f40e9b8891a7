/**
 * commands/helpers/plotting_helper.py: `truncate_text`, which shortens chart
 * labels, and `clean_name`, which drops corporate suffixes from company names
 * with one regular-expression substitution and a strip.
 */
module PlottingHelper {
  import opened Wrappers
  import opened Text

  // --------------------------------------------------------- truncate_text

  /** Where the Python slice `text[:k]` ends, negative `k` counting from the end. */
  function SliceEnd(len: nat, k: int): (e: nat)
    ensures e <= len
    ensures k >= 0 ==> e == if k <= len then k else len
  {
    if k >= 0 then (if k <= len then k else len)
    else if len + k >= 0 then len + k else 0
  }

  /** `truncate_text(text, max_chars)`. */
  function TruncateText(text: string, maxChars: int): (r: string)
    ensures |text| <= maxChars ==> r == text
    ensures |text| > maxChars ==> r == text[..SliceEnd(|text|, maxChars - 3)] + "..."
  {
    if |text| > maxChars then text[..SliceEnd(|text|, maxChars - 3)] + "..." else text
  }

  /**
   * With a limit of at least 3, a longer text keeps its first `max_chars - 3`
   * characters, ends in the ellipsis, and is exactly `max_chars` long; no
   * result is longer than the limit.
   */
  lemma TruncateBounds(text: string, maxChars: int)
    requires maxChars >= 3
    ensures |TruncateText(text, maxChars)| <= maxChars
    ensures |text| > maxChars ==>
              var r := TruncateText(text, maxChars);
              |r| == maxChars && r[..maxChars - 3] == text[..maxChars - 3] && r[maxChars - 3..] == "..."
  {
  }

  /** With a limit of at least 3, truncating twice is truncating once. */
  lemma TruncateIdempotent(text: string, maxChars: int)
    requires maxChars >= 3
    ensures TruncateText(TruncateText(text, maxChars), maxChars) == TruncateText(text, maxChars)
  {
    TruncateBounds(text, maxChars);
  }

  /** Below 3 the negative slice index makes the "truncated" label longer than the limit. */
  lemma TruncateShortLimit()
    ensures TruncateText("abcd", 2) == "abc..."
    ensures TruncateText("a", 0) == "..."
  {
    assert "abcd"[..3] == "abc";
    assert "a"[..0] == "";
  }

  // ------------------------------------------------------------ clean_name

  /** ASCII case-insensitive occurrence of the lower-case word `w` at `k`. */
  predicate WordAt(s: string, k: nat, w: string) {
    k + |w| <= |s| && forall m :: 0 <= m < |w| ==> LowerChar(s[k + m]) == w[m]
  }

  /** `\b` at position `p`: a word character on exactly one side. */
  predicate Boundary(s: string, p: nat)
    requires p <= |s|
  {
    (p > 0 && IsWordChar(s[p - 1])) != (p < |s| && IsWordChar(s[p]))
  }

  /** The end of the longest run of whitespace starting at `j` (`\s*`). */
  function SpaceRunEnd(s: string, j: nat): (k: nat)
    requires j <= |s|
    ensures j <= k <= |s|
    ensures forall m :: j <= m < k ==> IsSpace(s[m])
    ensures k == |s| || !IsSpace(s[k])
    decreases |s| - j
  {
    if j < |s| && IsSpace(s[j]) then SpaceRunEnd(s, j + 1) else j
  }

  /** The trailing `\.?`, greedy. */
  function OptDot(s: string, e: nat): (f: nat)
    requires e <= |s|
    ensures e <= f <= |s|
  {
    if e < |s| && s[e] == '.' then e + 1 else e
  }

  /**
   * `w\.?` followed by `\b\.?` at `k`, with the backtracking of the regular
   * expression engine: first with the optional dot of the alternative, then
   * without it.
   */
  function WordWithDot(s: string, k: nat, w: string): (r: Option<nat>)
    requires k <= |s|
    ensures r.Some? ==> k + |w| <= r.value <= |s|
  {
    if !WordAt(s, k, w) then None
    else
      var e := k + |w|;
      if e < |s| && s[e] == '.' && Boundary(s, e + 1) then Some(OptDot(s, e + 1))
      else if Boundary(s, e) then Some(OptDot(s, e))
      else None
  }

  /** A word without its own optional dot, followed by `\b\.?`. */
  function PlainWord(s: string, k: nat, w: string): (r: Option<nat>)
    requires k <= |s|
    ensures r.Some? ==> k + |w| <= r.value <= |s|
  {
    if WordAt(s, k, w) && Boundary(s, k + |w|) then Some(OptDot(s, k + |w|)) else None
  }

  /** `(Inc\.?|Incorporated|Corp\.?|Corporation)\b\.?` at `k`, alternatives in order. */
  function Suffix(s: string, k: nat): (r: Option<nat>)
    requires k <= |s|
    ensures r.Some? ==> k + 3 <= r.value <= |s|
  {
    var inc := WordWithDot(s, k, "inc");
    if inc.Some? then inc
    else
      var incorporated := PlainWord(s, k, "incorporated");
      if incorporated.Some? then incorporated
      else
        var corp := WordWithDot(s, k, "corp");
        if corp.Some? then corp
        else PlainWord(s, k, "corporation")
  }

  /**
   * The end of the match of `,?\s*(...)\b\.?` starting at `i`, if any. Giving
   * back the comma or part of the whitespace run never helps, since the
   * alternatives start with a letter.
   */
  function MatchAt(s: string, i: nat): (r: Option<nat>)
    requires i <= |s|
    ensures r.Some? ==> i < r.value <= |s|
  {
    var j := if i < |s| && s[i] == ',' then i + 1 else i;
    Suffix(s, SpaceRunEnd(s, j))
  }

  /** `re.sub(pattern, "", s[i:], flags=re.IGNORECASE)`: every leftmost match removed. */
  function RemoveSuffixes(s: string, i: nat): (r: string)
    requires i <= |s|
    ensures |r| <= |s| - i
    decreases |s| - i
  {
    if i == |s| then []
    else
      match MatchAt(s, i)
      case Some(e) => RemoveSuffixes(s, e)
      case None => [s[i]] + RemoveSuffixes(s, i + 1)
  }

  /** `clean_name(name)`: "N/A" for `None` or the empty string. */
  function CleanName(name: Option<string>): (r: string)
    ensures name.None? || name == Some("") ==> r == "N/A"
    ensures NoOuterSpace(r)
  {
    match name
    case None => "N/A"
    case Some(s) => if s == [] then "N/A" else Strip(RemoveSuffixes(s, 0))
  }

  /** Some case-insensitive "inc" or "corp" occurs in `s` at or after `i`. */
  predicate HasToken(s: string, i: nat) {
    exists k :: i <= k <= |s| && (WordAt(s, k, "inc") || WordAt(s, k, "corp"))
  }

  /** A longer word at `k` is also its prefix at `k`. */
  lemma WordAtPrefix(s: string, k: nat, w: string, v: string)
    requires |v| <= |w| && w[..|v|] == v
    ensures WordAt(s, k, w) ==> WordAt(s, k, v)
  {
    if WordAt(s, k, w) {
      forall m | 0 <= m < |v| ensures LowerChar(s[k + m]) == v[m] {
        assert w[m] == v[m];
      }
    }
  }

  /** A word whose first letter differs is not at `k`. */
  lemma FirstLetterDiffers(s: string, k: nat, w: string)
    requires k < |s| && |w| > 0 && LowerChar(s[k]) != w[0]
    ensures !WordAt(s, k, w)
  {
  }

  lemma NoTokenNoMatch(s: string, i: nat)
    requires i <= |s| && !HasToken(s, i)
    ensures MatchAt(s, i).None?
  {
    var j := if i < |s| && s[i] == ',' then i + 1 else i;
    var k := SpaceRunEnd(s, j);
    assert !WordAt(s, k, "inc") && !WordAt(s, k, "corp");
    WordAtPrefix(s, k, "incorporated", "inc");
    WordAtPrefix(s, k, "corporation", "corp");
  }

  lemma {:induction false} NoTokenKept(s: string, i: nat)
    requires i <= |s| && !HasToken(s, i)
    ensures RemoveSuffixes(s, i) == s[i..]
    decreases |s| - i
  {
    if i < |s| {
      NoTokenNoMatch(s, i);
      assert !HasToken(s, i + 1);
      NoTokenKept(s, i + 1);
      assert s[i..] == [s[i]] + s[i + 1..];
    }
  }

  /** A name without any of the suffix words is only stripped. */
  lemma CleanNameWithoutToken(s: string)
    requires s != [] && !HasToken(s, 0)
    ensures CleanName(Some(s)) == Strip(s)
  {
    NoTokenKept(s, 0);
    assert s[0..] == s;
  }

  /** At index 1 of "Zinc" the alternative "inc" matches and runs to the end. */
  lemma ZincTail()
    ensures RemoveSuffixes("Zinc", 1) == []
  {
    var s := "Zinc";
    assert MatchAt(s, 1) == Some(4) by {
      assert SpaceRunEnd(s, 1) == 1;
      assert WordAt(s, 1, "inc");
      assert Boundary(s, 4);
    }
  }

  /** Nothing matches at index 0 of "Zinc", so only its first letter survives. */
  lemma ZincWhole()
    ensures RemoveSuffixes("Zinc", 0) == "Z"
  {
    var s := "Zinc";
    ZincTail();
    assert MatchAt(s, 0).None? by {
      assert SpaceRunEnd(s, 0) == 0;
      FirstLetterDiffers(s, 0, "inc");
      FirstLetterDiffers(s, 0, "corp");
    }
    assert RemoveSuffixes(s, 0) == [s[0]];
  }

  /** There is no `\b` before the alternatives: "Zinc" loses its "inc". */
  lemma CleanZinc()
    ensures CleanName(Some("Zinc")) == "Z"
  {
    ZincWhole();
    CleanNameOf("Zinc", "Z");
  }

  /**
   * "Inc." at the very end: the alternative's own dot would leave no `\b`
   * after it, so the engine gives the dot back and the trailing `\.?` takes
   * it; the match still runs to the end of the text.
   */
  lemma IncDotAtEnd(s: string, k: nat)
    requires k + 4 == |s| && WordAt(s, k, "inc") && s[k + 3] == '.'
    ensures !Boundary(s, |s|)
    ensures WordWithDot(s, k, "inc") == Some(|s|)
  {
    assert LowerChar(s[k + 2]) == "inc"[2];
  }

  /** A name whose substitution leaves no outer whitespace cleans to that result. */
  lemma CleanNameOf(s: string, r: string)
    requires s != [] && RemoveSuffixes(s, 0) == r && NoOuterSpace(r)
    ensures CleanName(Some(s)) == r
  {
    StripNoOp(r);
  }
}
