/**
 * commands/basic_commands.py: `setchannel` and `removechannel`, which keep the
 * alert registry `channels.txt`. The file is modelled by the list of its lines
 * as `readlines` returns them, each with its line break except possibly the
 * last.
 */
module BasicCommands {
  import opened Text

  /** `f"{guild_id},{channel_id}"`. */
  function ChannelLine(g: nat, c: nat): (s: string)
    ensures s != [] && NoOuterSpace(s)
  {
    NatToString(g) + "," + NatToString(c)
  }

  /** A line of the file, with its terminating line break. */
  predicate Terminated(line: string) {
    line != [] && line[|line| - 1] == '\n'
  }

  /** The elements of `s` that `keep` accepts, in order. */
  function Filter<T>(s: seq<T>, keep: T -> bool): (r: seq<T>)
    ensures |r| <= |s|
  {
    if s == [] then []
    else
      var init := Filter(s[..|s| - 1], keep);
      if keep(s[|s| - 1]) then init + [s[|s| - 1]] else init
  }

  /** The test `line.strip() != key` of `removechannel`. */
  function Unmatched(key: string): string -> bool {
    line => Strip(line) != key
  }

  /** The lines `removechannel` writes back: those whose stripped text is not `key`. */
  function Without(lines: seq<string>, key: string): seq<string> {
    Filter(lines, Unmatched(key))
  }

  /** Every line of the list is terminated. */
  predicate AllTerminated(lines: seq<string>) {
    forall i :: 0 <= i < |lines| ==> Terminated(lines[i])
  }

  /** What `readlines` gives: every line but possibly the last ends with its line break. */
  predicate FileLines(lines: seq<string>) {
    forall i :: 0 <= i < |lines| - 1 ==> Terminated(lines[i])
  }

  /** The text of the file whose lines these are. */
  function Contents(lines: seq<string>): string {
    if lines == [] then [] else Contents(lines[..|lines| - 1]) + lines[|lines| - 1]
  }

  /**
   * The lines after `open(..., "a").write(record)`: the record starts a new
   * line after a terminated last line, and is joined onto a last line that
   * has no line break.
   */
  function Appended(lines: seq<string>, record: string): (r: seq<string>)
    ensures |r| == if lines == [] || Terminated(lines[|lines| - 1]) then |lines| + 1 else |lines|
  {
    if lines != [] && !Terminated(lines[|lines| - 1]) then
      lines[..|lines| - 1] + [lines[|lines| - 1] + record]
    else lines + [record]
  }

  /** Appending writes the record at the very end of the file's text. */
  lemma AppendedContents(lines: seq<string>, record: string)
    ensures Contents(Appended(lines, record)) == Contents(lines) + record
  {
    var r := Appended(lines, record);
    if lines != [] && !Terminated(lines[|lines| - 1]) {
      var init := lines[..|lines| - 1];
      assert r[..|r| - 1] == init;
      assert Contents(lines) == Contents(init) + lines[|lines| - 1];
    } else {
      assert r[..|r| - 1] == lines;
    }
  }

  /** On a file whose lines are all terminated, appending adds one line and changes none. */
  lemma AppendedTerminated(lines: seq<string>, record: string)
    requires AllTerminated(lines)
    ensures Appended(lines, record) == lines + [record]
  {
  }

  /**
   * The channel registry `channels.txt`, as the list of its lines. Every line
   * but the last is terminated, as `readlines` gives them.
   */
  class Registry {
    var lines: seq<string>

    ghost predicate Valid()
      reads this
    {
      FileLines(lines)
    }

    constructor (initial: seq<string>)
      requires FileLines(initial)
      ensures lines == initial && Valid()
    {
      lines := initial;
    }

    /**
     * `setchannel`: appends the record `"g,c\n"` in append mode, with no check
     * for an existing one; afterwards every line is terminated.
     */
    method SetChannel(g: nat, c: nat)
      requires Valid()
      modifies this
      ensures lines == Appended(old(lines), ChannelLine(g, c) + "\n")
      ensures Valid() && AllTerminated(lines)
    {
      var record := ChannelLine(g, c) + "\n";
      if lines != [] && !Terminated(lines[|lines| - 1]) {
        lines := lines[..|lines| - 1] + [lines[|lines| - 1] + record];
      } else {
        lines := lines + [record];
      }
    }

    /** `removechannel`: rewrites the file with only the lines that do not match. */
    method RemoveChannel(g: nat, c: nat)
      requires Valid()
      modifies this
      ensures lines == Without(old(lines), ChannelLine(g, c))
      ensures Valid()
      ensures old(AllTerminated(lines)) ==> AllTerminated(lines)
    {
      var key := ChannelLine(g, c);
      var read := lines;
      var kept: seq<string> := [];
      var i := 0;
      while i < |read|
        invariant 0 <= i <= |read|
        invariant kept == Filter(read[..i], Unmatched(key))
      {
        assert read[..i + 1][..i] == read[..i];
        if Strip(read[i]) != key {
          kept := kept + [read[i]];
        }
        i := i + 1;
      }
      assert read[..i] == read;
      FilterSubset(read, Unmatched(key));
      if AllTerminated(read) {
        forall j | 0 <= j < |kept| ensures Terminated(kept[j]) {
          assert kept[j] in read;
        }
      }
      FilterFileLines(read, Unmatched(key));
      lines := kept;
    }
  }

  /** Every kept element is an element of `s` that `keep` accepts. */
  lemma {:induction false} FilterSubset<T>(s: seq<T>, keep: T -> bool)
    ensures forall x :: x in Filter(s, keep) ==> x in s && keep(x)
  {
    if s != [] {
      var init := s[..|s| - 1];
      FilterSubset(init, keep);
      assert forall x :: x in init ==> x in s;
    }
  }

  /** Filtering the lines of a file gives the lines of a file: only the last may lack its break. */
  lemma FilterFileLines(s: seq<string>, keep: string -> bool)
    requires FileLines(s)
    ensures FileLines(Filter(s, keep))
  {
    if s != [] {
      var init := s[..|s| - 1];
      FilterSubset(init, keep);
      var f := Filter(init, keep);
      forall x | x in f ensures Terminated(x) {
        var j :| 0 <= j < |init| && init[j] == x;
      }
    }
  }

  /** Rejected elements are gone; accepted ones keep their number of occurrences. */
  lemma {:induction false} FilterCounts<T>(s: seq<T>, keep: T -> bool)
    ensures forall x :: !keep(x) ==> multiset(Filter(s, keep))[x] == 0
    ensures forall x :: keep(x) ==> multiset(Filter(s, keep))[x] == multiset(s)[x]
  {
    if s != [] {
      var init := s[..|s| - 1];
      FilterCounts(init, keep);
      assert s == init + [s[|s| - 1]];
    }
  }

  /** The kept elements stay in their order: the filter distributes over concatenation. */
  lemma {:induction false} FilterAppend<T>(a: seq<T>, b: seq<T>, keep: T -> bool)
    ensures Filter(a + b, keep) == Filter(a, keep) + Filter(b, keep)
  {
    if b == [] {
      assert a + b == a;
    } else {
      var b' := b[..|b| - 1];
      FilterAppend(a, b', keep);
      assert (a + b)[..|a + b| - 1] == a + b';
      assert (a + b)[|a + b| - 1] == b[|b| - 1];
    }
  }

  /** When every element is accepted, the filter changes nothing. */
  lemma {:induction false} FilterAll<T>(s: seq<T>, keep: T -> bool)
    requires forall i :: 0 <= i < |s| ==> keep(s[i])
    ensures Filter(s, keep) == s
  {
    if s != [] {
      var init := s[..|s| - 1];
      FilterAll(init, keep);
      assert s == init + [s[|s| - 1]];
    }
  }

  /**
   * `removechannel` drops every line that matches, keeps every other line as
   * often as it occurred, and keeps the kept lines in their order.
   */
  lemma WithoutSpec(lines: seq<string>, a: seq<string>, b: seq<string>, key: string)
    ensures forall l :: l in Without(lines, key) ==> l in lines && Strip(l) != key
    ensures forall l :: Strip(l) == key ==> multiset(Without(lines, key))[l] == 0
    ensures forall l :: Strip(l) != key ==> multiset(Without(lines, key))[l] == multiset(lines)[l]
    ensures Without(a + b, key) == Without(a, key) + Without(b, key)
  {
    FilterSubset(lines, Unmatched(key));
    FilterCounts(lines, Unmatched(key));
    FilterAppend(a, b, Unmatched(key));
  }

  /** With no matching line, the registry is written back unchanged. */
  lemma WithoutNoMatch(lines: seq<string>, key: string)
    requires forall i :: 0 <= i < |lines| ==> Strip(lines[i]) != key
    ensures Without(lines, key) == lines
  {
    FilterAll(lines, Unmatched(key));
  }

  /**
   * On a file whose lines are all terminated, removing a channel right after
   * adding it gives the registry before, minus that channel.
   */
  lemma RemoveAfterSet(lines: seq<string>, g: nat, c: nat)
    requires AllTerminated(lines)
    ensures Without(Appended(lines, ChannelLine(g, c) + "\n"), ChannelLine(g, c)) == Without(lines, ChannelLine(g, c))
  {
    var key := ChannelLine(g, c);
    AppendedTerminated(lines, key + "\n");
    StripTrailing(key, "\n");
    assert (lines + [key + "\n"])[..|lines|] == lines;
  }

  /**
   * On a file whose lines are all terminated, registering twice writes two
   * lines for the channel, and removing once leaves none.
   */
  lemma SetTwiceRemoveOnce(lines: seq<string>, g: nat, c: nat)
    requires AllTerminated(lines)
    ensures var key := ChannelLine(g, c);
      var twice := Appended(Appended(lines, key + "\n"), key + "\n");
      multiset(twice)[key + "\n"] == multiset(lines)[key + "\n"] + 2
      && multiset(Without(twice, key))[key + "\n"] == 0
  {
    var key := ChannelLine(g, c);
    var once := Appended(lines, key + "\n");
    AppendedTerminated(lines, key + "\n");
    assert AllTerminated(once) by {
      assert Terminated(key + "\n");
    }
    AppendedTerminated(once, key + "\n");
    StripTrailing(key, "\n");
    FilterCounts(lines + [key + "\n"] + [key + "\n"], Unmatched(key));
  }
}
