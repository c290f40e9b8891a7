/**
 * commands/alert_loop.py: the daily scheduling rule of `alert_loop`, its
 * trading-day gate, and the parse-and-skip fan-out of `send_alert` over the
 * registry lines. Instants are integer microseconds on the US/Eastern wall
 * clock, with every day exactly 24 hours long.
 */
module AlertLoop {
  import opened Wrappers
  import opened Text
  import opened BasicCommands

  // ------------------------------------------------------------- schedule

  const Day: int := 86_400_000_000

  /** 08:45:00.000000 as an offset into the day. */
  const AlertTime: int := (8 * 3600 + 45 * 60) * 1_000_000

  /** The time of day of an instant (`datetime` days start at midnight). */
  function TimeOfDay(t: int): int {
    t % Day
  }

  /** The number of the day an instant falls in. */
  function DayIndex(t: int): int {
    t / Day
  }

  lemma Decompose(t: int)
    ensures t == DayIndex(t) * Day + TimeOfDay(t)
    ensures 0 <= TimeOfDay(t) < Day
  {
  }

  lemma Compose(d: int, x: int)
    requires 0 <= x < Day
    ensures DayIndex(d * Day + x) == d && TimeOfDay(d * Day + x) == x
  {
    Decompose(d * Day + x);
  }

  /**
   * The instant `alert_loop` sleeps until: today at 08:45 if that is still
   * ahead, otherwise (also exactly at 08:45) tomorrow at 08:45.
   */
  function NextTarget(now: int): (t: int)
    ensures TimeOfDay(t) == AlertTime
    ensures now < t <= now + Day
    ensures TimeOfDay(now) < AlertTime ==> DayIndex(t) == DayIndex(now)
    ensures TimeOfDay(now) >= AlertTime ==> DayIndex(t) == DayIndex(now) + 1
  {
    Decompose(now);
    Compose(DayIndex(now), AlertTime);
    Compose(DayIndex(now) + 1, AlertTime);
    var today := DayIndex(now) * Day + AlertTime;
    if now >= today then today + Day else today
  }

  /** No 08:45 lies strictly between `now` and the target: the target is the next one. */
  lemma NoEarlierTarget(now: int, u: int)
    requires now < u < NextTarget(now)
    ensures TimeOfDay(u) != AlertTime
  {
    Decompose(u);
    Decompose(NextTarget(now));
  }

  /**
   * When the loop wakes at or after its target and less than a day late, the
   * next target is exactly one day later: no day is skipped or repeated.
   */
  lemma ConsecutiveTargets(r1: int, r2: int)
    requires NextTarget(r1) <= r2 < NextTarget(r1) + Day
    ensures NextTarget(r2) == NextTarget(r1) + Day
  {
    Decompose(NextTarget(r1));
    Decompose(NextTarget(r2));
    Decompose(r2);
  }

  /**
   * A wake-up before the target but less than a day before it reads the same
   * target again: the loop sleeps once more until that 08:45 and alerts again.
   */
  lemma EarlyWake(r1: int, r2: int)
    requires NextTarget(r1) - Day < r2 < NextTarget(r1)
    ensures NextTarget(r2) == NextTarget(r1)
  {
    Decompose(NextTarget(r1));
    Decompose(NextTarget(r2));
    Decompose(r2);
  }

  /** One round's clock reading and sleep: the time left until the next 08:45. */
  method WaitTime(now: int) returns (wait: int)
    ensures wait == NextTarget(now) - now
    ensures 0 < wait <= Day
  {
    wait := NextTarget(now) - now;
  }

  /** Round `k` is fatal when it falls on a trading day and its `send_alert` raises. */
  predicate Fatal(trading: seq<bool>, raises: seq<bool>, k: int)
    requires |raises| == |trading|
  {
    0 <= k < |trading| && trading[k] && raises[k]
  }

  /**
   * The number of rounds of `while True` that run: nothing catches an
   * exception from `send_alert`, so the task ends with the first fatal round.
   */
  function RoundsRun(trading: seq<bool>, raises: seq<bool>): (n: nat)
    requires |raises| == |trading|
    ensures n <= |trading|
    ensures trading != [] ==> n >= 1
  {
    if trading == [] then 0
    else if trading[0] && raises[0] then 1
    else 1 + RoundsRun(trading[1..], raises[1..])
  }

  /** The rounds that run are the ones before the first fatal round, and that round itself. */
  lemma {:induction false} RoundsRunExactly(trading: seq<bool>, raises: seq<bool>)
    requires |raises| == |trading|
    ensures forall k :: 0 <= k < RoundsRun(trading, raises) - 1 ==> !Fatal(trading, raises, k)
    ensures RoundsRun(trading, raises) < |trading| ==> Fatal(trading, raises, RoundsRun(trading, raises) - 1)
  {
    if trading != [] && !(trading[0] && raises[0]) {
      var t, r := trading[1..], raises[1..];
      RoundsRunExactly(t, r);
      var n := RoundsRun(trading, raises);
      forall k | 0 <= k < n - 1 ensures !Fatal(trading, raises, k) {
        if k > 0 {
          assert !Fatal(t, r, k - 1);
        }
      }
      if n < |trading| {
        assert Fatal(t, r, n - 2);
      }
    }
  }

  lemma RoundsRunStep(trading: seq<bool>, raises: seq<bool>, k: nat)
    requires |raises| == |trading| && k < |trading|
    ensures RoundsRun(trading[k..], raises[k..])
      == if trading[k] && raises[k] then 1 else 1 + RoundsRun(trading[k + 1..], raises[k + 1..])
  {
    assert trading[k..][1..] == trading[k + 1..];
    assert raises[k..][1..] == raises[k + 1..];
  }

  /**
   * The rounds of `while True` over the clock readings `readings`: round `k`
   * sleeps until the next 08:45 and calls `send_alert` exactly when the
   * trading-day oracle answers `trading[k]`; `raises[k]` says whether that
   * call raises. The first such exception ends the task (`crashed`).
   */
  method Rounds(readings: seq<int>, trading: seq<bool>, raises: seq<bool>)
    returns (waits: seq<int>, alerted: seq<bool>, crashed: bool)
    requires |trading| == |readings| && |raises| == |readings|
    ensures |waits| == RoundsRun(trading, raises) && alerted == trading[..|waits|]
    ensures forall k :: 0 <= k < |waits| ==> waits[k] == NextTarget(readings[k]) - readings[k]
    ensures forall k :: 0 <= k < |waits| ==> 0 < waits[k] <= Day
    ensures crashed <==> exists k :: Fatal(trading, raises, k)
  {
    waits := [];
    alerted := [];
    crashed := false;
    var k := 0;
    assert trading[0..] == trading && raises[0..] == raises;
    while k < |readings| && !crashed
      invariant 0 <= k <= |readings|
      invariant |waits| == k && alerted == trading[..k]
      invariant forall m :: 0 <= m < k ==> waits[m] == NextTarget(readings[m]) - readings[m]
      invariant crashed <==> k >= 1 && Fatal(trading, raises, k - 1)
      invariant RoundsRun(trading, raises) == if crashed then k else k + RoundsRun(trading[k..], raises[k..])
      decreases |readings| - k
    {
      RoundsRunStep(trading, raises, k);
      var wait := WaitTime(readings[k]);
      waits := waits + [wait];
      assert trading[..k + 1] == trading[..k] + [trading[k]];
      alerted := alerted + [trading[k]];
      if trading[k] && raises[k] {
        crashed := true;
      }
      k := k + 1;
    }
    if crashed {
      assert Fatal(trading, raises, k - 1);
    } else {
      assert trading[k..] == [];
      RoundsRunExactly(trading, raises);
    }
  }

  /**
   * The loop as evidently intended: a failed alert is logged (`failed`) and the
   * loop goes on, so every round runs and every trading day gets its call.
   */
  method ResilientRounds(readings: seq<int>, trading: seq<bool>, raises: seq<bool>)
    returns (waits: seq<int>, alerted: seq<bool>, failed: seq<bool>)
    requires |trading| == |readings| && |raises| == |readings|
    ensures |waits| == |readings| && alerted == trading
    ensures forall k :: 0 <= k < |readings| ==> waits[k] == NextTarget(readings[k]) - readings[k]
    ensures |failed| == |readings|
    ensures forall k :: 0 <= k < |readings| ==> (failed[k] <==> Fatal(trading, raises, k))
  {
    waits := [];
    alerted := [];
    failed := [];
    var k := 0;
    while k < |readings|
      invariant 0 <= k <= |readings|
      invariant |waits| == k && alerted == trading[..k] && |failed| == k
      invariant forall m :: 0 <= m < k ==> waits[m] == NextTarget(readings[m]) - readings[m]
      invariant forall m :: 0 <= m < k ==> (failed[m] <==> Fatal(trading, raises, m))
    {
      var wait := WaitTime(readings[k]);
      waits := waits + [wait];
      assert trading[..k + 1] == trading[..k] + [trading[k]];
      alerted := alerted + [trading[k]];
      failed := failed + [trading[k] && raises[k]];
      k := k + 1;
    }
    assert trading[..k] == trading;
  }

  // ------------------------------------------------------------ send_alert

  /** `s.split(",")`: the pieces between commas, at least one. */
  function SplitComma(s: string): (r: seq<string>)
    ensures |r| >= 1
  {
    if s == [] then [""]
    else
      var parts := SplitComma(s[..|s| - 1]);
      if s[|s| - 1] == ',' then parts + [""]
      else parts[..|parts| - 1] + [parts[|parts| - 1] + [s[|s| - 1]]]
  }

  /** `guild_id, channel_id = map(int, line.strip().split(","))`; `None` where it raises `ValueError`. */
  function ParseChannelLine(line: string): (r: Option<(int, int)>)
    ensures r.Some? ==> |SplitComma(Strip(line))| == 2
  {
    var parts := SplitComma(Strip(line));
    if |parts| != 2 then None
    else
      match (ParseInt(parts[0]), ParseInt(parts[1]))
      case (Some(g), Some(c)) => Some((g, c))
      case _ => None
  }

  lemma {:induction false} SplitNoComma(s: string)
    requires forall i :: 0 <= i < |s| ==> s[i] != ','
    ensures SplitComma(s) == [s]
  {
    if s != [] {
      SplitNoComma(s[..|s| - 1]);
      assert s[..|s| - 1] + [s[|s| - 1]] == s;
    }
  }

  /** Appending a character other than a comma extends the last piece. */
  lemma SplitSnoc(s: string, x: char)
    requires x != ','
    ensures var parts := SplitComma(s);
      SplitComma(s + [x]) == parts[..|parts| - 1] + [parts[|parts| - 1] + [x]]
  {
    assert (s + [x])[..|s|] == s;
  }

  lemma {:induction false} SplitOneComma(a: string, b: string)
    requires forall i :: 0 <= i < |a| ==> a[i] != ','
    requires forall i :: 0 <= i < |b| ==> b[i] != ','
    ensures SplitComma(a + "," + b) == [a, b]
  {
    if b == [] {
      SplitNoComma(a);
      assert a + "," + b == a + ",";
      assert (a + ",")[..|a|] == a;
    } else {
      var b' := b[..|b| - 1];
      SplitOneComma(a, b');
      assert a + "," + b == (a + "," + b') + [b[|b| - 1]];
      SplitSnoc(a + "," + b', b[|b| - 1]);
      assert b' + [b[|b| - 1]] == b;
    }
  }

  /** A line `setchannel` writes parses back to its guild and channel. */
  lemma ChannelLineRoundTrip(g: nat, c: nat)
    ensures ParseChannelLine(ChannelLine(g, c) + "\n") == Some((g, c))
  {
    var key := ChannelLine(g, c);
    StripTrailing(key, "\n");
    SplitOneComma(NatToString(g), NatToString(c));
    ParseIntRoundTrip(g);
    ParseIntRoundTrip(c);
  }

  /** A line of whitespace only strips to nothing, which `int` rejects. */
  lemma BlankLineFails(line: string)
    requires forall i :: 0 <= i < |line| ==> IsSpace(line[i])
    ensures ParseChannelLine(line) == None
  {
    assert forall c :: c in line ==> IsSpace(c);
    assert Strip(line) == [];
    assert SplitComma([]) == [""];
  }

  /** What `send_alert` did: the channels messaged, in order, and whether it raised. */
  datatype Delivery = Delivery(sent: seq<int>, raised: bool)

  /** The parse of every registry line. */
  function Entries(lines: seq<string>): (r: seq<Option<(int, int)>>)
    ensures |r| == |lines|
    ensures forall i :: 0 <= i < |lines| ==> r[i] == ParseChannelLine(lines[i])
  {
    if lines == [] then [] else [ParseChannelLine(lines[0])] + Entries(lines[1..])
  }

  /**
   * Whether a parsed line ends the fan-out with an exception: the line did not
   * parse (`ValueError`), or its channel was found and `channel.send` raised
   * (`fails`, for instance `discord.Forbidden` or `discord.HTTPException`).
   */
  predicate Stops(e: Option<(int, int)>, known: int -> bool, fails: int -> bool) {
    e.None? || (known(e.value.1) && fails(e.value.1))
  }

  /**
   * The fan-out over parsed lines: the first line that stops it raises out of
   * `send_alert` at once; an unknown channel is skipped; every other channel
   * gets one message.
   */
  function Deliver(entries: seq<Option<(int, int)>>, known: int -> bool, fails: int -> bool): (d: Delivery)
    ensures |d.sent| <= |entries|
  {
    if entries == [] then Delivery([], false)
    else if Stops(entries[0], known, fails) then Delivery([], true)
    else
      var c := entries[0].value.1;
      var rest := Deliver(entries[1..], known, fails);
      Delivery((if known(c) then [c] else []) + rest.sent, rest.raised)
  }

  /** Delivery ends with an exception exactly when some entry stops it. */
  lemma {:induction false} DeliverRaised(entries: seq<Option<(int, int)>>, known: int -> bool, fails: int -> bool)
    ensures Deliver(entries, known, fails).raised
        <==> exists i :: 0 <= i < |entries| && Stops(entries[i], known, fails)
  {
    if entries != [] && !Stops(entries[0], known, fails) {
      DeliverRaised(entries[1..], known, fails);
      assert forall i :: 1 <= i < |entries| ==> entries[i] == entries[1..][i - 1];
    }
  }

  /**
   * The fan-out of `send_alert` over the registry lines: at most one message
   * per line, and an exception exactly when some line is not `g,c` or names a
   * found channel whose send fails.
   */
  function FanOut(lines: seq<string>, known: int -> bool, fails: int -> bool): (d: Delivery)
    ensures |d.sent| <= |lines|
    ensures d.raised <==> exists i :: 0 <= i < |lines| && Stops(ParseChannelLine(lines[i]), known, fails)
  {
    var entries := Entries(lines);
    DeliverRaised(entries, known, fails);
    Deliver(entries, known, fails)
  }

  /** The outcome once `sent` has been delivered and `rest` remains (`raised`: stopped at `rest[0]`). */
  function Tail(sent: seq<int>, raised: bool, rest: seq<Option<(int, int)>>,
                known: int -> bool, fails: int -> bool): Delivery {
    if raised then Delivery(sent, true)
    else
      var d := Deliver(rest, known, fails);
      Delivery(sent + d.sent, d.raised)
  }

  lemma DeliverStep(entries: seq<Option<(int, int)>>, i: nat, sent: seq<int>, known: int -> bool, fails: int -> bool)
    requires i < |entries| && !Stops(entries[i], known, fails)
    ensures var c := entries[i].value.1;
      Tail(sent, false, entries[i..], known, fails)
        == Tail(sent + (if known(c) then [c] else []), false, entries[i + 1..], known, fails)
  {
    assert entries[i..][0] == entries[i];
    assert entries[i..][1..] == entries[i + 1..];
    var c := entries[i].value.1;
    var rest := Deliver(entries[i + 1..], known, fails).sent;
    assert sent + ((if known(c) then [c] else []) + rest) == (sent + (if known(c) then [c] else [])) + rest;
  }

  lemma DeliverStop(entries: seq<Option<(int, int)>>, i: nat, sent: seq<int>, known: int -> bool, fails: int -> bool)
    requires i < |entries| && Stops(entries[i], known, fails)
    ensures Tail(sent, false, entries[i..], known, fails) == Tail(sent, true, entries[i..], known, fails)
  {
    assert entries[i..][0] == entries[i];
    assert sent + [] == sent;
  }

  /**
   * The `for line in f` loop of `send_alert` over the parsed lines: stop at
   * the first line that did not parse, skip channels the bot cannot find,
   * message every other one, and stop at the first send that raises.
   */
  method FanOutLoop(entries: seq<Option<(int, int)>>, known: int -> bool, fails: int -> bool) returns (d: Delivery)
    ensures d == Deliver(entries, known, fails)
  {
    var sent: seq<int> := [];
    var raised := false;
    var i := 0;
    assert entries[0..] == entries;
    assert [] + Deliver(entries, known, fails).sent == Deliver(entries, known, fails).sent;
    while i < |entries| && !raised
      invariant 0 <= i <= |entries|
      invariant Deliver(entries, known, fails) == Tail(sent, raised, entries[i..], known, fails)
      decreases |entries| - i, !raised
    {
      if entries[i].None? {
        DeliverStop(entries, i, sent, known, fails);
        raised := true;
      } else {
        var c := entries[i].value.1;
        if !known(c) {
          DeliverStep(entries, i, sent, known, fails);
          assert sent + [] == sent;
          i := i + 1;
        } else if fails(c) {
          DeliverStop(entries, i, sent, known, fails);
          raised := true;
        } else {
          DeliverStep(entries, i, sent, known, fails);
          sent := sent + [c];
          i := i + 1;
        }
      }
    }
    if !raised {
      assert entries[i..] == [];
    }
    d := Delivery(sent, raised);
  }

  /**
   * `send_alert`: nothing when the MarketCommands cog is missing. Otherwise
   * `mc._build_top5_png()` is called: when the cog has no such method
   * (`builder` false) that raises `AttributeError` before any message is
   * sent; when it has, the image is built once (`builds`) and the registry
   * is fanned out, each send to channel `c` raising when `fails(c)`.
   */
  method SendAlert(cogLoaded: bool, builder: bool, lines: seq<string>, known: int -> bool, fails: int -> bool)
    returns (builds: nat, d: Delivery)
    ensures !cogLoaded ==> builds == 0 && d == Delivery([], false)
    ensures cogLoaded && !builder ==> builds == 0 && d == Delivery([], true)
    ensures cogLoaded && builder ==> builds == 1 && d == FanOut(lines, known, fails)
  {
    if !cogLoaded {
      return 0, Delivery([], false);
    }
    if !builder {
      return 0, Delivery([], true);
    }
    builds := 1;
    d := FanOutLoop(Entries(lines), known, fails);
  }

  /** The registry lines `setchannel` writes for a list of (guild, channel) pairs. */
  function Lines(pairs: seq<(nat, nat)>): (r: seq<string>)
    ensures |r| == |pairs|
    ensures forall i :: 0 <= i < |pairs| ==> r[i] == ChannelLine(pairs[i].0, pairs[i].1) + "\n"
  {
    seq(|pairs|, i requires 0 <= i < |pairs| => ChannelLine(pairs[i].0, pairs[i].1) + "\n")
  }

  /** The channels of `pairs` the bot can find, in registry order. */
  function KnownChannels(pairs: seq<(nat, nat)>, known: int -> bool): seq<int> {
    if pairs == [] then []
    else (if known(pairs[0].1) then [pairs[0].1 as int] else []) + KnownChannels(pairs[1..], known)
  }

  /** No channel of `pairs` is both found and failing to accept the message. */
  predicate SendsSucceed(pairs: seq<(nat, nat)>, known: int -> bool, fails: int -> bool) {
    forall i :: 0 <= i < |pairs| ==> !(known(pairs[i].1) && fails(pairs[i].1))
  }

  lemma {:induction false} DeliverAll(entries: seq<Option<(int, int)>>, pairs: seq<(nat, nat)>,
                                      known: int -> bool, fails: int -> bool)
    requires |entries| == |pairs|
    requires forall i :: 0 <= i < |pairs| ==> entries[i] == Some((pairs[i].0 as int, pairs[i].1 as int))
    requires SendsSucceed(pairs, known, fails)
    ensures Deliver(entries, known, fails) == Delivery(KnownChannels(pairs, known), false)
  {
    if pairs != [] {
      assert !Stops(entries[0], known, fails);
      DeliverAll(entries[1..], pairs[1..], known, fails);
    }
  }

  /**
   * On a registry written by `setchannel`, `send_alert` raises exactly when a
   * found channel refuses the message; when none does, it messages each
   * channel it can find exactly once per line, in registry order.
   */
  lemma FanOutRegistry(pairs: seq<(nat, nat)>, known: int -> bool, fails: int -> bool)
    ensures FanOut(Lines(pairs), known, fails).raised
        <==> exists i :: 0 <= i < |pairs| && known(pairs[i].1) && fails(pairs[i].1)
    ensures SendsSucceed(pairs, known, fails) ==>
              FanOut(Lines(pairs), known, fails) == Delivery(KnownChannels(pairs, known), false)
  {
    var lines := Lines(pairs);
    var entries := Entries(lines);
    forall i | 0 <= i < |pairs|
      ensures entries[i] == Some((pairs[i].0 as int, pairs[i].1 as int))
      ensures Stops(ParseChannelLine(lines[i]), known, fails) <==> known(pairs[i].1) && fails(pairs[i].1)
    {
      ChannelLineRoundTrip(pairs[i].0, pairs[i].1);
    }
    if SendsSucceed(pairs, known, fails) {
      DeliverAll(entries, pairs, known, fails);
    }
  }

  lemma {:induction false} DeliverStopsAt(a: seq<Option<(int, int)>>, e: Option<(int, int)>, b: seq<Option<(int, int)>>,
                                          known: int -> bool, fails: int -> bool)
    requires Stops(e, known, fails)
    requires !Deliver(a, known, fails).raised
    ensures Deliver(a + [e] + b, known, fails) == Delivery(Deliver(a, known, fails).sent, true)
  {
    if a == [] {
      assert a + [e] + b == [e] + b;
    } else {
      assert (a + [e] + b)[0] == a[0];
      assert (a + [e] + b)[1..] == a[1..] + [e] + b;
      DeliverStopsAt(a[1..], e, b, known, fails);
    }
  }

  lemma {:induction false} EntriesAppend(a: seq<string>, b: seq<string>)
    ensures Entries(a + b) == Entries(a) + Entries(b)
  {
    if a == [] {
      assert a + b == b;
    } else {
      assert (a + b)[1..] == a[1..] + b;
      EntriesAppend(a[1..], b);
    }
  }

  /**
   * A malformed line, or a line whose found channel refuses the message,
   * stops the fan-out: the lines before it are served, none after.
   */
  lemma FanOutStopsAt(a: seq<string>, bad: string, b: seq<string>, known: int -> bool, fails: int -> bool)
    requires Stops(ParseChannelLine(bad), known, fails)
    requires !FanOut(a, known, fails).raised
    ensures FanOut(a + [bad] + b, known, fails) == Delivery(FanOut(a, known, fails).sent, true)
  {
    assert Entries([bad]) == [ParseChannelLine(bad)] by {
      assert [bad][1..] == [];
    }
    EntriesAppend(a, [bad]);
    EntriesAppend(a + [bad], b);
    DeliverStopsAt(Entries(a), ParseChannelLine(bad), Entries(b), known, fails);
  }

  /**
   * On a `setchannel` registry, the first found channel whose send raises
   * ends `send_alert`: the channels before it have been messaged, no later
   * channel is.
   */
  lemma FanOutSendFails(a: seq<(nat, nat)>, g: nat, c: nat, b: seq<(nat, nat)>, known: int -> bool, fails: int -> bool)
    requires known(c) && fails(c)
    requires SendsSucceed(a, known, fails)
    ensures FanOut(Lines(a) + [ChannelLine(g, c) + "\n"] + Lines(b), known, fails)
         == Delivery(KnownChannels(a, known), true)
  {
    ChannelLineRoundTrip(g, c);
    FanOutRegistry(a, known, fails);
    FanOutStopsAt(Lines(a), ChannelLine(g, c) + "\n", Lines(b), known, fails);
  }

  /**
   * A registry holding one blank line makes the first trading day's alert
   * raise, and the loop as written never reaches the second day.
   */
  lemma BlankRegistryEndsLoop(known: int -> bool, fails: int -> bool)
    ensures FanOut(["\n"], known, fails).raised
    ensures RoundsRun([true, true], [FanOut(["\n"], known, fails).raised, false]) == 1
  {
    BlankLineFails("\n");
    FanOutStopsAt([], "\n", [], known, fails);
    assert [] + ["\n"] + [] == ["\n"];
  }

  /** Only channels the bot can find, and that accept the message, are messaged. */
  lemma {:induction false} DeliverOnlyKnown(entries: seq<Option<(int, int)>>, known: int -> bool, fails: int -> bool)
    ensures forall c :: c in Deliver(entries, known, fails).sent ==> known(c) && !fails(c)
  {
    if entries != [] && !Stops(entries[0], known, fails) {
      DeliverOnlyKnown(entries[1..], known, fails);
    }
  }
}
