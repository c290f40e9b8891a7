/**
 * commands/helpers/filter_gainers.py: the quote fetcher `download_data`, which
 * returns a four-tuple, and the sequential ranking `getGainers`.
 */
module HelperFilterGainers {
  import opened Wrappers
  import opened Utility
  import opened Quotes
  import opened Ranking

  /** The tuple returned when anything inside the `try` fails: the ticker and three `None`s. */
  function Failure4(t: string): (r: PyTuple)
    ensures Arity(r) == 4 && r.ticker == t && forall i :: 0 <= i < |r.fields| ==> r.fields[i].None?
  {
    PyTuple(t, [None, None, None])
  }

  /**
   * A failed download and a failed unpack leave the same row behind: the
   * failure tuple unpacks to the failure row of its ticker.
   */
  lemma FailureTupleUnpacks(t: string)
    ensures Unpack4(Failure4(t)) == Some(FailureRow(t))
  {
  }

  /**
   * The body of the `try` for an already normalised ticker `t`, given what the
   * provider answered. A missing last price or previous close raises
   * `ValueError`, which is caught; a zero previous close is treated the same way
   * (see README). On success the change is `last / prev - 1` and the market
   * capitalisation and volume pass through unchanged.
   */
  function FromReply(t: string, reply: Reply): (r: PyTuple)
    ensures r.ticker == t && Arity(r) == 4
    ensures r.fields[0].Some? <==>
              reply.Snapshot? && reply.lastPrice.Some? && reply.prevClose.Some? && reply.prevClose.value != 0.0
    ensures r.fields[0].Some? ==>
              (r.fields[0].value + 1.0) * reply.prevClose.value == reply.lastPrice.value
              && r.fields[1] == reply.marketCap && r.fields[2] == reply.volume
    ensures r.fields[0].None? ==> r == Failure4(t)
  {
    match reply
    case ProviderError => Failure4(t)
    case Snapshot(last, prev, cap, vol, weekLast) =>
      if last.None? || prev.None? then Failure4(t)
      else
        // the lower-resolution fallback: its guard contradicts the one above
        var price := if prev.Some? && last.None? then weekLast else last;
        if prev.value == 0.0 then Failure4(t)
        else PyTuple(t, [Some(PctChange(price.value, prev.value)), cap, vol])
  }

  /** The weekend fallback never runs: the one-week series cannot change the outcome. */
  lemma FallbackUnreachable(t: string, reply: Reply, w: Option<real>)
    requires reply.Snapshot?
    ensures FromReply(t, reply) == FromReply(t, reply.(weekLastPrice := w))
  {
  }

  /**
   * `download_data(ticker)`: the ticker is normalised before the `try`, and the
   * normalised ticker heads both the success and the failure tuple.
   */
  function DownloadData(p: Provider, ticker: string): (r: PyTuple)
    ensures r.ticker == NormalizeTicker(ticker)
    ensures Arity(r) == 4
  {
    var t := NormalizeTicker(ticker);
    FromReply(t, p(t))
  }

  /** A four-tuple from `download_data`, unpacked into a row (it always unpacks). */
  function FetchRow(p: Provider, ticker: string): (r: Row)
    ensures Unpack4(DownloadData(p, ticker)) == Some(r)
  {
    Unpack4(DownloadData(p, ticker)).value
  }

  /** One row per ticker, in input order. */
  function FetchRows(p: Provider, tickers: seq<string>): (rows: seq<Row>)
    ensures |rows| == |tickers|
    ensures forall i :: 0 <= i < |tickers| ==> rows[i] == FetchRow(p, tickers[i])
  {
    seq(|tickers|, i requires 0 <= i < |tickers| => FetchRow(p, tickers[i]))
  }

  /** The loop of `getGainers`: `download_data` once per ticker, appended in order. */
  function Downloads(p: Provider, ts: seq<string>): (r: seq<PyTuple>)
    ensures |r| == |ts|
    ensures forall i :: 0 <= i < |r| ==> Arity(r[i]) == 4
  {
    if ts == [] then [] else Downloads(p, ts[..|ts| - 1]) + [DownloadData(p, ts[|ts| - 1])]
  }

  /** The destructuring `for ticker, pct_change, market_cap, volume in filtered_data`. */
  function Unpack4All(ts: seq<PyTuple>): (r: seq<Row>)
    requires forall i :: 0 <= i < |ts| ==> Arity(ts[i]) == 4
    ensures |r| == |ts|
  {
    if ts == [] then [] else Unpack4All(ts[..|ts| - 1]) + [Unpack4(ts[|ts| - 1]).value]
  }

  lemma {:induction false} DownloadsAt(p: Provider, ts: seq<string>, i: int)
    requires 0 <= i < |ts|
    ensures Downloads(p, ts)[i] == DownloadData(p, ts[i])
  {
    if i < |ts| - 1 {
      DownloadsAt(p, ts[..|ts| - 1], i);
    }
  }

  lemma {:induction false} Unpack4AllAt(ts: seq<PyTuple>, i: int)
    requires forall k :: 0 <= k < |ts| ==> Arity(ts[k]) == 4
    requires 0 <= i < |ts|
    ensures Unpack4All(ts)[i] == Unpack4(ts[i]).value
  {
    if i < |ts| - 1 {
      Unpack4AllAt(ts[..|ts| - 1], i);
    }
  }

  /** Downloading in a loop and then unpacking gives the rows of the tickers, in order. */
  lemma DownloadsUnpacked(p: Provider, tickers: seq<string>)
    ensures Unpack4All(Downloads(p, tickers)) == FetchRows(p, tickers)
  {
    var rows := Unpack4All(Downloads(p, tickers));
    forall i | 0 <= i < |tickers| ensures rows[i] == FetchRow(p, tickers[i]) {
      DownloadsAt(p, tickers, i);
      Unpack4AllAt(Downloads(p, tickers), i);
    }
  }

  /**
   * What the sequential ranking promises for any fetched rows: a permutation of
   * the rows the truthiness filter keeps, sorted by change with the largest
   * first, every one above the floor and with a non-zero change.
   */
  lemma RankTruthfulFacts(rows: seq<Row>, minCap: real)
    ensures var table := SortDesc(Truthful(rows, minCap), GainerPct);
      && SortedDesc(table, GainerPct)
      && multiset(table) == multiset(Truthful(rows, minCap))
      && (forall g :: g in table ==> g.mcap > minCap && g.pct != 0.0)
      && |table| <= |rows|
  {
    var kept := Truthful(rows, minCap);
    SortDescCorrect(kept, GainerPct);
    SortDescSameElements(kept, GainerPct);
    TruthfulExactly(rows, minCap);
  }

  /**
   * `getGainers`: fetch every ticker once, in order; keep the rows with a truthy
   * capitalisation above the floor and a truthy change; sort them stably by
   * change, largest first. The display strings are not modelled: the table holds
   * the numbers they are rendered from.
   */
  method GetGainers(p: Provider, tickers: seq<string>, minCap: real) returns (table: seq<Gainer>)
    ensures table == SortDesc(Truthful(FetchRows(p, tickers), minCap), GainerPct)
    ensures SortedDesc(table, GainerPct)
    ensures multiset(table) == multiset(Truthful(FetchRows(p, tickers), minCap))
    ensures forall g :: g in table ==> g.mcap > minCap && g.pct != 0.0
    ensures |table| <= |tickers|
  {
    var fetched: seq<PyTuple> := [];
    var i := 0;
    while i < |tickers|
      invariant 0 <= i <= |tickers|
      invariant fetched == Downloads(p, tickers[..i])
    {
      assert tickers[..i + 1][..i] == tickers[..i];
      fetched := fetched + [DownloadData(p, tickers[i])];
      i := i + 1;
    }
    assert tickers[..i] == tickers;
    var rows := Unpack4All(fetched);
    DownloadsUnpacked(p, tickers);
    table := SortDesc(Truthful(rows, minCap), GainerPct);
    RankTruthfulFacts(rows, minCap);
  }
}
