/**
 * filter_gainers.py (the copy at the repository root): `format_market_cap`,
 * `_normalize_symbol`, a `download_data` that returns a six-tuple, and the
 * sequential six-column `getGainers`. `_normalize_symbol` is the same
 * expression as `normalize_ticker` and is modelled by Utility.NormalizeTicker.
 */
module RootFilterGainers {
  import opened Wrappers
  import opened Utility
  import opened Quotes
  import opened Ranking

  /**
   * `format_market_cap(value)`: the same tiers as `format_large_num`, but with
   * no `try`, so a `None` makes the comparison `value >= 1e12` raise `TypeError`.
   */
  function FormatMarketCap(v: Option<real>): (r: Result<Cell>)
    ensures r.Raised? <==> v.None?
    ensures r.Ok? ==> r.value.Scaled? && r.value.mantissa * Scale(r.value.suffix) == v.value
    ensures r.Ok? ==> r.value == FormatLargeNum(v)
  {
    match v
    case None => Raised("TypeError")
    case Some(x) => Ok(Tiered(x))
  }

  /** The failure tuple: the ticker and five `None`s. */
  function Failure6(t: string): (r: PyTuple)
    ensures Arity(r) == 6 && r.ticker == t && forall i :: 0 <= i < |r.fields| ==> r.fields[i].None?
  {
    PyTuple(t, [None, None, None, None, None])
  }

  /**
   * The body of the `try`: as in the four-tuple copy, except that the success
   * tuple also carries the previous close and the last price.
   */
  function FromReply6(t: string, reply: Reply): (r: PyTuple)
    ensures r.ticker == t && Arity(r) == 6
    ensures r.fields[0].Some? <==>
              reply.Snapshot? && reply.lastPrice.Some? && reply.prevClose.Some? && reply.prevClose.value != 0.0
    ensures r.fields[0].Some? ==>
              (r.fields[0].value + 1.0) * reply.prevClose.value == reply.lastPrice.value
              && r.fields[1] == reply.prevClose && r.fields[2] == reply.lastPrice
              && r.fields[3] == reply.marketCap && r.fields[4] == reply.volume
    ensures r.fields[0].None? ==> r == Failure6(t)
  {
    match reply
    case ProviderError => Failure6(t)
    case Snapshot(last, prev, cap, vol, weekLast) =>
      if last.None? || prev.None? then Failure6(t)
      else
        // the lower-resolution fallback: its guard contradicts the one above
        var price := if prev.Some? && last.None? then weekLast else last;
        if prev.value == 0.0 then Failure6(t)
        else PyTuple(t, [Some(PctChange(price.value, prev.value)), prev, price, cap, vol])
  }

  /** The fallback at the weekend never runs in this copy either. */
  lemma FallbackUnreachable6(t: string, reply: Reply, w: Option<real>)
    requires reply.Snapshot?
    ensures FromReply6(t, reply) == FromReply6(t, reply.(weekLastPrice := w))
  {
  }

  /** `download_data(ticker)`: always a six-tuple headed by the normalised ticker. */
  function DownloadData6(p: Provider, ticker: string): (r: PyTuple)
    ensures r.ticker == NormalizeTicker(ticker)
    ensures Arity(r) == 6
  {
    var t := NormalizeTicker(ticker);
    FromReply6(t, p(t))
  }

  /** The six-tuple unpacked into a row, as `getGainers` does. */
  function FetchRow6(p: Provider, ticker: string): (r: Row6)
    ensures Unpack6(DownloadData6(p, ticker)) == Some(r)
  {
    Unpack6(DownloadData6(p, ticker)).value
  }

  /** `[download_data(t) for t in ts]`, in order. */
  function Downloads6(p: Provider, ts: seq<string>): (r: seq<PyTuple>)
    ensures |r| == |ts|
    ensures forall i :: 0 <= i < |r| ==> Arity(r[i]) == 6
  {
    if ts == [] then [] else Downloads6(p, ts[..|ts| - 1]) + [DownloadData6(p, ts[|ts| - 1])]
  }

  /** The destructuring `for ticker, pct_change, ... in filtered_data` of six-tuples. */
  function Unpack6All(ts: seq<PyTuple>): (r: seq<Row6>)
    requires forall i :: 0 <= i < |ts| ==> Arity(ts[i]) == 6
    ensures |r| == |ts|
  {
    if ts == [] then [] else Unpack6All(ts[..|ts| - 1]) + [Unpack6(ts[|ts| - 1]).value]
  }

  /** The unpacked rows of all tickers, in order. */
  function FetchRows6(p: Provider, tickers: seq<string>): (rows: seq<Row6>)
    ensures |rows| == |tickers|
  {
    Unpack6All(Downloads6(p, tickers))
  }

  lemma {:induction false} Downloads6At(p: Provider, ts: seq<string>, i: int)
    requires 0 <= i < |ts|
    ensures Downloads6(p, ts)[i] == DownloadData6(p, ts[i])
  {
    if i < |ts| - 1 {
      Downloads6At(p, ts[..|ts| - 1], i);
    }
  }

  lemma {:induction false} Unpack6AllAt(ts: seq<PyTuple>, i: int)
    requires forall k :: 0 <= k < |ts| ==> Arity(ts[k]) == 6
    requires 0 <= i < |ts|
    ensures Unpack6All(ts)[i] == Unpack6(ts[i]).value
  {
    if i < |ts| - 1 {
      Unpack6AllAt(ts[..|ts| - 1], i);
    }
  }

  /** Row `i` comes from ticker `i`. */
  lemma FetchRows6At(p: Provider, tickers: seq<string>)
    ensures forall i :: 0 <= i < |tickers| ==> FetchRows6(p, tickers)[i] == FetchRow6(p, tickers[i])
  {
    forall i | 0 <= i < |tickers| ensures FetchRows6(p, tickers)[i] == FetchRow6(p, tickers[i]) {
      Downloads6At(p, tickers, i);
      Unpack6AllAt(Downloads6(p, tickers), i);
    }
  }

  /**
   * Whenever a fetched row has a change, it also has its previous close and
   * last price, so the `.2f` formatting of those two never meets `None`.
   */
  lemma ChangeImpliesPrices(p: Provider, ticker: string)
    ensures var r := FetchRow6(p, ticker);
      r.pct.Some? ==> r.prevClose.Some? && r.lastPrice.Some? && r.prevClose.value != 0.0
  {
    var t := NormalizeTicker(ticker);
    var tup := FromReply6(t, p(t));
    assert DownloadData6(p, ticker) == tup;
  }

  predicate KeepTruthy6(r: Row6, minCap: real) {
    Truthy(r.mcap) && Truthy(r.pct) && r.mcap.value > minCap
  }

  function AsGainer6(r: Row6): Gainer6
    requires r.pct.Some? && r.mcap.Some?
  {
    Gainer6(r.ticker, r.pct.value, r.prevClose, r.lastPrice, r.mcap.value, r.vol)
  }

  /** The filtering comprehension of `getGainers`, over six-column rows. */
  function Truthful6(rows: seq<Row6>, minCap: real): (r: seq<Gainer6>)
    ensures |r| <= |rows|
  {
    if rows == [] then []
    else (if KeepTruthy6(rows[0], minCap) then [AsGainer6(rows[0])] else []) + Truthful6(rows[1..], minCap)
  }

  /** The filter keeps exactly the rows with truthy capitalisation above the floor and truthy change. */
  lemma {:induction false} Truthful6Exactly(rows: seq<Row6>, minCap: real)
    ensures forall g :: g in Truthful6(rows, minCap) ==>
              g.mcap > minCap && g.pct != 0.0 &&
              Row6(g.ticker, Some(g.pct), g.prevClose, g.lastPrice, Some(g.mcap), g.vol) in rows
    ensures forall i :: 0 <= i < |rows| && KeepTruthy6(rows[i], minCap) ==> AsGainer6(rows[i]) in Truthful6(rows, minCap)
  {
    if rows != [] {
      Truthful6Exactly(rows[1..], minCap);
      assert forall i :: 1 <= i < |rows| ==> rows[i] == rows[1..][i - 1];
    }
  }

  /** Every kept row of a fetch has its previous close and last price. */
  lemma KeptRowsHavePrices(p: Provider, tickers: seq<string>, minCap: real)
    ensures forall g :: g in Truthful6(FetchRows6(p, tickers), minCap) ==>
              g.prevClose.Some? && g.lastPrice.Some?
  {
    var rows := FetchRows6(p, tickers);
    Truthful6Exactly(rows, minCap);
    FetchRows6At(p, tickers);
    forall g | g in Truthful6(rows, minCap) ensures g.prevClose.Some? && g.lastPrice.Some? {
      var i :| 0 <= i < |rows| && rows[i] == Row6(g.ticker, Some(g.pct), g.prevClose, g.lastPrice, Some(g.mcap), g.vol);
      ChangeImpliesPrices(p, tickers[i]);
    }
  }

  /**
   * The ranked rows: the kept rows sorted stably by change, largest first. No
   * ticker gains a line, and every line has a non-zero change and a
   * capitalisation above the floor.
   */
  function Ranked6(rows: seq<Row6>, minCap: real): (r: seq<Gainer6>)
    ensures |r| <= |rows|
    ensures forall g :: g in r ==> g.mcap > minCap && g.pct != 0.0
  {
    var kept := Truthful6(rows, minCap);
    Truthful6Exactly(rows, minCap);
    SortDescSameElements(kept, Gainer6Pct);
    SortDesc(kept, Gainer6Pct)
  }

  /** The ranking is a sorted permutation of the kept rows, and loses or adds no row. */
  lemma Ranked6Facts(rows: seq<Row6>, minCap: real)
    ensures SortedDesc(Ranked6(rows, minCap), Gainer6Pct)
    ensures multiset(Ranked6(rows, minCap)) == multiset(Truthful6(rows, minCap))
    ensures forall g :: g in Ranked6(rows, minCap) <==> g in Truthful6(rows, minCap)
    ensures forall g :: g in Ranked6(rows, minCap) ==> g.mcap > minCap && g.pct != 0.0
  {
    var kept := Truthful6(rows, minCap);
    SortDescCorrect(kept, Gainer6Pct);
    SortDescSameElements(kept, Gainer6Pct);
    Truthful6Exactly(rows, minCap);
  }

  /** A display row: `(tckr, pct, mkt cap, prev close, last price, volume)`. */
  datatype Display6 = Display6(ticker: string, change: Cell, cap: Cell, prevClose: real, lastPrice: real, volume: Cell)

  /**
   * One element of the display comprehension. `format_market_cap(None)` and
   * `f"{None:.2f}"` both raise `TypeError`.
   */
  function FormatRow6(g: Gainer6): (r: Result<Display6>)
    ensures r.Raised? <==> g.vol.None? || g.prevClose.None? || g.lastPrice.None?
    ensures r.Ok? ==> r.value.ticker == g.ticker && r.value.change == Percent(g.pct * 100.0)
  {
    if g.prevClose.None? || g.lastPrice.None? then Raised("TypeError")
    else
      match FormatMarketCap(g.vol)
      case Raised(e) => Raised(e)
      case Ok(volume) =>
        Ok(Display6(g.ticker, FormatPercentage(Some(g.pct)), Tiered(g.mcap),
                    g.prevClose.value, g.lastPrice.value, volume))
  }

  /** The display comprehension: raises as soon as one row cannot be formatted. */
  function FormatTable6(table: seq<Gainer6>): (r: Result<seq<Display6>>)
    ensures r.Raised? <==> exists i :: 0 <= i < |table| && FormatRow6(table[i]).Raised?
    ensures r.Ok? ==> |r.value| == |table|
    ensures r.Ok? ==> forall i :: 0 <= i < |table| ==> Ok(r.value[i]) == FormatRow6(table[i])
  {
    if table == [] then Ok([])
    else
      match FormatRow6(table[0])
      case Raised(e) => Raised(e)
      case Ok(d) =>
        match FormatTable6(table[1..])
        case Raised(e) => Raised(e)
        case Ok(ds) => Ok([d] + ds)
  }

  /**
   * `getGainers` of the root copy: fetch each ticker once, in order; keep and
   * sort as the helper copy does; then format. The call raises `TypeError`
   * exactly when a kept row has no volume.
   */
  method GetGainers6(p: Provider, tickers: seq<string>, minCap: real) returns (r: Result<seq<Display6>>)
    ensures r == FormatTable6(Ranked6(FetchRows6(p, tickers), minCap))
    ensures r.Raised? <==> exists g :: g in Truthful6(FetchRows6(p, tickers), minCap) && g.vol.None?
    ensures r.Ok? ==> |r.value| == |Truthful6(FetchRows6(p, tickers), minCap)|
  {
    var fetched: seq<PyTuple> := [];
    var i := 0;
    while i < |tickers|
      invariant 0 <= i <= |tickers|
      invariant |fetched| == i
      invariant fetched == Downloads6(p, tickers[..i])
    {
      assert tickers[..i + 1][..i] == tickers[..i];
      fetched := fetched + [DownloadData6(p, tickers[i])];
      i := i + 1;
    }
    assert tickers[..i] == tickers;
    var rows := Unpack6All(fetched);
    var sorted := SortDesc(Truthful6(rows, minCap), Gainer6Pct);
    r := FormatTable6(sorted);
    RaisesIffVolumeMissing(p, tickers, minCap);
  }

  /**
   * Formatting a reordering of rows that all carry both prices raises exactly
   * when one of them has no volume, and otherwise formats every row.
   */
  lemma FormatReorderedRaises(kept: seq<Gainer6>, table: seq<Gainer6>)
    requires multiset(table) == multiset(kept)
    requires forall g :: g in kept ==> g.prevClose.Some? && g.lastPrice.Some?
    ensures FormatTable6(table).Raised? <==> exists g :: g in kept && g.vol.None?
    ensures FormatTable6(table).Ok? ==> |FormatTable6(table).value| == |kept|
  {
    assert |table| == |multiset(table)| == |kept|;
    if exists g :: g in kept && g.vol.None? {
      var g :| g in kept && g.vol.None?;
      assert g in multiset(table);
      var i :| 0 <= i < |table| && table[i] == g;
      assert FormatRow6(table[i]).Raised?;
    } else {
      forall i | 0 <= i < |table| ensures FormatRow6(table[i]).Ok? {
        assert table[i] in multiset(kept);
      }
    }
  }

  /** The formatting raises exactly when some kept row has no volume. */
  lemma RaisesIffVolumeMissing(p: Provider, tickers: seq<string>, minCap: real)
    ensures var rows := FetchRows6(p, tickers);
      && (FormatTable6(Ranked6(rows, minCap)).Raised? <==> exists g :: g in Truthful6(rows, minCap) && g.vol.None?)
      && (FormatTable6(Ranked6(rows, minCap)).Ok? ==> |FormatTable6(Ranked6(rows, minCap)).value| == |Truthful6(rows, minCap)|)
  {
    var rows := FetchRows6(p, tickers);
    Ranked6Facts(rows, minCap);
    KeptRowsHavePrices(p, tickers, minCap);
    FormatReorderedRaises(Truthful6(rows, minCap), Ranked6(rows, minCap));
  }
}
