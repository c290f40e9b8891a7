/**
 * The values that flow through the premarket-gainer pipeline, shared by both
 * copies of the fetcher (commands/helpers/filter_gainers.py and
 * filter_gainers.py) and both copies of the batch runner.
 */
module Quotes {
  import opened Wrappers

  /**
   * What the market-data provider yields for one symbol. `ProviderError` stands
   * for any exception raised while asking for it (network failure, unknown
   * symbol, an empty price history). Otherwise each field may be missing:
   * the last extended-hours price, the previous regular close, the market
   * capitalisation, the last volume, and the last price of the lower
   * resolution one-week series that the fallback branch would read.
   */
  datatype Reply =
    | ProviderError
    | Snapshot(lastPrice: Option<real>, prevClose: Option<real>, marketCap: Option<real>,
               volume: Option<real>, weekLastPrice: Option<real>)

  /** The provider, fixed for one run of the pipeline. */
  type Provider = string -> Reply

  /**
   * A Python tuple returned by `download_data`: the ticker followed by numeric
   * fields, each of which may be `None`. Its arity decides whether a
   * destructuring assignment of a given width succeeds.
   */
  datatype PyTuple = PyTuple(ticker: string, fields: seq<Option<real>>)

  function Arity(t: PyTuple): nat { 1 + |t.fields| }

  /** A four-column row `(ticker, pct_change, market_cap, volume)`. */
  datatype Row = Row(ticker: string, pct: Option<real>, mcap: Option<real>, vol: Option<real>)

  /** A six-column row `(ticker, pct_change, prev_close, last_price, market_cap, volume)`. */
  datatype Row6 = Row6(ticker: string, pct: Option<real>, prevClose: Option<real>,
                       lastPrice: Option<real>, mcap: Option<real>, vol: Option<real>)

  /** The row a failed fetch contributes: the ticker and three `None`s. */
  function FailureRow(t: string): (r: Row)
    ensures r.ticker == t
    ensures r.pct.None? && r.mcap.None? && r.vol.None?
  {
    Row(t, None, None, None)
  }

  /**
   * `sym, pct, mcap, vol = t`: Python raises `ValueError` (here `None`) unless
   * the tuple has exactly four elements.
   */
  function Unpack4(t: PyTuple): (r: Option<Row>)
    ensures r.Some? <==> Arity(t) == 4
    ensures r.Some? ==> r.value.ticker == t.ticker && [r.value.pct, r.value.mcap, r.value.vol] == t.fields
  {
    if |t.fields| == 3 then Some(Row(t.ticker, t.fields[0], t.fields[1], t.fields[2])) else None
  }

  /**
   * The `try` of `_process_chunk` around `sym, pct, mcap, vol = download_data(...)`:
   * the unpacked row, or `(t, None, None, None)` with the ticker `t` as the
   * caller passed it when the unpacking raises.
   */
  function Attempt4(t: string, tup: PyTuple): (r: Row)
    ensures Arity(tup) == 4 ==> Unpack4(tup) == Some(r)
    ensures Arity(tup) != 4 ==> r == FailureRow(t)
  {
    match Unpack4(tup)
    case Some(row) => row
    case None => FailureRow(t)
  }

  /** The six-name destructuring of `getGainers` in filter_gainers.py. */
  function Unpack6(t: PyTuple): (r: Option<Row6>)
    ensures r.Some? <==> Arity(t) == 6
    ensures r.Some? ==> r.value.ticker == t.ticker
    ensures r.Some? ==> [r.value.pct, r.value.prevClose, r.value.lastPrice, r.value.mcap, r.value.vol] == t.fields
  {
    if |t.fields| == 5 then Some(Row6(t.ticker, t.fields[0], t.fields[1], t.fields[2], t.fields[3], t.fields[4]))
    else None
  }

  /** A row that survived the ranker's filter: change and capitalisation are present. */
  datatype Gainer = Gainer(ticker: string, pct: real, mcap: real, vol: Option<real>)

  /** A six-column row that survived the filter of filter_gainers.py. */
  datatype Gainer6 = Gainer6(ticker: string, pct: real, prevClose: Option<real>,
                             lastPrice: Option<real>, mcap: real, vol: Option<real>)

  /** The sort keys: `key=lambda r: r[1]`. */
  function GainerPct(g: Gainer): real { g.pct }

  function Gainer6Pct(g: Gainer6): real { g.pct }

  /** `last_price / prev_close - 1`, the premarket change as a fraction. */
  function PctChange(last: real, prev: real): (p: real)
    requires prev != 0.0
    ensures (p + 1.0) * prev == last
  {
    last / prev - 1.0
  }
}
