/**
 * commands/helpers/gainer_multiThread.py: `_process_chunk` and the batch
 * runner `getGainers_mt`. The thread pool is replaced by the order in which
 * the futures complete, which the caller supplies as a permutation of the
 * chunk indices; the display strings are not modelled, so the runner returns
 * the ranked rows they are rendered from.
 */
module HelperGainerMt {
  import opened Wrappers
  import opened Utility
  import opened Quotes
  import opened Ranking
  import opened Chunking
  import opened HelperFilterGainers

  /** Normalising before `download_data`, which normalises again, changes nothing. */
  lemma NormalizeTwiceHarmless(p: Provider, t: string)
    ensures DownloadData(p, NormalizeTicker(t)) == DownloadData(p, t)
  {
    NormalizeIdempotent(t);
  }

  /**
   * The `try` of `_process_chunk` never reaches its `except`: the four-tuple
   * always unpacks, and the row is the one the sequential fetch makes.
   */
  lemma ChunkRowIsFetchRow(p: Provider, t: string)
    ensures Attempt4(t, DownloadData(p, NormalizeTicker(t))) == FetchRow(p, t)
  {
    NormalizeTwiceHarmless(p, t);
  }

  lemma FetchRowsAppend(p: Provider, a: seq<string>, b: seq<string>)
    ensures FetchRows(p, a + b) == FetchRows(p, a) + FetchRows(p, b)
  {
    var l := FetchRows(p, a + b);
    var r := FetchRows(p, a) + FetchRows(p, b);
    assert |l| == |r|;
    forall i | 0 <= i < |l| ensures l[i] == r[i] {
      if i < |a| {
        assert (a + b)[i] == a[i];
      } else {
        assert (a + b)[i] == b[i - |a|];
      }
    }
  }

  lemma FetchRowsSnoc(p: Provider, s: seq<string>, t: string)
    ensures FetchRows(p, s + [t]) == FetchRows(p, s) + [FetchRow(p, t)]
  {
    FetchRowsAppend(p, s, [t]);
  }

  /** Every fetched row carries the normalised ticker. */
  lemma FetchRowsTickers(p: Provider, chunk: seq<string>)
    ensures forall i :: 0 <= i < |chunk| ==> FetchRows(p, chunk)[i].ticker == NormalizeTicker(chunk[i])
  {
  }

  /**
   * `_process_chunk(chunk)`: one row per ticker, in chunk order, each the row
   * the sequential `getGainers` would fetch for it.
   */
  method ProcessChunk(p: Provider, chunk: seq<string>) returns (rows: seq<Row>)
    ensures rows == FetchRows(p, chunk)
    ensures |rows| == |chunk|
    ensures forall i :: 0 <= i < |chunk| ==> rows[i].ticker == NormalizeTicker(chunk[i])
  {
    rows := [];
    var i := 0;
    while i < |chunk|
      invariant 0 <= i <= |chunk|
      invariant rows == FetchRows(p, chunk[..i])
    {
      var t := chunk[i];
      assert chunk[..i + 1] == chunk[..i] + [t];
      FetchRowsSnoc(p, chunk[..i], t);
      var row := Attempt4(t, DownloadData(p, NormalizeTicker(t)));
      ChunkRowIsFetchRow(p, t);
      rows := rows + [row];
      i := i + 1;
    }
    assert chunk[..i] == chunk;
    FetchRowsTickers(p, chunk);
  }

  /** `[f.result() for f in futures]`, in submission order. */
  function ChunkOutputs(p: Provider, chunks: seq<seq<string>>): (r: seq<seq<Row>>)
    ensures |r| == |chunks|
  {
    if chunks == [] then []
    else ChunkOutputs(p, chunks[..|chunks| - 1]) + [FetchRows(p, chunks[|chunks| - 1])]
  }

  /** `executor.submit(_process_chunk, chunk)` for every chunk, in order: one output per chunk. */
  method RunChunks(p: Provider, chunks: seq<seq<string>>) returns (results: seq<seq<Row>>)
    ensures results == ChunkOutputs(p, chunks)
  {
    results := [];
    var i := 0;
    while i < |chunks|
      invariant 0 <= i <= |chunks|
      invariant results == ChunkOutputs(p, chunks[..i])
    {
      var rows := ProcessChunk(p, chunks[i]);
      assert chunks[..i + 1][..i] == chunks[..i];
      results := results + [rows];
      i := i + 1;
    }
    assert chunks[..i] == chunks;
  }

  /** The chunk outputs, concatenated in submission order, are the rows of the concatenated chunks. */
  lemma {:induction false} ChunkOutputsFlatten(p: Provider, chunks: seq<seq<string>>)
    ensures Flatten(ChunkOutputs(p, chunks)) == FetchRows(p, Flatten(chunks))
  {
    if chunks != [] {
      var init := chunks[..|chunks| - 1];
      var last := chunks[|chunks| - 1];
      var outs := ChunkOutputs(p, chunks);
      ChunkOutputsFlatten(p, init);
      FlattenLast(chunks);
      FlattenLast(outs);
      assert outs[..|outs| - 1] == ChunkOutputs(p, init);
      FetchRowsAppend(p, Flatten(init), last);
    }
  }

  /**
   * `all_rows` after every future has completed, in the order `completion`:
   * one row for each ticker, whichever chunk finished first.
   */
  function AllRows(p: Provider, tickers: seq<string>, workers: int, completion: seq<nat>): (r: seq<Row>)
    requires tickers != []
    requires IsSchedule(completion, NumChunks(tickers, workers))
    ensures |r| == |tickers|
  {
    ChunkedFacts(tickers, workers);
    var chunks := Chunked(tickers, workers).value;
    var outs := ChunkOutputs(p, chunks);
    MergeSchedule(outs, completion);
    ChunkOutputsFlatten(p, chunks);
    Merge(outs, completion)
  }

  /** Whatever the completion order, `all_rows` is a permutation of the rows fetched in input order. */
  lemma AllRowsPermutation(p: Provider, tickers: seq<string>, workers: int, completion: seq<nat>)
    requires tickers != []
    requires IsSchedule(completion, NumChunks(tickers, workers))
    ensures multiset(AllRows(p, tickers, workers, completion)) == multiset(FetchRows(p, tickers))
    ensures |AllRows(p, tickers, workers, completion)| == |tickers|
  {
    ChunkedFacts(tickers, workers);
    var chunks := Chunked(tickers, workers).value;
    var outs := ChunkOutputs(p, chunks);
    MergeSchedule(outs, completion);
    ChunkOutputsFlatten(p, chunks);
  }

  /**
   * The ranking of merged rows is sorted, stable with respect to the merge, and
   * a permutation of the rows the filter keeps from the fetch in input order.
   */
  lemma RankPresentFacts(merged: seq<Row>, fetched: seq<Row>, minCap: real)
    requires multiset(merged) == multiset(fetched)
    ensures var table := SortDesc(Present(merged, minCap), GainerPct);
      && SortedDesc(table, GainerPct)
      && multiset(table) == multiset(Present(fetched, minCap))
      && |table| <= |fetched|
  {
    var kept := Present(merged, minCap);
    SortDescCorrect(kept, GainerPct);
    PresentPermutation(merged, fetched, minCap);
    assert |multiset(merged)| == |multiset(fetched)|;
  }

  /**
   * `getGainers_mt(tickers, min_market_cap, workers)`. An empty list gives the
   * empty table before any chunking; a non-positive `workers` makes
   * `ThreadPoolExecutor` raise `ValueError`. Otherwise the ranked rows are the
   * ones the filter keeps, whatever order the threads finish in.
   */
  method GetGainersMt(p: Provider, tickers: seq<string>, minCap: real, workers: int, completion: seq<nat>)
    returns (r: Result<seq<Gainer>>)
    requires IsSchedule(completion, NumChunks(tickers, workers))
    ensures tickers == [] ==> r == Ok([])
    ensures r.Raised? <==> tickers != [] && workers < 1
    ensures r.Ok? && tickers != [] ==>
              r.value == SortDesc(Present(AllRows(p, tickers, workers, completion), minCap), GainerPct)
    ensures r.Ok? ==> SortedDesc(r.value, GainerPct)
    ensures r.Ok? ==> multiset(r.value) == multiset(Present(FetchRows(p, tickers), minCap))
    ensures r.Ok? ==> |r.value| <= |tickers|
  {
    if tickers == [] {
      return Ok([]);
    }
    ChunkedFacts(tickers, workers);
    var chunks := Chunked(tickers, workers).value;
    if workers < 1 {
      return Raised("ValueError");
    }
    var results := RunChunks(p, chunks);
    ScheduleInRange(completion, |results|);
    var allRows := MergeInOrder(results, completion);
    var filtered := Present(allRows, minCap);
    var table := SortDesc(filtered, GainerPct);
    AllRowsPermutation(p, tickers, workers, completion);
    RankPresentFacts(allRows, FetchRows(p, tickers), minCap);
    r := Ok(table);
  }

  /**
   * Every ticker whose fetched change and capitalisation are present, with the
   * capitalisation above the floor, is in the ranking (with a change of zero
   * too), and every ranked row comes from a fetched row above the floor.
   */
  lemma RankingMembers(p: Provider, tickers: seq<string>, minCap: real, table: seq<Gainer>)
    requires multiset(table) == multiset(Present(FetchRows(p, tickers), minCap))
    ensures forall i :: 0 <= i < |tickers| && KeepPresent(FetchRow(p, tickers[i]), minCap) ==>
              AsGainer(FetchRow(p, tickers[i])) in table
    ensures forall g :: g in table ==>
              g.mcap > minCap && exists i :: 0 <= i < |tickers| && FetchRow(p, tickers[i]) == Row(g.ticker, Some(g.pct), Some(g.mcap), g.vol)
  {
    var rows := FetchRows(p, tickers);
    TableComplete(rows, minCap, table);
    TableSound(rows, minCap, table);
  }

  lemma TableComplete(rows: seq<Row>, minCap: real, table: seq<Gainer>)
    requires multiset(table) == multiset(Present(rows, minCap))
    ensures forall i :: 0 <= i < |rows| && KeepPresent(rows[i], minCap) ==> AsGainer(rows[i]) in table
  {
    PresentExactly(rows, minCap);
    SameMembers(table, Present(rows, minCap));
  }

  lemma TableSound(rows: seq<Row>, minCap: real, table: seq<Gainer>)
    requires multiset(table) == multiset(Present(rows, minCap))
    ensures forall g :: g in table ==>
              g.mcap > minCap && exists i :: 0 <= i < |rows| && rows[i] == Row(g.ticker, Some(g.pct), Some(g.mcap), g.vol)
  {
    PresentExactly(rows, minCap);
    SameMembers(table, Present(rows, minCap));
    forall g | g in table
      ensures exists i :: 0 <= i < |rows| && rows[i] == Row(g.ticker, Some(g.pct), Some(g.mcap), g.vol)
    {
      var row := Row(g.ticker, Some(g.pct), Some(g.mcap), g.vol);
      assert row in rows;
    }
  }
}
