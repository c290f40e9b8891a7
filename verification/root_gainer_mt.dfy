/**
 * gainer_multiThread.py (the copy at the repository root). Its `chunked` is
 * the helper copy's (Chunking.Chunked), but its `_process_chunk` unpacks four
 * names from the root `download_data`, which returns six values, so every
 * unpacking raises and every row is the failure row of the raw ticker.
 */
module RootGainerMt {
  import opened Wrappers
  import opened Quotes
  import opened Ranking
  import opened Chunking
  import opened RootFilterGainers

  /** Four names cannot be bound to the six-tuple, success or failure alike. */
  lemma UnpackAlwaysFails(p: Provider, t: string)
    ensures Unpack4(DownloadData6(p, t)) == None
    ensures Attempt4(t, DownloadData6(p, t)) == FailureRow(t)
  {
  }

  /**
   * `_process_chunk(chunk)`: one row per ticker, in chunk order, and each is
   * `(t, None, None, None)` for the ticker as given.
   */
  method ProcessChunk6(p: Provider, chunk: seq<string>) returns (rows: seq<Row>)
    ensures |rows| == |chunk|
    ensures forall i :: 0 <= i < |chunk| ==> rows[i] == FailureRow(chunk[i])
  {
    rows := [];
    var i := 0;
    while i < |chunk|
      invariant 0 <= i <= |chunk|
      invariant |rows| == i
      invariant forall k :: 0 <= k < i ==> rows[k] == FailureRow(chunk[k])
    {
      var t := chunk[i];
      var row := Attempt4(t, DownloadData6(p, t));
      UnpackAlwaysFails(p, t);
      rows := rows + [row];
      i := i + 1;
    }
  }

  /** `executor.submit(_process_chunk, chunk)` for every chunk: only failure rows come back. */
  method RunChunks6(p: Provider, chunks: seq<seq<string>>) returns (results: seq<seq<Row>>)
    ensures |results| == |chunks|
    ensures forall k :: 0 <= k < |chunks| ==> |results[k]| == |chunks[k]|
    ensures forall k, m :: 0 <= k < |results| && 0 <= m < |results[k]| ==> results[k][m] == FailureRow(chunks[k][m])
  {
    results := [];
    var i := 0;
    while i < |chunks|
      invariant 0 <= i <= |chunks|
      invariant |results| == i
      invariant forall k :: 0 <= k < i ==> |results[k]| == |chunks[k]|
      invariant forall k, m :: 0 <= k < i && 0 <= m < |results[k]| ==> results[k][m] == FailureRow(chunks[k][m])
    {
      var rows := ProcessChunk6(p, chunks[i]);
      results := results + [rows];
      i := i + 1;
    }
  }

  /** Merging outputs made only of failure rows, in any order, gives only failure rows. */
  lemma {:induction false} MergeOfFailures(outs: seq<seq<Row>>, order: seq<nat>)
    requires InRange(order, |outs|)
    requires forall k, m :: 0 <= k < |outs| && 0 <= m < |outs[k]| ==> outs[k][m].pct.None?
    ensures forall m :: 0 <= m < |Merge(outs, order)| ==> Merge(outs, order)[m].pct.None?
  {
    if order != [] {
      var init := order[..|order| - 1];
      assert InRange(init, |outs|);
      MergeOfFailures(outs, init);
    }
  }

  /** No failure row passes the filter. */
  lemma {:induction false} PresentOfFailures(rows: seq<Row>, minCap: real)
    requires forall i :: 0 <= i < |rows| ==> rows[i].pct.None?
    ensures Present(rows, minCap) == []
  {
    if rows != [] {
      PresentOfFailures(rows[1..], minCap);
    }
  }

  /**
   * `getGainers_mt` of the root copy: an empty list gives the empty table, a
   * non-positive `workers` makes the pool raise `ValueError`, and every other
   * call returns the empty table too, whatever the provider answers.
   */
  method GetGainersMt6(p: Provider, tickers: seq<string>, minCap: real, workers: int, completion: seq<nat>)
    returns (r: Result<seq<Gainer>>)
    requires IsSchedule(completion, NumChunks(tickers, workers))
    ensures r.Raised? <==> tickers != [] && workers < 1
    ensures r.Ok? ==> r.value == []
  {
    if tickers == [] {
      return Ok([]);
    }
    ChunkedFacts(tickers, workers);
    var chunks := Chunked(tickers, workers).value;
    if workers < 1 {
      return Raised("ValueError");
    }
    var results := RunChunks6(p, chunks);
    ScheduleInRange(completion, |results|);
    var allRows := MergeInOrder(results, completion);
    MergeOfFailures(results, completion);
    var filtered := Present(allRows, minCap);
    PresentOfFailures(allRows, minCap);
    var table := SortDesc(filtered, GainerPct);
    r := Ok(table);
  }
}
