/** What the figures of the access-log report say about the records, one by one. */
module AccessLogReport {
  import opened AccessLogStats
  import opened Arithmetic
  import opened Basics
  import opened Ordering
  import Percentiles
  import opened Ranks
  import opened Tally

  // ---------------------------------------------------------------- one cell

  lemma ShareTimes(k: int, n: int)
    requires n > 0
    ensures Percent(k, n) * n as real == 100.0 * k as real
  {
    QuotientTimes(k as real, n as real);
    var q, m := k as real / n as real, n as real;
    assert (q * 100.0) * m == 100.0 * (q * m);
  }

  lemma LatencyRanks(ls: seq<int>, errors: int)
    requires ls != []
    ensures var c, n := CellFor(ls, errors), |ls|;
      && AtRank(c.min, 0, ls, IntLe) && AtRank(c.max, n - 1, ls, IntLe)
      && AtRank(c.p90, n * 9 / 10, ls, IntLe) && AtRank(c.p99, n * 99 / 100, ls, IntLe)
      && AtRank(c.p9999, n * 9_999 / 10_000, ls, IntLe)
  {
    hide AtRank, Sort, Percentiles.RankIndex, Percent, SumBy;
    var n := |ls|;
    Percentiles.RankIndexIs(n);
    SortedAtRank(ls, IntLe, 0);
    SortedAtRank(ls, IntLe, n - 1);
    SortedAtRank(ls, IntLe, n * 9 / 10);
    SortedAtRank(ls, IntLe, n * 99 / 100);
    SortedAtRank(ls, IntLe, n * 9_999 / 10_000);
  }

  /** The percentiles of a cell by their ranks among the latencies of its records. */
  lemma CellRanks(items: seq<Record>)
    requires items != []
    ensures forall i :: 0 <= i < |items| ==> Latencies(items)[i] == items[i].latency
    ensures var c, n, ls := CellOf(items), |items|, Latencies(items);
      && AtRank(c.min, 0, ls, IntLe) && AtRank(c.max, n - 1, ls, IntLe)
      && AtRank(c.p90, n * 9 / 10, ls, IntLe) && AtRank(c.p99, n * 99 / 100, ls, IntLe)
      && AtRank(c.p9999, n * 9_999 / 10_000, ls, IntLe)
  {
    hide AtRank, CellFor, Errors;
    LatencyRanks(Latencies(items), Errors(items));
  }

  lemma LatencySum(ls: seq<int>, errors: int)
    requires ls != []
    ensures var c := CellFor(ls, errors); c.count == |ls| && c.errors == errors && c.sum == SumBy(ls, Identity)
    ensures CellFor(ls, errors).success * |ls| as real == 100.0 * (|ls| - errors) as real
  {
    hide Sort, Percentiles.RankIndex, Percent, SumBy;
    SumByPermutation(Sort(ls, IntLe), ls, Identity);
    ShareTimes(|ls| - errors, |ls|);
  }

  /** The sums of a cell: the errors by the return codes, the latencies, and the success rate by the count. */
  lemma CellSums(items: seq<Record>)
    requires items != []
    ensures var c, n := CellOf(items), |items|;
      && c.count == n && c.errors == SumBy(items, (r: Record) => if r.retcode != 0 then 1 else 0)
      && c.sum == SumBy(items, (r: Record) => r.latency)
      && c.success * n as real == 100.0 * (n - c.errors) as real
  {
    hide CellFor, SumBy;
    var ls := Latencies(items);
    LatencySum(ls, Errors(items));
    SumBySame(items, ErrorFlag, (r: Record) => if r.retcode != 0 then 1 else 0);
    SumByMatch(ls, Identity, items, (r: Record) => r.latency);
  }

  // ---------------------------------------------------------------- series and table

  function Counts(records: seq<Record>, bin: string, api: string): int {
    SumBy(records, (r: Record) => if r.bin == bin && r.api == api then 1 else 0)
  }

  lemma GroupCount(records: seq<Record>, bin: string, api: string)
    ensures |Group(records, bin, api)| == Counts(records, bin, api)
  {
    WhereSum(records, Key, One, (bin, api));
    SumByOnes(Group(records, bin, api), One);
    PartIs(records, Key, One, (bin, api), (r: Record) => if r.bin == bin && r.api == api then 1 else 0);
  }

  /** An entry is missing exactly when no record has the bin and the API; otherwise it is the cell of those records and
      their number per second of the bin, an hour when the bin has no span. */
  lemma EntryMeans(log: Log, bin: string, api: string)
    ensures EntryAt(log, bin, api).None? <==> Counts(log.records, bin, api) == 0
    ensures EntryAt(log, bin, api).Some? ==>
      var e, span := EntryAt(log, bin, api).value, if bin in log.spans then log.spans[bin] else 3600.0;
      && e.qps * span == Counts(log.records, bin, api) as real
      && Group(log.records, bin, api) != [] && e.cell == CellOf(Group(log.records, bin, api))
    ensures forall r :: r in Group(log.records, bin, api) <==> r in log.records && r.bin == bin && r.api == api
  {
    hide CellOf, SumBy, Where;
    var items := Group(log.records, bin, api);
    GroupCount(log.records, bin, api);
    WhereMembers(log.records, Key, (bin, api));
    QuotientTimes(|items| as real, SpanOf(log.spans, bin));
  }

  lemma {:induction false} RowsInAre(log: Log, bin: string, apis: seq<string>)
    ensures forall row :: row in RowsIn(log, bin, apis) <==>
              row.bin == bin && row.api in apis && EntryAt(log, bin, row.api) == Some(row.entry)
  {
    hide EntryAt;
    if apis != [] {
      RowsInAre(log, bin, apis[..|apis| - 1]);
      LastOut(apis);
    }
  }

  /** The table has a row for every bin and API with records, and no other. */
  lemma {:induction false} RowsAre(log: Log, bins: seq<string>, apis: seq<string>)
    ensures forall row :: row in RowsOf(log, bins, apis) <==>
              row.bin in bins && row.api in apis && EntryAt(log, row.bin, row.api) == Some(row.entry)
  {
    hide EntryAt, RowsIn;
    if bins != [] {
      RowsAre(log, bins[..|bins| - 1], apis);
      RowsInAre(log, bins[|bins| - 1], apis);
      LastOut(bins);
    }
  }

  /** `a` is a row of an earlier bin than `b`, or of the same bin and an earlier API. */
  predicate RowBefore(a: TableRow, b: TableRow) {
    if a.bin == b.bin then StrLe(a.api, b.api) && a.api != b.api else StrLe(a.bin, b.bin)
  }

  lemma {:induction false} RowsInOrder(log: Log, bin: string, apis: seq<string>)
    requires Sorted(apis, StrLe) && Distinct(apis)
    ensures Sorted(RowsIn(log, bin, apis), RowBefore)
  {
    hide EntryAt, StrLe;
    if apis != [] {
      var n := |apis| - 1;
      RowsInOrder(log, bin, apis[..n]);
      RowsInAre(log, bin, apis[..n]);
      var rows := RowsIn(log, bin, apis[..n]);
      forall i | 0 <= i < |rows| ensures StrLe(rows[i].api, apis[n]) && rows[i].api != apis[n] && rows[i].bin == bin {
        assert rows[i] in rows;
        var k :| 0 <= k < n && apis[..n][k] == rows[i].api;
        assert apis[k] == rows[i].api;
      }
    }
  }

  /** The table is in order, by bin and then by API, without repetition. */
  lemma {:induction false} RowsOrdered(log: Log, bins: seq<string>, apis: seq<string>)
    requires Sorted(bins, StrLe) && Distinct(bins) && Sorted(apis, StrLe) && Distinct(apis)
    ensures Sorted(RowsOf(log, bins, apis), RowBefore)
  {
    hide EntryAt, StrLe, RowsIn;
    if bins != [] {
      var n := |bins| - 1;
      RowsOrdered(log, bins[..n], apis);
      RowsAre(log, bins[..n], apis);
      RowsInAre(log, bins[n], apis);
      RowsInOrder(log, bins[n], apis);
      var rows, more := RowsOf(log, bins[..n], apis), RowsIn(log, bins[n], apis);
      forall i, j | 0 <= i < |rows| && 0 <= j < |more| ensures RowBefore(rows[i], more[j]) {
        assert rows[i] in rows && more[j] in more;
        var k :| 0 <= k < n && bins[..n][k] == rows[i].bin;
        assert bins[k] == rows[i].bin && more[j].bin == bins[n];
      }
    }
  }

  lemma EntryPresent(log: Log, r: Record)
    requires r in log.records
    ensures EntryAt(log, r.bin, r.api).Some?
  {
    hide Where, CellOf;
    WhereMembers(log.records, Key, (r.bin, r.api));
    assert r in Group(log.records, r.bin, r.api);
  }

  /** The table of the report: which rows it has, what they hold, and their order. */
  lemma TableMeans(log: Log)
    ensures var rows := RowsOf(log, BinsOf(log.records), ApisOf(log.records));
      && Sorted(rows, RowBefore)
      && (forall row :: row in rows ==> EntryAt(log, row.bin, row.api) == Some(row.entry))
      && (forall r :: r in log.records ==> exists row :: row in rows && row.bin == r.bin && row.api == r.api)
  {
    hide EntryAt, RowsOf, BinsOf, ApisOf, RowBefore, Sorted, Distinct, StrLe, SumBy;
    var bins, apis := BinsOf(log.records), ApisOf(log.records);
    var rows := RowsOf(log, bins, apis);
    KeysOfRecords(log.records);
    RowsAre(log, bins, apis);
    RowsOrdered(log, bins, apis);
    forall r | r in log.records ensures exists row :: row in rows && row.bin == r.bin && row.api == r.api {
      var i :| 0 <= i < |log.records| && log.records[i] == r;
      EntryPresent(log, r);
      assert TableRow(r.bin, r.api, EntryAt(log, r.bin, r.api).value) in rows;
    }
  }

  // ---------------------------------------------------------------- summary and error codes

  lemma LargestSize(items: seq<Record>)
    requires items != []
    ensures exists r :: r in items && r.size == Largest(Sizes(items))
    ensures forall r :: r in items ==> r.size <= Largest(Sizes(items))
  {
    var sizes := Sizes(items);
    var k :| 0 <= k < |sizes| && sizes[k] == Largest(sizes);
    assert items[k] in items;
    forall r | r in items ensures r.size <= Largest(sizes) {
      var i :| 0 <= i < |items| && items[i] == r;
      assert sizes[i] == r.size;
    }
  }

  lemma MeanTimes(items: seq<Record>)
    requires items != []
    ensures SumBy(Sizes(items), Identity) as real / |items| as real * |items| as real
         == SumBy(items, (r: Record) => r.size) as real
  {
    hide SumBy;
    SumByMatch(Sizes(items), Identity, items, (r: Record) => r.size);
    QuotientTimes(SumBy(Sizes(items), Identity) as real, |items| as real);
  }

  /** The summary row of an API: its records, the mean and the largest of their sizes. */
  lemma SummaryMeans(row: SummaryRow, records: seq<Record>, api: string)
    requires SummaryOf(row, records, api)
    ensures var items := OfApi(records, api);
      && items != [] && row.api == api && row.cell == CellOf(items)
      && (forall r :: r in items <==> r in records && r.api == api)
      && row.meanSize * |items| as real == SumBy(items, (r: Record) => r.size) as real
      && (exists r :: r in items && r.size == row.maxSize) && (forall r :: r in items ==> r.size <= row.maxSize)
  {
    hide CellOf, CellFor, SumBy, Where, Sizes, Largest;
    WhereMembers(records, Api, api);
    MeanTimes(OfApi(records, api));
    LargestSize(OfApi(records, api));
  }

  lemma NoCodes(api: string, rc: int)
    ensures CodeCount([], api, rc) == 0
  {
  }

  /** A bar counts the calls of its API that returned its code; code 0 is no error. */
  lemma {:induction false} CodeCountMeans(records: seq<Record>, api: string, rc: int)
    ensures CodeCount(records, api, rc) ==
            SumBy(records, (r: Record) => if r.api == api && r.retcode == rc && rc != 0 then 1 else 0)
  {
    hide CodeCount;
    if records == [] {
      NoCodes(api, rc);
    } else {
      var n := |records| - 1;
      CodeCountMeans(records[..n], api, rc);
      CodeCountStep(records, n, api, rc);
      assert records[..n + 1] == records;
    }
  }

  lemma {:induction false} BarsIn(records: seq<Record>, api: string, codes: seq<int>)
    ensures forall b :: b in DistIn(records, api, codes) <==>
              b.api == api && b.code in codes && b.count == CodeCount(records, api, b.code)
  {
    hide CodeCount;
    if codes != [] {
      BarsIn(records, api, codes[..|codes| - 1]);
      LastOut(codes);
    }
  }

  /** The bars: one for every API and every error code its calls returned, with that number of calls. */
  lemma {:induction false} BarsMean(records: seq<Record>, apis: seq<string>)
    ensures forall b :: b in DistOf(records, apis) <==>
              b.api in apis && b.code in CodesOf(records, b.api) && b.count == CodeCount(records, b.api, b.code)
  {
    hide CodeCount, CodesOf, DistIn;
    if apis != [] {
      var n := |apis| - 1;
      BarsMean(records, apis[..n]);
      BarsIn(records, apis[n], CodesOf(records, apis[n]));
      LastOut(apis);
    }
  }
}
