/** Statistics of the access-log report: one aggregation by time bin and API, and an
    independent one by API alone, which must agree. */
module AccessLogStats {
  import opened Arithmetic
  import opened Basics
  import opened Ordering
  import opened Tally
  import Percentiles
  import opened AccessLogBins

  datatype Record = Record(bin: string, api: string, retcode: int, latency: int, size: int)

  // ---------------------------------------------------------------- sorted sets of keys

  function Dedup<T(==, !new)>(xs: seq<T>): (r: seq<T>)
    ensures Distinct(r) && forall x :: x in r <==> x in xs
  {
    if xs == [] then []
    else
      var r, x := Dedup(xs[..|xs| - 1]), xs[|xs| - 1];
      assert forall y :: y in xs <==> y in xs[..|xs| - 1] || y == x;
      if x in r then r else r + [x]
  }

  /** `sorted(set(xs))`. */
  function SortedSet(xs: seq<string>): seq<string> { Sort(Dedup(xs), StrLe) }

  lemma SortedSetIs(xs: seq<string>)
    ensures Sorted(SortedSet(xs), StrLe) && Distinct(SortedSet(xs))
    ensures forall x :: x in SortedSet(xs) <==> x in xs
  {
    StrLeIsTotalOrder();
    SortSorted(Dedup(xs), StrLe);
    SortMembers(Dedup(xs), StrLe);
    DistinctPermutes(Dedup(xs), SortedSet(xs));
  }

  // ---------------------------------------------------------------- groups of records

  function One(r: Record): int { 1 }
  function Code(r: Record): int { r.retcode }
  function Bin(r: Record): string { r.bin }
  function Api(r: Record): string { r.api }
  function Key(r: Record): (string, string) { (r.bin, r.api) }
  predicate Failed(r: Record) { r.retcode != 0 }

  function Group(records: seq<Record>, bin: string, api: string): seq<Record> { Where(records, Key, (bin, api)) }
  function OfApi(records: seq<Record>, api: string): seq<Record> { Where(records, Api, api) }
  function Failures(records: seq<Record>, api: string): seq<Record> { Where(OfApi(records, api), Failed, true) }

  function ErrorFlag(r: Record): int { if Failed(r) then 1 else 0 }
  function Errors(items: seq<Record>): int { SumBy(items, ErrorFlag) }

  function Identity(x: int): int { x }

  function Latencies(items: seq<Record>): (r: seq<int>)
    ensures |r| == |items|
  {
    seq(|items|, i requires 0 <= i < |items| => items[i].latency)
  }

  function Sizes(items: seq<Record>): (r: seq<int>)
    ensures |r| == |items|
  {
    seq(|items|, i requires 0 <= i < |items| => items[i].size)
  }

  /** A share of `n`, in percent. */
  function Percent(k: int, n: int): real
    requires n > 0
  {
    k as real / n as real * 100.0
  }

  /** What is reported about some calls: the mean latency is `sum` / `count`. */
  datatype Cell = Cell(count: nat, errors: int, success: real, sum: int,
                       min: int, p90: int, p99: int, p9999: int, max: int)

  function CellFor(latencies: seq<int>, errors: int): Cell
    requires latencies != []
  {
    var s := Sort(latencies, IntLe);
    var n := |s|;
    Cell(n, errors, Percent(n - errors, n), SumBy(s, Identity), s[0], s[Percentiles.RankIndex(n, 9_000)],
         s[Percentiles.RankIndex(n, 9_900)], s[Percentiles.RankIndex(n, 9_999)], s[n - 1])
  }

  function CellOf(items: seq<Record>): Cell
    requires items != []
  {
    CellFor(Latencies(items), Errors(items))
  }

  lemma SharesInRange(k: int, n: int)
    requires 0 <= k <= n && n > 0
    ensures 0.0 <= Percent(k, n) <= 100.0
    ensures Percent(k, n) == 100.0 <==> k == n
  {
    var m, q := n as real, k as real / n as real;
    QuotientTimes(k as real, m);
    ProductPositive(q, m);
    ProductPositive(1.0 - q, m);
    assert (1.0 - q) * m == m - q * m;
  }

  /** The share of the others. */
  lemma Complement(k: int, n: int)
    requires n > 0
    ensures (1.0 - k as real / n as real) * 100.0 == Percent(n - k, n)
  {
    var m, p, q := n as real, (n - k) as real / n as real, k as real / n as real;
    QuotientTimes((n - k) as real, m);
    QuotientTimes(k as real, m);
    ProductPositive(p + q - 1.0, m);
    assert (p + q - 1.0) * m == p * m + q * m - m;
  }

  lemma {:induction false} ErrorsInRange(items: seq<Record>)
    ensures 0 <= Errors(items) <= |items|
  {
    if items != [] {
      ErrorsInRange(items[..|items| - 1]);
    }
  }

  lemma RanksOrdered(n: nat)
    requires n > 0
    ensures Percentiles.RankIndex(n, 9_000) <= Percentiles.RankIndex(n, 9_900) <= Percentiles.RankIndex(n, 9_999) < n
  {
  }

  lemma {:induction false} SumBounds(s: seq<int>, lo: int, hi: int)
    requires forall i :: 0 <= i < |s| ==> lo <= s[i] <= hi
    ensures |s| * lo <= SumBy(s, Identity) <= |s| * hi
  {
    if s != [] {
      SumBounds(s[..|s| - 1], lo, hi);
      Times(|s|, lo);
      Times(|s|, hi);
    }
  }

  /** The latency statistics are ordered and bound every latency, and the mean lies between the extremes. */
  lemma LatenciesOrdered(ls: seq<int>, errors: int)
    requires ls != []
    ensures var c := CellFor(ls, errors);
      && c.min <= c.p90 <= c.p99 <= c.p9999 <= c.max
      && c.count * c.min <= c.sum <= c.count * c.max && c.sum == SumBy(ls, Identity)
      && (forall x :: x in ls ==> c.min <= x <= c.max)
  {
    var s := Sort(ls, IntLe);
    var n := |s|;
    SortSorted(ls, IntLe);
    SortMembers(ls, IntLe);
    RanksOrdered(n);
    hide Sort, SumBy, Percentiles.RankIndex, Percent;
    assert forall i, j :: 0 <= i <= j < n ==> s[i] <= s[j];
    SumBounds(s, s[0], s[n - 1]);
    SumByPermutation(s, ls, Identity);
  }

  lemma CellCounts(items: seq<Record>)
    requires items != []
    ensures var c := CellOf(items);
      && c.count == |items| && c.errors == Errors(items)
      && 0.0 <= c.success <= 100.0 && (c.success == 100.0 <==> c.errors == 0)
  {
    ErrorsInRange(items);
    SharesInRange(|items| - Errors(items), |items|);
    hide Sort, SumBy, Percentiles.RankIndex, Percent, Errors;
  }

  /** Within a cell the statistics are ordered, and the success rate is 100 exactly when nothing failed. */
  lemma CellOrdered(items: seq<Record>)
    requires items != []
    ensures var c := CellOf(items);
      && c.count == |items| && c.errors == Errors(items)
      && c.min <= c.p90 <= c.p99 <= c.p9999 <= c.max
      && c.count * c.min <= c.sum <= c.count * c.max && c.sum == SumBy(Latencies(items), Identity)
      && (forall r :: r in items ==> c.min <= r.latency <= c.max)
      && 0.0 <= c.success <= 100.0 && (c.success == 100.0 <==> c.errors == 0)
  {
    var ls := Latencies(items);
    LatenciesOrdered(ls, Errors(items));
    CellCounts(items);
    forall r | r in items ensures r.latency in ls {
      var i :| 0 <= i < |items| && items[i] == r;
      assert ls[i] == r.latency;
    }
    hide Latencies, CellFor, Errors, SumBy;
  }

  // ---------------------------------------------------------------- bins and APIs

  function BinKeys(records: seq<Record>): (r: seq<string>)
    ensures |r| == |records| && forall i :: 0 <= i < |r| ==> r[i] == records[i].bin
  {
    seq(|records|, i requires 0 <= i < |records| => records[i].bin)
  }

  function ApiKeys(records: seq<Record>): (r: seq<string>)
    ensures |r| == |records| && forall i :: 0 <= i < |r| ==> r[i] == records[i].api
  {
    seq(|records|, i requires 0 <= i < |records| => records[i].api)
  }

  function BinsOf(records: seq<Record>): seq<string> { SortedSet(BinKeys(records)) }
  function ApisOf(records: seq<Record>): seq<string> { SortedSet(ApiKeys(records)) }

  /** The bins and the APIs of the report are those of the records, each once, in string order. */
  lemma KeysOfRecords(records: seq<Record>)
    ensures Distinct(BinsOf(records)) && Distinct(ApisOf(records))
    ensures Sorted(BinsOf(records), StrLe) && Sorted(ApisOf(records), StrLe)
    ensures forall x :: x in BinsOf(records) <==> x in BinKeys(records)
    ensures forall x :: x in ApisOf(records) <==> x in ApiKeys(records)
    ensures forall i :: 0 <= i < |records| ==> records[i].bin in BinsOf(records) && records[i].api in ApisOf(records)
  {
    var bins, apis := BinKeys(records), ApiKeys(records);
    SortedSetIs(bins);
    SortedSetIs(apis);
    hide SortedSet, Distinct, Sorted, StrLe;
    forall i | 0 <= i < |records| ensures records[i].bin in BinsOf(records) && records[i].api in ApisOf(records) {
      assert bins[i] in bins && apis[i] in apis;
    }
  }

  ghost predicate LabelledAt(r: Record, t: Stamp, interval: int)
    requires interval > 0
  {
    t.Valid() && TimeBin(t, interval).Valid() && r.bin == BinLabel(TimeBin(t, interval), interval)
  }

  /** Every record carries the label of the bin of its timestamp. */
  ghost predicate Labelled(records: seq<Record>, stamps: seq<Stamp>, interval: int) {
    && interval > 0 && |stamps| == |records|
    && forall k :: 0 <= k < |stamps| ==> LabelledAt(records[k], stamps[k], interval)
  }

  /** A record with the given label. */
  ghost function SourceOf(records: seq<Record>, bin: string): (k: nat)
    requires bin in BinKeys(records)
    ensures k < |records| && records[k].bin == bin
  {
    var k :| 0 <= k < |records| && BinKeys(records)[k] == bin;
    k
  }

  /** The bins behind the labels of the report, in the order of the labels. */
  ghost function BinsBehind(records: seq<Record>, stamps: seq<Stamp>, interval: int): (bins: seq<Stamp>)
    requires Labelled(records, stamps, interval)
    ensures |bins| == |BinsOf(records)|
  {
    var labels := BinsOf(records);
    KeysOfRecords(records);
    seq(|labels|, i requires 0 <= i < |labels| =>
      assert labels[i] in labels; TimeBin(stamps[SourceOf(records, labels[i])], interval))
  }

  lemma BinBehind(records: seq<Record>, stamps: seq<Stamp>, interval: int, i: nat) returns (k: nat)
    requires Labelled(records, stamps, interval) && i < |BinsOf(records)|
    ensures k < |stamps| && stamps[k].Valid()
    ensures var b := BinsBehind(records, stamps, interval)[i];
      b == TimeBin(stamps[k], interval) && b.Valid() && b.year == stamps[k].year
      && BinLabel(b, interval) == BinsOf(records)[i]
  {
    var labels := BinsOf(records);
    KeysOfRecords(records);
    assert labels[i] in labels;
    k := SourceOf(records, labels[i]);
    assert LabelledAt(records[k], stamps[k], interval);
    hide BinsOf, TimeBin, BinLabel;
    BinContains(stamps[k], interval);
  }

  lemma IndexOfBin(records: seq<Record>, stamps: seq<Stamp>, interval: int, k: nat) returns (i: nat)
    requires Labelled(records, stamps, interval) && k < |stamps|
    ensures i < |BinsOf(records)| && BinsBehind(records, stamps, interval)[i] == TimeBin(stamps[k], interval)
  {
    var labels := BinsOf(records);
    KeysOfRecords(records);
    assert records[k].bin in labels;
    i :| 0 <= i < |labels| && labels[i] == records[k].bin;
    var m := BinBehind(records, stamps, interval, i);
    assert LabelledAt(records[k], stamps[k], interval);
    hide BinsOf, BinsBehind, TimeBin, BinLabel, Sorted, Distinct;
    LabelsIdentifyBins(stamps[k], stamps[m], interval);
  }

  /** The report lists the bin of every timestamp exactly once. */
  lemma BinsListedOnce(records: seq<Record>, stamps: seq<Stamp>, interval: int)
    requires Labelled(records, stamps, interval)
    ensures var bins := BinsBehind(records, stamps, interval);
      && Distinct(bins)
      && (forall k :: 0 <= k < |stamps| ==> TimeBin(stamps[k], interval) in bins)
      && (forall i :: 0 <= i < |bins| ==> bins[i].Valid() && BinLabel(bins[i], interval) == BinsOf(records)[i])
  {
    assert interval > 0;
    hide BinsOf, BinsBehind, TimeBin, BinLabel, Sorted, Labelled, Stamp.Valid;
    var bins, labels := BinsBehind(records, stamps, interval), BinsOf(records);
    assert Distinct(labels) by {
      KeysOfRecords(records);
    }
    forall i | 0 <= i < |bins| ensures bins[i].Valid() && BinLabel(bins[i], interval) == labels[i] {
      var k := BinBehind(records, stamps, interval, i);
    }
    forall i, j | 0 <= i < j < |bins| ensures bins[i] != bins[j] {
      assert labels[i] != labels[j];
    }
    forall k | 0 <= k < |stamps| ensures TimeBin(stamps[k], interval) in bins {
      var i := IndexOfBin(records, stamps, interval, k);
    }
  }

  ghost predicate Chronological(bins: seq<Stamp>) {
    forall i, j :: 0 <= i < j < |bins| ==> bins[i].NoLater(bins[j])
  }

  ghost predicate AllYearsAgree(stamps: seq<Stamp>) {
    forall k, m :: 0 <= k < |stamps| && 0 <= m < |stamps| && stamps[k].Valid() && stamps[m].Valid() ==>
      YearsAgree(stamps[k].year, stamps[m].year)
  }

  lemma LaterLabel(records: seq<Record>, stamps: seq<Stamp>, interval: int, i: nat, j: nat) returns (k: nat, m: nat)
    requires Labelled(records, stamps, interval) && i < j < |BinsOf(records)|
    ensures k < |stamps| && m < |stamps| && stamps[k].Valid() && stamps[m].Valid()
    ensures var bins := BinsBehind(records, stamps, interval);
      && bins[i] == TimeBin(stamps[k], interval) && bins[j] == TimeBin(stamps[m], interval)
      && (bins[i].NoLater(bins[j]) <==> YearsAgree(stamps[k].year, stamps[m].year))
  {
    KeysOfRecords(records);
    assert StrLe(BinsOf(records)[i], BinsOf(records)[j]);
    k := BinBehind(records, stamps, interval, i);
    m := BinBehind(records, stamps, interval, j);
    hide BinsOf, BinsBehind, TimeBin, BinLabel, Sorted, Distinct, StrLe, YearsAgree, Labelled;
    LabelsChronological(stamps[k], stamps[m], interval);
  }

  lemma InOrderAgree(records: seq<Record>, stamps: seq<Stamp>, interval: int, k: nat, m: nat)
    requires Labelled(records, stamps, interval) && Chronological(BinsBehind(records, stamps, interval))
    requires k < |stamps| && m < |stamps| && stamps[k].Valid() && stamps[m].Valid()
    ensures YearsAgree(stamps[k].year, stamps[m].year)
  {
    hide BinsOf, BinsBehind, BinLabel, Stamp.NoLater, Labelled;
    var i := IndexOfBin(records, stamps, interval, k);
    var j := IndexOfBin(records, stamps, interval, m);
    if i < j {
      var k', m' := LaterLabel(records, stamps, interval, i, j);
    } else if j < i {
      var m', k' := LaterLabel(records, stamps, interval, j, i);
    }
  }

  /** The report lists the bins in the order of time exactly when the years, printed without padding, compare alike. */
  lemma BinsInOrderOfTime(records: seq<Record>, stamps: seq<Stamp>, interval: int)
    requires Labelled(records, stamps, interval)
    ensures Chronological(BinsBehind(records, stamps, interval)) <==> AllYearsAgree(stamps)
  {
    var bins := BinsBehind(records, stamps, interval);
    hide BinsOf, BinsBehind, TimeBin, Stamp.NoLater, YearsAgree;
    if AllYearsAgree(stamps) {
      forall i, j | 0 <= i < j < |bins| ensures bins[i].NoLater(bins[j]) {
        var k, m := LaterLabel(records, stamps, interval, i, j);
      }
    }
    if Chronological(bins) {
      forall k, m | 0 <= k < |stamps| && 0 <= m < |stamps| && stamps[k].Valid() && stamps[m].Valid()
        ensures YearsAgree(stamps[k].year, stamps[m].year)
      {
        InOrderAgree(records, stamps, interval, k, m);
      }
    }
  }

  lemma ApiHasRecords(records: seq<Record>, api: string)
    requires api in ApisOf(records)
    ensures OfApi(records, api) != []
  {
    KeysOfRecords(records);
    WhereMembers(records, Api, api);
    var i :| 0 <= i < |records| && ApiKeys(records)[i] == api;
    hide Where, ApisOf, BinsOf, Distinct, Sorted;
    assert records[i] in records && Api(records[i]) == api;
    assert records[i] in Where(records, Api, api);
  }

  // ---------------------------------------------------------------- by bin and API

  /** Seconds between the first and the last call of a bin, at least one. */
  type Span = s: real | s >= 1.0 witness 1.0

  function SpanOf(spans: map<string, Span>, bin: string): Span { if bin in spans then spans[bin] else 3600.0 }

  /** One entry of every per-API series. */
  datatype Entry = Entry(cell: Cell, qps: real)

  /** Nothing for an empty group. */
  function EntryOf(items: seq<Record>, span: Span): (e: Option<Entry>)
    ensures e.None? <==> items == []
  {
    if items == [] then None else Some(Entry(CellOf(items), |items| as real / span))
  }

  datatype TableRow = TableRow(bin: string, api: string, entry: Entry)

  type Series = map<string, seq<Option<Entry>>>

  datatype Stats = Stats(bins: seq<string>, apis: seq<string>, series: Series, rows: seq<TableRow>)

  /** The records and the spans of their bins. */
  datatype Log = Log(records: seq<Record>, spans: map<string, Span>)

  function EntryAt(log: Log, bin: string, api: string): Option<Entry> {
    EntryOf(Group(log.records, bin, api), SpanOf(log.spans, bin))
  }

  function RowsIn(log: Log, bin: string, apis: seq<string>): seq<TableRow> {
    if apis == [] then []
    else
      var api := apis[|apis| - 1];
      var e := EntryAt(log, bin, api);
      RowsIn(log, bin, apis[..|apis| - 1]) + if e.Some? then [TableRow(bin, api, e.value)] else []
  }

  /** One row per non-empty group, bin by bin. */
  function RowsOf(log: Log, bins: seq<string>, apis: seq<string>): seq<TableRow> {
    if bins == [] then [] else RowsOf(log, bins[..|bins| - 1], apis) + RowsIn(log, bins[|bins| - 1], apis)
  }

  type Groups = map<(string, string), seq<Record>>

  ghost predicate GroupsOf(groups: Groups, records: seq<Record>) {
    forall bin, api :: Group(records, bin, api) == if (bin, api) in groups then groups[(bin, api)] else []
  }

  method GroupRecords(records: seq<Record>) returns (groups: Groups)
    ensures GroupsOf(groups, records)
  {
    groups := map[];
    for i := 0 to |records|
      invariant GroupsOf(groups, records[..i])
    {
      var r := records[i];
      var key := (r.bin, r.api);
      forall bin, api
        ensures Group(records[..i + 1], bin, api) ==
                if (bin, api) == key then Group(records[..i], bin, api) + [r] else Group(records[..i], bin, api)
      {
        WhereStep(records, i, Key, (bin, api));
      }
      hide Group;
      var items := if key in groups then groups[key] else [];
      groups := groups[key := items + [r]];
    }
    assert records[..|records|] == records;
  }

  /** Every series has one entry per bin, and it is the one of that bin and API. */
  ghost predicate SeriesOf(series: Series, log: Log, bins: seq<string>, apis: seq<string>) {
    && (forall api :: api in series <==> api in apis)
    && forall api :: api in series ==>
         |series[api]| == |bins| && forall i :: 0 <= i < |bins| ==> series[api][i] == EntryAt(log, bins[i], api)
  }

  /** The first `a` APIs have got their entry for the bin. */
  ghost predicate Column(log: Log, bin: string, apis: seq<string>, before: Series, series: Series, a: nat) {
    && (forall api :: api in before <==> api in apis)
    && (forall api :: api in series <==> api in apis)
    && forall k :: 0 <= k < |apis| ==>
         series[apis[k]] == before[apis[k]] + if k < a then [EntryAt(log, bin, apis[k])] else []
  }

  lemma ColumnStep(log: Log, bin: string, apis: seq<string>, before: Series, series: Series, a: nat)
    requires a < |apis| && Distinct(apis) && Column(log, bin, apis, before, series, a)
    ensures apis[a] in series
    ensures Column(log, bin, apis, before, series[apis[a] := series[apis[a]] + [EntryAt(log, bin, apis[a])]], a + 1)
  {
    hide EntryAt;
    assert before[apis[a]] + [] == before[apis[a]];
  }

  lemma ColumnAdded(log: Log, bins: seq<string>, b: nat, apis: seq<string>, before: Series, series: Series)
    requires b < |bins| && SeriesOf(before, log, bins[..b], apis)
    requires Column(log, bins[b], apis, before, series, |apis|)
    ensures SeriesOf(series, log, bins[..b + 1], apis)
  {
    hide EntryAt;
    forall api | api in series
      ensures |series[api]| == b + 1
      ensures forall i :: 0 <= i < b + 1 ==> series[api][i] == EntryAt(log, bins[..b + 1][i], api)
    {
      var k :| 0 <= k < |apis| && apis[k] == api;
      assert |before[api]| == b;
      forall i | 0 <= i < b + 1 ensures series[api][i] == EntryAt(log, bins[..b + 1][i], api) {
        if i < b {
          assert before[api][i] == EntryAt(log, bins[..b][i], api);
        }
      }
    }
  }

  lemma EntryIs(log: Log, groups: Groups, bin: string, api: string)
    requires GroupsOf(groups, log.records)
    ensures var items := if (bin, api) in groups then groups[(bin, api)] else [];
            EntryOf(items, SpanOf(log.spans, bin)) == EntryAt(log, bin, api)
  {
    hide EntryOf, Group;
  }

  lemma NoRows(log: Log, bin: string, apis: seq<string>)
    ensures RowsIn(log, bin, apis[..0]) == []
  {
  }

  lemma RowsInStep(log: Log, bin: string, apis: seq<string>, a: nat)
    requires a < |apis|
    ensures var e := EntryAt(log, bin, apis[a]);
            RowsIn(log, bin, apis[..a + 1]) ==
            RowsIn(log, bin, apis[..a]) + if e.Some? then [TableRow(bin, apis[a], e.value)] else []
  {
    hide EntryAt;
    assert apis[..a + 1][..a] == apis[..a];
  }

  /** The inner loop: one more entry in the series of every API. */
  method BinColumn(ghost log: Log, groups: Groups, bins: seq<string>, b: nat, span: Span, apis: seq<string>,
                   before: Series)
    returns (series: Series, rows: seq<TableRow>)
    requires b < |bins| && Distinct(apis) && GroupsOf(groups, log.records) && SeriesOf(before, log, bins[..b], apis)
    requires span == SpanOf(log.spans, bins[b])
    ensures SeriesOf(series, log, bins[..b + 1], apis)
    ensures rows == RowsIn(log, bins[b], apis)
  {
    hide EntryOf, EntryAt, Group, GroupsOf, RowsIn;
    series, rows := before, [];
    var bin := bins[b];
    assert Column(log, bin, apis, before, series, 0);
    NoRows(log, bin, apis);
    hide SeriesOf, Column;
    for a := 0 to |apis|
      invariant Column(log, bin, apis, before, series, a)
      invariant rows == RowsIn(log, bin, apis[..a])
    {
      var api := apis[a];
      var items := if (bin, api) in groups then groups[(bin, api)] else [];
      var entry := EntryOf(items, span);
      EntryIs(log, groups, bin, api);
      RowsInStep(log, bin, apis, a);
      ColumnStep(log, bin, apis, before, series, a);
      series := series[api := series[api] + [entry]];
      if entry.Some? {
        rows := rows + [TableRow(bin, api, entry.value)];
      }
    }
    assert apis[..|apis|] == apis;
    ColumnAdded(log, bins, b, apis, before, series);
  }

  method ComputeStats(log: Log) returns (s: Stats)
    ensures s.bins == BinsOf(log.records) && s.apis == ApisOf(log.records)
    ensures SeriesOf(s.series, log, s.bins, s.apis)
    ensures s.rows == RowsOf(log, s.bins, s.apis)
  {
    var groups := GroupRecords(log.records);
    var bins, apis := BinsOf(log.records), ApisOf(log.records);
    KeysOfRecords(log.records);
    hide BinsOf, ApisOf, EntryAt, Group, GroupsOf;
    var series: Series := map api | api in apis :: [];
    assert bins[..0] == [] && SeriesOf(series, log, [], apis);
    hide SeriesOf;
    var rows: seq<TableRow> := [];
    for b := 0 to |bins|
      invariant SeriesOf(series, log, bins[..b], apis)
      invariant rows == RowsOf(log, bins[..b], apis)
    {
      assert bins[..b + 1][..b] == bins[..b];
      var newRows;
      series, newRows := BinColumn(log, groups, bins, b, SpanOf(log.spans, bins[b]), apis, series);
      rows := rows + newRows;
    }
    assert bins[..|bins|] == bins;
    s := Stats(bins, apis, series, rows);
  }

  // ---------------------------------------------------------------- by API alone

  datatype ApiTotal = ApiTotal(count: nat, errors: int, latencies: seq<int>, sizes: seq<int>)

  function TotalOf(items: seq<Record>): ApiTotal { ApiTotal(|items|, Errors(items), Latencies(items), Sizes(items)) }

  ghost predicate TotalsOf(totals: map<string, ApiTotal>, records: seq<Record>) {
    forall api ::
      && (api in totals <==> OfApi(records, api) != [])
      && (api in totals ==> totals[api] == TotalOf(OfApi(records, api)))
  }

  function AddRecord(t: ApiTotal, r: Record): ApiTotal {
    ApiTotal(t.count + 1, t.errors + ErrorFlag(r), t.latencies + [r.latency], t.sizes + [r.size])
  }

  function Known(totals: map<string, ApiTotal>, api: string): ApiTotal {
    if api in totals then totals[api] else ApiTotal(0, 0, [], [])
  }

  lemma TotalOfSnoc(items: seq<Record>, r: Record)
    ensures TotalOf(items + [r]) == AddRecord(TotalOf(items), r)
  {
    SumBySnoc(items, r, ErrorFlag);
    assert Latencies(items + [r]) == Latencies(items) + [r.latency];
    assert Sizes(items + [r]) == Sizes(items) + [r.size];
  }

  lemma KnownIs(totals: map<string, ApiTotal>, records: seq<Record>, api: string)
    requires TotalsOf(totals, records)
    ensures Known(totals, api) == TotalOf(OfApi(records, api))
  {
    assert TotalOf([]) == ApiTotal(0, 0, [], []);
    hide OfApi;
  }

  lemma TotalsStep(totals: map<string, ApiTotal>, records: seq<Record>, i: nat)
    requires i < |records| && TotalsOf(totals, records[..i])
    ensures var r := records[i];
            TotalsOf(totals[r.api := AddRecord(Known(totals, r.api), r)], records[..i + 1])
  {
    var r := records[i];
    KnownIs(totals, records[..i], r.api);
    TotalOfSnoc(OfApi(records[..i], r.api), r);
    forall api ensures OfApi(records[..i + 1], api) ==
                       if api == r.api then OfApi(records[..i], api) + [r] else OfApi(records[..i], api) {
      WhereStep(records, i, Api, api);
    }
    hide OfApi, TotalOf, AddRecord, Known;
  }

  method TotalByApi(records: seq<Record>) returns (totals: map<string, ApiTotal>)
    ensures TotalsOf(totals, records)
  {
    totals := map[];
    assert TotalsOf(totals, records[..0]);
    hide TotalsOf;
    for i := 0 to |records|
      invariant TotalsOf(totals, records[..i])
    {
      var r := records[i];
      var t := Known(totals, r.api);
      t := t.(count := t.count + 1);
      if r.retcode != 0 {
        t := t.(errors := t.errors + 1);
      }
      t := t.(latencies := t.latencies + [r.latency], sizes := t.sizes + [r.size]);
      TotalsStep(totals, records, i);
      totals := totals[r.api := t];
    }
    assert records[..|records|] == records;
  }

  datatype SummaryRow = SummaryRow(api: string, cell: Cell, meanSize: real, maxSize: int)

  function SummaryFor(api: string, t: ApiTotal): SummaryRow
    requires t.latencies != [] && |t.sizes| == |t.latencies|
  {
    var mean := SumBy(t.sizes, Identity) as real / |t.sizes| as real;
    SummaryRow(api, CellFor(t.latencies, t.errors), mean, Largest(t.sizes))
  }

  /** The summary row of an API is the one of its records. */
  ghost predicate SummaryOf(row: SummaryRow, records: seq<Record>, api: string) {
    var items := OfApi(records, api);
    items != [] && row == SummaryFor(api, TotalOf(items)) && row.cell == CellOf(items)
  }

  // ---------------------------------------------------------------- error codes

  /** How often a call of `api` returned the error code `rc`. */
  function CodeCount(records: seq<Record>, api: string, rc: int): int { Part(Failures(records, api), Code, One, rc) }

  function FailureCodes(records: seq<Record>, api: string): (r: seq<int>)
    ensures |r| == |Failures(records, api)|
    ensures forall i :: 0 <= i < |r| ==> r[i] == Failures(records, api)[i].retcode
  {
    var fs := Failures(records, api);
    seq(|fs|, i requires 0 <= i < |fs| => fs[i].retcode)
  }

  /** The error codes of an API, ascending. */
  function CodesOf(records: seq<Record>, api: string): seq<int> { Sort(Dedup(FailureCodes(records, api)), IntLe) }

  lemma CodesOfIs(records: seq<Record>, api: string)
    ensures Distinct(CodesOf(records, api)) && Sorted(CodesOf(records, api), IntLe)
    ensures forall i :: 0 <= i < |Failures(records, api)| ==> Failures(records, api)[i].retcode in CodesOf(records, api)
  {
    var codes := FailureCodes(records, api);
    SortSorted(Dedup(codes), IntLe);
    SortMembers(Dedup(codes), IntLe);
    DistinctPermutes(Dedup(codes), CodesOf(records, api));
    forall i | 0 <= i < |Failures(records, api)|
      ensures Failures(records, api)[i].retcode in CodesOf(records, api)
    {
      assert codes[i] in codes;
    }
  }

  type Counts = map<(string, int), int>

  ghost predicate CodesCounted(codes: Counts, records: seq<Record>) {
    forall api, rc :: CodeCount(records, api, rc) == if (api, rc) in codes then codes[(api, rc)] else 0
  }

  lemma CodeCountStep(records: seq<Record>, i: nat, api: string, rc: int)
    requires i < |records|
    ensures var r := records[i];
      CodeCount(records[..i + 1], api, rc) ==
      CodeCount(records[..i], api, rc) + if r.retcode != 0 && api == r.api && rc == r.retcode then 1 else 0
  {
    var r := records[i];
    WhereStep(records, i, Api, api);
    WhereSnoc(OfApi(records[..i], api), r, Failed, true);
    PartSnoc(Failures(records[..i], api), r, Code, One, rc);
    hide Where, Part;
  }

  method CountCodes(records: seq<Record>) returns (codes: Counts)
    ensures CodesCounted(codes, records)
  {
    codes := map[];
    for i := 0 to |records|
      invariant CodesCounted(codes, records[..i])
    {
      var r := records[i];
      forall api, rc
        ensures CodeCount(records[..i + 1], api, rc) ==
                CodeCount(records[..i], api, rc) + if r.retcode != 0 && api == r.api && rc == r.retcode then 1 else 0
      {
        CodeCountStep(records, i, api, rc);
      }
      hide CodeCount;
      if r.retcode != 0 {
        var key := (r.api, r.retcode);
        codes := codes[key := (if key in codes then codes[key] else 0) + 1];
      }
    }
    assert records[..|records|] == records;
  }

  /** One bar of the error distribution. */
  datatype Bar = Bar(api: string, code: int, count: int)

  function DistIn(records: seq<Record>, api: string, codes: seq<int>): seq<Bar> {
    if codes == [] then []
    else
      var rc := codes[|codes| - 1];
      DistIn(records, api, codes[..|codes| - 1]) + [Bar(api, rc, CodeCount(records, api, rc))]
  }

  /** API by API, code by code. */
  function DistOf(records: seq<Record>, apis: seq<string>): seq<Bar> {
    if apis == [] then []
    else
      var api := apis[|apis| - 1];
      DistOf(records, apis[..|apis| - 1]) + DistIn(records, api, CodesOf(records, api))
  }

  method DistributionOf(records: seq<Record>, api: string, counts: Counts) returns (bars: seq<Bar>)
    requires CodesCounted(counts, records)
    ensures bars == DistIn(records, api, CodesOf(records, api))
  {
    var codes := CodesOf(records, api);
    hide CodeCount, CodesOf;
    bars := [];
    for k := 0 to |codes|
      invariant bars == DistIn(records, api, codes[..k])
    {
      assert codes[..k + 1][..k] == codes[..k];
      bars := bars + [Bar(api, codes[k], if (api, codes[k]) in counts then counts[(api, codes[k])] else 0)];
    }
    assert codes[..|codes|] == codes;
  }

  datatype Overall = Overall(totals: map<string, ApiTotal>, summary: seq<SummaryRow>, dist: seq<Bar>,
                             totalErrors: int, success: real)

  /** One summary row per API, in order. */
  ghost predicate SummariesOf(summary: seq<SummaryRow>, records: seq<Record>, apis: seq<string>) {
    |summary| == |apis| && forall i :: 0 <= i < |apis| ==> SummaryOf(summary[i], records, apis[i])
  }

  lemma SummaryStep(totals: map<string, ApiTotal>, records: seq<Record>, api: string)
    requires TotalsOf(totals, records) && api in ApisOf(records)
    ensures api in totals && totals[api].latencies != [] && |totals[api].sizes| == |totals[api].latencies|
    ensures totals[api].errors == Errors(OfApi(records, api))
    ensures SummaryOf(SummaryFor(api, totals[api]), records, api)
  {
    ApiHasRecords(records, api);
    hide ApisOf, OfApi, CellFor, SumBy;
  }

  method Summarize(records: seq<Record>, totals: map<string, ApiTotal>) returns (summary: seq<SummaryRow>)
    requires TotalsOf(totals, records)
    ensures SummariesOf(summary, records, ApisOf(records))
  {
    var apis := ApisOf(records);
    hide ApisOf, TotalsOf, SummaryOf, SummaryFor;
    summary := [];
    for a := 0 to |apis|
      invariant SummariesOf(summary, records, apis[..a])
    {
      SummaryStep(totals, records, apis[a]);
      summary := summary + [SummaryFor(apis[a], totals[apis[a]])];
    }
    assert apis[..|apis|] == apis;
  }

  /** The loops over the APIs that count errors. */
  method CountErrors(records: seq<Record>, totals: map<string, ApiTotal>, codes: Counts)
    returns (totalErrors: int, dist: seq<Bar>)
    requires TotalsOf(totals, records) && CodesCounted(codes, records)
    ensures totalErrors == SumBy(ApisOf(records), (api: string) => Errors(OfApi(records, api)))
    ensures dist == DistOf(records, ApisOf(records))
  {
    var apis := ApisOf(records);
    hide CodeCount, CodesOf, ApisOf, CodesCounted, OfApi, TotalsOf, Errors, SummaryOf, SummaryFor;
    totalErrors, dist := 0, [];
    ghost var errorsOf := (api: string) => Errors(OfApi(records, api));
    for a := 0 to |apis|
      invariant totalErrors == SumBy(apis[..a], errorsOf)
      invariant dist == DistOf(records, apis[..a])
    {
      var api := apis[a];
      assert apis[..a + 1][..a] == apis[..a];
      assert apis[..a + 1] == apis[..a] + [api];
      SumBySnoc(apis[..a], api, errorsOf);
      SummaryStep(totals, records, api);
      totalErrors := totalErrors + totals[api].errors;
      var bars := DistributionOf(records, api, codes);
      dist := dist + bars;
    }
    assert apis[..|apis|] == apis;
  }

  /** `compute_overall`. */
  method ComputeOverall(records: seq<Record>) returns (o: Overall)
    ensures TotalsOf(o.totals, records)
    ensures SummariesOf(o.summary, records, ApisOf(records))
    ensures o.totalErrors == SumBy(ApisOf(records), (api: string) => Errors(OfApi(records, api)))
    ensures o.dist == DistOf(records, ApisOf(records))
    ensures o.success == if records == [] then 100.0 else Percent(|records| - o.totalErrors, |records|)
  {
    hide *;
    var totals := TotalByApi(records);
    var codes := CountCodes(records);
    var summary := Summarize(records, totals);
    var totalErrors, dist := CountErrors(records, totals, codes);
    var success := if records == [] then 100.0 else (1.0 - totalErrors as real / |records| as real) * 100.0;
    if records != [] {
      Complement(totalErrors, |records|);
    }
    o := Overall(totals, summary, dist, totalErrors, success);
  }

  // ---------------------------------------------------------------- the two aggregations agree

  /** A group is the part of an API's records in one bin. */
  lemma GroupIsPart(records: seq<Record>, bin: string, api: string, f: Record -> int)
    ensures SumBy(Group(records, bin, api), f) == Part(OfApi(records, api), Bin, f, bin)
  {
    WhereWhere(records, Api, api, Bin, bin, Key, (bin, api));
    WhereSum(OfApi(records, api), Bin, f, bin);
  }

  /** What one bin and API contributes to a sum; the sums over the APIs of a bin, the bins of an API, and all. */
  function GroupSum(records: seq<Record>, f: Record -> int, bin: string, api: string): int {
    SumBy(Group(records, bin, api), f)
  }

  function BinSum(records: seq<Record>, f: Record -> int, apis: seq<string>, bin: string): int {
    SumBy(apis, (api: string) => GroupSum(records, f, bin, api))
  }

  function ApiSum(records: seq<Record>, f: Record -> int, bins: seq<string>, api: string): int {
    SumBy(bins, (bin: string) => GroupSum(records, f, bin, api))
  }

  function TableSum(records: seq<Record>, f: Record -> int, bins: seq<string>, apis: seq<string>): int {
    SumBy(bins, (bin: string) => BinSum(records, f, apis, bin))
  }

  /** For each API, the bins together carry exactly what the API carries overall: calls and errors alike. */
  lemma BinsAddUpToApi(records: seq<Record>, api: string, f: Record -> int)
    ensures ApiSum(records, f, BinsOf(records), api) == SumBy(OfApi(records, api), f)
  {
    KeysOfRecords(records);
    WhereMembers(records, Api, api);
    var items, bins := OfApi(records, api), BinsOf(records);
    hide Where, BinsOf, ApisOf;
    forall i | 0 <= i < |items| ensures Bin(items[i]) in bins {
      assert items[i] in items;
      var k :| 0 <= k < |records| && records[k] == items[i];
    }
    PartsAddUp(items, Bin, f, bins);
    forall i | 0 <= i < |bins| ensures GroupSum(records, f, bins[i], api) == Part(items, Bin, f, bins[i]) {
      GroupIsPart(records, bins[i], api, f);
    }
    SumBySame(bins, (bin: string) => GroupSum(records, f, bin, api), bin => Part(items, Bin, f, bin));
  }

  /** The APIs together carry exactly what the log carries. */
  lemma ApisAddUp(records: seq<Record>, f: Record -> int)
    ensures SumBy(ApisOf(records), (api: string) => SumBy(OfApi(records, api), f)) == SumBy(records, f)
  {
    KeysOfRecords(records);
    var apis := ApisOf(records);
    hide ApisOf, BinsOf;
    PartsAddUp(records, Api, f, apis);
    forall i | 0 <= i < |apis| ensures SumBy(OfApi(records, apis[i]), f) == Part(records, Api, f, apis[i]) {
      WhereSum(records, Api, f, apis[i]);
    }
    SumBySame(apis, (api: string) => SumBy(OfApi(records, api), f), api => Part(records, Api, f, api));
  }

  /** The failures of an API are its errors. */
  lemma FailuresAreErrors(records: seq<Record>, api: string)
    ensures SumBy(Failures(records, api), One) == Errors(OfApi(records, api))
  {
    var items := OfApi(records, api);
    WhereSum(items, Failed, One, true);
    PartIs(items, Failed, One, true, ErrorFlag);
  }

  /** The error codes of an API add up to its errors. */
  lemma CodesAddUp(records: seq<Record>, api: string)
    ensures SumBy(CodesOf(records, api), (rc: int) => CodeCount(records, api, rc)) == Errors(OfApi(records, api))
  {
    CodesOfIs(records, api);
    FailuresAreErrors(records, api);
    var fs, codes := Failures(records, api), CodesOf(records, api);
    hide CodesOf, Failures, Errors;
    PartsAddUp(fs, Code, One, codes);
    SumBySame(codes, (rc: int) => CodeCount(records, api, rc), rc => Part(fs, Code, One, rc));
  }

  function BarCount(b: Bar): int { b.count }

  lemma {:induction false} DistInSums(records: seq<Record>, api: string, codes: seq<int>)
    ensures SumBy(DistIn(records, api, codes), BarCount) == SumBy(codes, (rc: int) => CodeCount(records, api, rc))
  {
    hide CodeCount;
    if codes != [] {
      var init, rc := codes[..|codes| - 1], codes[|codes| - 1];
      DistInSums(records, api, init);
      SumBySnoc(DistIn(records, api, init), Bar(api, rc, CodeCount(records, api, rc)), BarCount);
    }
  }

  lemma {:induction false} DistSums(records: seq<Record>, apis: seq<string>)
    ensures SumBy(DistOf(records, apis), BarCount) == SumBy(apis, (api: string) => Errors(OfApi(records, api)))
  {
    hide CodesOf, CodeCount, Errors;
    if apis != [] {
      var init, api := apis[..|apis| - 1], apis[|apis| - 1];
      DistSums(records, init);
      SumByAppend(DistOf(records, init), DistIn(records, api, CodesOf(records, api)), BarCount);
      DistInSums(records, api, CodesOf(records, api));
      CodesAddUp(records, api);
    }
  }

  /** Overall errors: the sum over the APIs is the number of failed calls and the total of the distribution. */
  lemma ErrorsAgree(records: seq<Record>)
    ensures SumBy(ApisOf(records), (api: string) => Errors(OfApi(records, api))) == Errors(records)
    ensures SumBy(DistOf(records, ApisOf(records)), BarCount) == Errors(records)
  {
    ApisAddUp(records, ErrorFlag);
    DistSums(records, ApisOf(records));
    hide ApisOf, OfApi, DistOf;
    SumBySame(ApisOf(records), (api: string) => Errors(OfApi(records, api)),
              (api: string) => SumBy(OfApi(records, api), ErrorFlag));
  }

  function RowCount(row: TableRow): int { row.entry.cell.count }
  function RowErrors(row: TableRow): int { row.entry.cell.errors }

  lemma EntrySums(items: seq<Record>, span: Span)
    ensures var e := EntryOf(items, span);
      && SumBy(items, One) == (if e.Some? then e.value.cell.count else 0)
      && SumBy(items, ErrorFlag) == (if e.Some? then e.value.cell.errors else 0)
  {
    SumByOnes(items, One);
    if items != [] {
      hide Sort, Percent, Percentiles.RankIndex;
    }
  }

  lemma {:induction false} RowsInSum(log: Log, bin: string, apis: seq<string>)
    ensures SumBy(RowsIn(log, bin, apis), RowCount) == BinSum(log.records, One, apis, bin)
    ensures SumBy(RowsIn(log, bin, apis), RowErrors) == BinSum(log.records, ErrorFlag, apis, bin)
  {
    if apis != [] {
      var init, api := apis[..|apis| - 1], apis[|apis| - 1];
      hide EntryOf, Group;
      RowsInSum(log, bin, init);
      var items := Group(log.records, bin, api);
      var e := EntryAt(log, bin, api);
      EntrySums(items, SpanOf(log.spans, bin));
      assert GroupSum(log.records, One, bin, api) == SumBy(items, One);
      assert GroupSum(log.records, ErrorFlag, bin, api) == SumBy(items, ErrorFlag);
      if e.Some? {
        var row := TableRow(bin, api, e.value);
        SumBySnoc(RowsIn(log, bin, init), row, RowCount);
        SumBySnoc(RowsIn(log, bin, init), row, RowErrors);
      } else {
        assert RowsIn(log, bin, init) + [] == RowsIn(log, bin, init);
      }
    }
  }

  lemma {:induction false} RowsSum(log: Log, bins: seq<string>, apis: seq<string>)
    ensures SumBy(RowsOf(log, bins, apis), RowCount) == TableSum(log.records, One, bins, apis)
    ensures SumBy(RowsOf(log, bins, apis), RowErrors) == TableSum(log.records, ErrorFlag, bins, apis)
  {
    hide RowsIn, Group, BinSum;
    if bins != [] {
      var init, bin := bins[..|bins| - 1], bins[|bins| - 1];
      RowsSum(log, init, apis);
      RowsInSum(log, bin, apis);
      SumByAppend(RowsOf(log, init, apis), RowsIn(log, bin, apis), RowCount);
      SumByAppend(RowsOf(log, init, apis), RowsIn(log, bin, apis), RowErrors);
    }
  }

  /** Summing by bin or by API gives the same. */
  lemma {:induction false} TableByColumns(records: seq<Record>, f: Record -> int, bins: seq<string>, apis: seq<string>)
    ensures TableSum(records, f, bins, apis) == SumBy(apis, (api: string) => ApiSum(records, f, bins, api))
  {
    hide GroupSum;
    if bins == [] {
      SumByZero(apis, (api: string) => ApiSum(records, f, bins, api));
    } else {
      var init, bin := bins[..|bins| - 1], bins[|bins| - 1];
      TableByColumns(records, f, init, apis);
      SumByPlus(apis, (api: string) => ApiSum(records, f, init, api), (api: string) => GroupSum(records, f, bin, api),
                (api: string) => ApiSum(records, f, bins, api));
    }
  }

  lemma AllGroupsAddUp(records: seq<Record>, f: Record -> int)
    ensures TableSum(records, f, BinsOf(records), ApisOf(records)) == SumBy(records, f)
  {
    var bins, apis := BinsOf(records), ApisOf(records);
    TableByColumns(records, f, bins, apis);
    forall i | 0 <= i < |apis| ensures ApiSum(records, f, bins, apis[i]) == SumBy(OfApi(records, apis[i]), f) {
      BinsAddUpToApi(records, apis[i], f);
    }
    ApisAddUp(records, f);
    hide BinsOf, ApisOf, ApiSum, TableSum, OfApi;
    SumBySame(apis, (api: string) => ApiSum(records, f, bins, api), (api: string) => SumBy(OfApi(records, api), f));
  }

  /** The table of the report accounts for every record and every error exactly once. */
  lemma TableAccountsForLog(log: Log)
    ensures SumBy(RowsOf(log, BinsOf(log.records), ApisOf(log.records)), RowCount) == |log.records|
    ensures SumBy(RowsOf(log, BinsOf(log.records), ApisOf(log.records)), RowErrors) == Errors(log.records)
  {
    hide BinsOf, ApisOf, RowsOf;
    RowsSum(log, BinsOf(log.records), ApisOf(log.records));
    AllGroupsAddUp(log.records, One);
    AllGroupsAddUp(log.records, ErrorFlag);
    SumByOnes(log.records, One);
  }
}
