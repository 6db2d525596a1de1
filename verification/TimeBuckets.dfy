/** Time buckets of traces at two granularities (`_build_time_buckets`). */
module TimeBuckets {
  import opened Arithmetic
  import opened Basics
  import opened Ordering
  import opened Tally
  import Accumulator
  import Percentiles

  /** A trace row; `firstTs` is the epoch time in milliseconds, `errors` the error counter, `access` the median
      access latency. */
  datatype TraceRow = TraceRow(id: string, firstTs: Option<int>, errors: multiset<string>, classification: string,
                               access: Option<real>)

  datatype Bucket = Bucket(traceIds: set<string>, errorCount: int, maxConcurrency: int, slowCount: int,
                           access: seq<real>)

  datatype BucketRow = BucketRow(start: int, traceCount: nat, errorCount: int, maxConcurrency: int, slowCount: int,
                                 access: Percentiles.Spread, burst: int)

  function Start(ts: int, size: int): int
    requires size > 0
  {
    ts - ts % size
  }

  /** Where the bucket of a trace starts; a trace without a time has none. */
  function At(size: int): TraceRow -> Option<int>
    requires size > 0
  {
    (row: TraceRow) => if row.firstTs.None? then None else Some(Start(row.firstTs.value, size))
  }

  function Id(row: TraceRow): string { row.id }
  function ErrorCount(row: TraceRow): int { |row.errors| }
  function Concurrency(row: TraceRow): int { row.errors[Accumulator.MAX_CONCURRENCY] }
  predicate IsSlow(row: TraceRow) { row.classification != "unknown" && row.classification != "access_latency_only" }
  function Slow(row: TraceRow): int { if IsSlow(row) then 1 else 0 }
  function One(row: TraceRow): int { 1 }
  function Access(row: TraceRow): seq<real> { if row.access.None? then [] else [row.access.value] }

  /** The traces of one bucket, in order. */
  function Within(rows: seq<TraceRow>, size: int, start: int): seq<TraceRow>
    requires size > 0
  {
    Where(rows, At(size), Some(start))
  }

  function BucketOf(rows: seq<TraceRow>): Bucket {
    Bucket(set i | 0 <= i < |rows| :: rows[i].id, SumBy(rows, ErrorCount), SumBy(rows, Concurrency), SumBy(rows, Slow),
           Flat(rows, Access))
  }

  const EMPTY := Bucket({}, 0, 0, 0, [])

  function Add(b: Bucket, row: TraceRow): Bucket {
    Bucket(b.traceIds + {row.id}, b.errorCount + ErrorCount(row), b.maxConcurrency + Concurrency(row),
           b.slowCount + Slow(row), b.access + Access(row))
  }

  lemma BucketOfSnoc(rows: seq<TraceRow>, row: TraceRow)
    ensures BucketOf(rows + [row]) == Add(BucketOf(rows), row)
  {
    var all := rows + [row];
    SumBySnoc(rows, row, ErrorCount);
    SumBySnoc(rows, row, Concurrency);
    SumBySnoc(rows, row, Slow);
    FlatSnoc(rows, row, Access);
    hide SumBy, Flat;
    var ids, ids' := (set i | 0 <= i < |rows| :: rows[i].id), (set i | 0 <= i < |all| :: all[i].id);
    forall x | x in ids ensures x in ids' {
      var i :| 0 <= i < |rows| && rows[i].id == x;
      assert all[i].id == x;
    }
    assert all[|rows|].id == row.id;
    assert ids' == ids + {row.id};
  }

  // ---------------------------------------------------------------- filling the buckets

  function Get(buckets: map<int, Bucket>, start: int): Bucket {
    if start in buckets then buckets[start] else EMPTY
  }

  ghost predicate BucketAt(buckets: map<int, Bucket>, rows: seq<TraceRow>, size: int, start: int)
    requires size > 0
  {
    && (start in buckets <==> Within(rows, size, start) != [])
    && Get(buckets, start) == BucketOf(Within(rows, size, start))
  }

  ghost predicate BucketsOf(buckets: map<int, Bucket>, keys: seq<int>, rows: seq<TraceRow>, size: int)
    requires size > 0
  {
    && Distinct(keys) && (forall k :: k in keys <==> k in buckets)
    && forall start :: BucketAt(buckets, rows, size, start)
  }

  lemma KeysStep(buckets: map<int, Bucket>, keys: seq<int>, start: int, b: Bucket)
    requires Distinct(keys) && forall k :: k in keys <==> k in buckets
    ensures var keys' := if start in buckets then keys else keys + [start];
            Distinct(keys') && forall k :: k in keys' <==> k in buckets[start := b]
  {
  }

  lemma AddStep(buckets: map<int, Bucket>, rows: seq<TraceRow>, i: nat, size: int, at: int)
    requires i < |rows| && size > 0 && BucketAt(buckets, rows[..i], size, at) && rows[i].firstTs.Some?
    ensures var start := Start(rows[i].firstTs.value, size);
            BucketAt(buckets[start := Add(Get(buckets, start), rows[i])], rows[..i + 1], size, at)
  {
    WhereStep(rows, i, At(size), Some(at));
    BucketOfSnoc(Within(rows[..i], size, at), rows[i]);
    hide Where, BucketOf, Add, Start;
  }

  lemma FillStep(buckets: map<int, Bucket>, keys: seq<int>, rows: seq<TraceRow>, i: nat, size: int)
    requires i < |rows| && size > 0 && BucketsOf(buckets, keys, rows[..i], size)
    ensures rows[i].firstTs.None? ==> BucketsOf(buckets, keys, rows[..i + 1], size)
    ensures rows[i].firstTs.Some? ==>
              var start := Start(rows[i].firstTs.value, size);
              BucketsOf(buckets[start := Add(Get(buckets, start), rows[i])],
                        if start in buckets then keys else keys + [start], rows[..i + 1], size)
  {
    var row, after := rows[i], rows[..i + 1];
    if row.firstTs.None? {
      forall start ensures BucketAt(buckets, after, size, start) {
        assert BucketAt(buckets, rows[..i], size, start);
        WhereStep(rows, i, At(size), Some(start));
      }
    } else {
      var start := Start(row.firstTs.value, size);
      var buckets' := buckets[start := Add(Get(buckets, start), row)];
      hide BucketAt, Start, Add, Get;
      KeysStep(buckets, keys, start, Add(Get(buckets, start), row));
      hide Distinct;
      forall at ensures BucketAt(buckets', after, size, at) {
        AddStep(buckets, rows, i, size, at);
      }
    }
  }

  method FillBuckets(rows: seq<TraceRow>, size: int) returns (buckets: map<int, Bucket>, keys: seq<int>)
    requires size > 0
    ensures BucketsOf(buckets, keys, rows, size)
  {
    buckets, keys := map[], [];
    assert BucketsOf(buckets, keys, rows[..0], size);
    hide BucketsOf, Start, Get, IsSlow;
    for i := 0 to |rows|
      invariant BucketsOf(buckets, keys, rows[..i], size)
    {
      var row := rows[i];
      FillStep(buckets, keys, rows, i, size);
      if row.firstTs.Some? {
        var start := Start(row.firstTs.value, size);
        if start !in buckets {
          keys := keys + [start];
        }
        var bucket := Get(buckets, start);
        bucket := bucket.(traceIds := bucket.traceIds + {row.id});
        bucket := bucket.(errorCount := bucket.errorCount + |row.errors|);
        bucket := bucket.(maxConcurrency := bucket.maxConcurrency + row.errors[Accumulator.MAX_CONCURRENCY]);
        if IsSlow(row) {
          bucket := bucket.(slowCount := bucket.slowCount + 1);
        }
        bucket := bucket.(access := bucket.access + Access(row));
        buckets := buckets[start := bucket];
      }
    }
    assert rows[..|rows|] == rows;
  }

  // ---------------------------------------------------------------- reporting them

  function RowOf(start: int, b: Bucket): BucketRow {
    BucketRow(start, |b.traceIds|, b.errorCount, b.maxConcurrency, b.slowCount, Percentiles.Spreads(b.access),
              Max(Max(b.slowCount, b.errorCount), 1))
  }

  /** A row reports its bucket, which is not empty. */
  ghost predicate RowFor(b: BucketRow, rows: seq<TraceRow>, size: int)
    requires size > 0
  {
    Within(rows, size, b.start) != [] && b == RowOf(b.start, BucketOf(Within(rows, size, b.start)))
  }

  /** The reported bucket rows: the non-empty buckets in ascending order of time. */
  ghost predicate Reported(out: seq<BucketRow>, rows: seq<TraceRow>, size: int)
    requires size > 0
  {
    && (forall i, j :: 0 <= i < j < |out| ==> out[i].start < out[j].start)
    && (forall i :: 0 <= i < |out| ==> RowFor(out[i], rows, size))
    && (forall i :: 0 <= i < |rows| && rows[i].firstTs.Some? ==>
          exists k :: 0 <= k < |out| && out[k].start == Start(rows[i].firstTs.value, size))
  }

  lemma SortedKeys(keys: seq<int>)
    requires Distinct(keys)
    ensures var s := Sort(keys, IntLe);
      && (forall x :: x in s <==> x in keys)
      && (forall i, j :: 0 <= i < j < |s| ==> s[i] < s[j])
  {
    var s := Sort(keys, IntLe);
    SortSorted(keys, IntLe);
    SortMembers(keys, IntLe);
    DistinctPermutes(keys, s);
    forall i, j | 0 <= i < j < |s| ensures s[i] < s[j] {
      assert IntLe(s[i], s[j]);
    }
  }

  lemma ReportedFrom(buckets: map<int, Bucket>, keys: seq<int>, starts: seq<int>, out: seq<BucketRow>,
                     rows: seq<TraceRow>, size: int)
    requires size > 0 && BucketsOf(buckets, keys, rows, size)
    requires (forall x :: x in starts <==> x in keys) && forall i, j :: 0 <= i < j < |starts| ==> starts[i] < starts[j]
    requires |out| == |starts|
    requires forall i :: 0 <= i < |out| ==> starts[i] in buckets && out[i] == RowOf(starts[i], buckets[starts[i]])
    ensures Reported(out, rows, size)
  {
    hide BucketOf, Where;
    forall i | 0 <= i < |rows| && rows[i].firstTs.Some?
      ensures exists k :: 0 <= k < |out| && out[k].start == Start(rows[i].firstTs.value, size)
    {
      var start := Start(rows[i].firstTs.value, size);
      WhereMembers(rows, At(size), Some(start));
      assert rows[i] in rows;
      assert rows[i] in Within(rows, size, start);
      assert BucketAt(buckets, rows, size, start);
      assert start in starts;
      var k :| 0 <= k < |starts| && starts[k] == start;
      assert out[k].start == start;
    }
    forall i | 0 <= i < |out| ensures RowFor(out[i], rows, size) {
      assert BucketAt(buckets, rows, size, starts[i]);
    }
  }

  lemma KeysOfBuckets(buckets: map<int, Bucket>, keys: seq<int>, rows: seq<TraceRow>, size: int)
    requires size > 0 && BucketsOf(buckets, keys, rows, size)
    ensures Distinct(keys) && forall k :: k in keys <==> k in buckets
  {
  }

  method BuildTimeBuckets(rows: seq<TraceRow>, size: int) returns (out: seq<BucketRow>)
    requires size > 0
    ensures Reported(out, rows, size)
  {
    hide BucketsOf, Reported, RowOf, Sort;
    var buckets, keys := FillBuckets(rows, size);
    var starts := Sort(keys, IntLe);
    KeysOfBuckets(buckets, keys, rows, size);
    SortedKeys(keys);
    out := [];
    for k := 0 to |starts|
      invariant |out| == k
      invariant forall i :: 0 <= i < k ==> starts[i] in buckets && out[i] == RowOf(starts[i], buckets[starts[i]])
    {
      assert starts[k] in starts;
      out := out + [RowOf(starts[k], buckets[starts[k]])];
    }
    ReportedFrom(buckets, keys, starts, out, rows, size);
  }

  /** The time of the trace falls into the bucket that starts at `start`. */
  predicate FallsInto(row: TraceRow, start: int, size: int) {
    row.firstTs.Some? && start <= row.firstTs.value < start + size
  }

  /** Rounding down finds the multiple of the size around the time. */
  lemma StartIs(ts: int, size: int, start: int)
    requires size > 0
    ensures Start(ts, size) == start <==> start % size == 0 && start <= ts < start + size
  {
    var q, r := ts / size, ts % size;
    assert ts == q * size + r;
    DivUnique(q * size, size, q, 0);
    if start % size == 0 && start <= ts < start + size {
      assert start == start / size * size;
      DivUnique(ts, size, start / size, ts - start);
    }
  }

  /** Every timed trace is in exactly one bucket of a size: the one that starts at its time rounded down. */
  lemma OneBucketEach(rows: seq<TraceRow>, i: nat, size: int, start: int)
    requires size > 0 && i < |rows|
    ensures rows[i] in Within(rows, size, start) <==> start % size == 0 && FallsInto(rows[i], start, size)
  {
    WhereMembers(rows, At(size), Some(start));
    if rows[i].firstTs.Some? {
      StartIs(rows[i].firstTs.value, size, start);
    }
    hide Where, Start;
    assert rows[i] in rows;
  }

  /** A sum over the traces of a bucket is one over the traces whose time falls into it. */
  lemma SumInBucket(rows: seq<TraceRow>, size: int, start: int, f: TraceRow -> int, g: TraceRow -> int)
    requires size > 0 && start % size == 0
    requires forall row :: g(row) == if FallsInto(row, start, size) then f(row) else 0
    ensures SumBy(Within(rows, size, start), f) == SumBy(rows, g)
  {
    WhereSum(rows, At(size), f, Some(start));
    forall i | 0 <= i < |rows| ensures g(rows[i]) == if At(size)(rows[i]) == Some(start) then f(rows[i]) else 0 {
      if rows[i].firstTs.Some? {
        StartIs(rows[i].firstTs.value, size, start);
      }
    }
    hide Start, SumBy, Where;
    PartIs(rows, At(size), f, Some(start), g);
  }

  lemma BucketAligned(rows: seq<TraceRow>, size: int, start: int)
    requires size > 0 && Within(rows, size, start) != []
    ensures start % size == 0
  {
    WhereMembers(rows, At(size), Some(start));
    var row := Within(rows, size, start)[0];
    assert row in Within(rows, size, start);
    StartIs(row.firstTs.value, size, start);
  }

  /** A reported row, over all traces: where it starts, and what the traces that fall into it add up to. */
  lemma RowMeans(b: BucketRow, rows: seq<TraceRow>, size: int)
    requires size > 0 && RowFor(b, rows, size)
    ensures b.start % size == 0
    ensures b.errorCount == SumBy(rows, (row: TraceRow) => if FallsInto(row, b.start, size) then |row.errors| else 0)
    ensures b.maxConcurrency == SumBy(rows, (row: TraceRow) =>
              if FallsInto(row, b.start, size) then row.errors["RPC max concurrency reached"] else 0)
    ensures b.slowCount == SumBy(rows, (row: TraceRow) =>
              if FallsInto(row, b.start, size) && row.classification != "unknown"
                 && row.classification != "access_latency_only" then 1 else 0)
    ensures b.burst >= 1 && b.burst >= b.slowCount && b.burst >= b.errorCount
    ensures b.burst == 1 || b.burst == b.slowCount || b.burst == b.errorCount
  {
    hide FallsInto, SumBy, Where, Flat, Percentiles.Spreads;
    BucketAligned(rows, size, b.start);
    SumInBucket(rows, size, b.start, ErrorCount,
                (row: TraceRow) => if FallsInto(row, b.start, size) then |row.errors| else 0);
    SumInBucket(rows, size, b.start, Concurrency, (row: TraceRow) =>
                  if FallsInto(row, b.start, size) then row.errors["RPC max concurrency reached"] else 0);
    SumInBucket(rows, size, b.start, Slow, (row: TraceRow) =>
                  if FallsInto(row, b.start, size) && row.classification != "unknown"
                     && row.classification != "access_latency_only" then 1 else 0);
  }

  /** The access latencies a row summarises: those of the traces that fall into it. */
  lemma AccessMeans(rows: seq<TraceRow>, size: int, start: int, v: real)
    requires size > 0 && start % size == 0
    ensures multiset(BucketOf(Within(rows, size, start)).access)[v] ==
            SumBy(rows, (row: TraceRow) => if FallsInto(row, start, size) && row.access == Some(v) then 1 else 0)
  {
    hide FallsInto, SumBy, Where, Flat;
    var f := (row: TraceRow) => if row.access == Some(v) then 1 else 0;
    FlatCount(Within(rows, size, start), Access, v, f);
    SumInBucket(rows, size, start, f,
                (row: TraceRow) => if FallsInto(row, start, size) && row.access == Some(v) then 1 else 0);
  }

  // ---------------------------------------------------------------- coarsening

  /** What the traces of a bucket contribute to a sum. */
  function Weight(rows: seq<TraceRow>, size: int, start: int, f: TraceRow -> int): int
    requires size > 0
  {
    SumBy(Within(rows, size, start), f)
  }

  function CoarseStart(b: BucketRow): int { Start(b.start, 10_000) }
  function StartOf(b: BucketRow): int { b.start }

  /** The reported one-second rows inside the ten-second bucket at `start`. */
  function Inside(fine: seq<BucketRow>, start: int): seq<BucketRow> { Where(fine, CoarseStart, start) }

  lemma StartTwice(ts: int)
    ensures Start(Start(ts, 1000), 10_000) == Start(ts, 10_000)
  {
    var q, r := ts / 10_000, ts % 10_000;
    var a, b := r / 1000, r % 1000;
    DivUnique(ts, 1000, 10 * q + a, b);
    DivUnique(10_000 * q + 1000 * a, 10_000, q, 1000 * a);
  }

  /** The traces of a fine bucket are chosen from those of the coarse bucket around it. */
  lemma FineWithinCoarse(rows: seq<TraceRow>, start: int, fine: int, f: TraceRow -> int)
    requires Start(fine, 10_000) == start
    ensures Part(Within(rows, 10_000, start), At(1000), f, Some(fine)) == Weight(rows, 1000, fine, f)
  {
    forall row: TraceRow
      ensures At(1000)(row) == Some(fine) <==> At(10_000)(row) == Some(start) && At(1000)(row) == Some(fine)
    {
      if row.firstTs.Some? {
        StartTwice(row.firstTs.value);
      }
    }
    hide Start, Part, SumBy;
    WhereWhere(rows, At(10_000), Some(start), At(1000), Some(fine), At(1000), Some(fine));
    WhereSum(Within(rows, 10_000, start), At(1000), f, Some(fine));
  }

  function FineKeys(inside: seq<BucketRow>): (keys: seq<Option<int>>)
    ensures |keys| == |inside| && forall i :: 0 <= i < |keys| ==> keys[i] == Some(inside[i].start)
  {
    seq(|inside|, i requires 0 <= i < |inside| => Some(inside[i].start))
  }

  /** Every trace of the coarse bucket is in one of the fine buckets reported inside it. */
  lemma CoveredByFine(fine: seq<BucketRow>, rows: seq<TraceRow>, start: int)
    requires Reported(fine, rows, 1000)
    ensures Distinct(FineKeys(Inside(fine, start)))
    ensures var w := Within(rows, 10_000, start);
            forall i :: 0 <= i < |w| ==> At(1000)(w[i]) in FineKeys(Inside(fine, start))
  {
    var w, inside := Within(rows, 10_000, start), Inside(fine, start);
    WhereMembers(rows, At(10_000), Some(start));
    WhereMembers(fine, CoarseStart, start);
    WhereDistinct(fine, CoarseStart, start, StartOf);
    hide Where, RowFor, Start;
    var keys := FineKeys(inside);
    forall i, j | 0 <= i < j < |keys| ensures keys[i] != keys[j] {
      assert StartOf(inside[i]) != StartOf(inside[j]);
    }
    forall i | 0 <= i < |w| ensures At(1000)(w[i]) in keys {
      assert w[i] in w;
      var m :| 0 <= m < |rows| && rows[m] == w[i];
      var k :| 0 <= k < |fine| && fine[k].start == Start(rows[m].firstTs.value, 1000);
      StartTwice(rows[m].firstTs.value);
      assert fine[k] in fine;
      assert fine[k] in inside;
      var n :| 0 <= n < |inside| && inside[n] == fine[k];
      assert keys[n] == At(1000)(w[i]);
    }
  }

  /** The coarse buckets are the exact coarsening of the fine ones reported, for every sum over traces. */
  lemma Coarsening(fine: seq<BucketRow>, rows: seq<TraceRow>, start: int, f: TraceRow -> int)
    requires Reported(fine, rows, 1000)
    ensures Weight(rows, 10_000, start, f) ==
            SumBy(Inside(fine, start), (b: BucketRow) => Weight(rows, 1000, b.start, f))
  {
    var w, inside := Within(rows, 10_000, start), Inside(fine, start);
    var keys := FineKeys(inside);
    CoveredByFine(fine, rows, start);
    WhereMembers(fine, CoarseStart, start);
    assert Weight(rows, 10_000, start, f) == SumBy(w, f);
    hide Reported, Where, Within, Weight, Part, SumBy, Start;
    PartsAddUp(w, At(1000), f, keys);
    forall i | 0 <= i < |inside|
      ensures Part(w, At(1000), f, keys[i]) == Weight(rows, 1000, inside[i].start, f)
    {
      assert inside[i] in inside;
      FineWithinCoarse(rows, start, inside[i].start, f);
    }
    SumByMatch(keys, k => Part(w, At(1000), f, k), inside, (b: BucketRow) => Weight(rows, 1000, b.start, f));
  }

  lemma {:induction false} IdsCounted(rows: seq<TraceRow>)
    requires DistinctBy(rows, Id)
    ensures |BucketOf(rows).traceIds| == |rows|
  {
    if rows != [] {
      var init, row := rows[..|rows| - 1], rows[|rows| - 1];
      IdsCounted(init);
      LastOut(rows);
      BucketOfSnoc(init, row);
      assert row.id !in BucketOf(init).traceIds by {
        assert forall i :: 0 <= i < |init| ==> Id(init[i]) != Id(row);
      }
    }
  }

  /** A reported row, in terms of its traces. */
  lemma RowWeights(b: BucketRow, rows: seq<TraceRow>, size: int)
    requires size > 0 && DistinctBy(rows, Id) && RowFor(b, rows, size)
    ensures b.traceCount == Weight(rows, size, b.start, One)
    ensures b.errorCount == Weight(rows, size, b.start, ErrorCount)
    ensures b.maxConcurrency == Weight(rows, size, b.start, Concurrency)
    ensures b.slowCount == Weight(rows, size, b.start, Slow)
  {
    var w := Within(rows, size, b.start);
    WhereDistinct(rows, At(size), Some(b.start), Id);
    IdsCounted(w);
    SumByOnes(w, One);
    hide Where, SumBy;
  }

  function Traces(b: BucketRow): int { b.traceCount }
  function ErrorsIn(b: BucketRow): int { b.errorCount }
  function ConcurrencyIn(b: BucketRow): int { b.maxConcurrency }
  function SlowIn(b: BucketRow): int { b.slowCount }

  /** What a field of the rows counts adds up from the fine rows to the coarse one. */
  lemma FieldAddsUp(fine: seq<BucketRow>, rows: seq<TraceRow>, start: int, f: TraceRow -> int, field: BucketRow -> int)
    requires Reported(fine, rows, 1000)
    requires forall i :: 0 <= i < |fine| ==> field(fine[i]) == Weight(rows, 1000, fine[i].start, f)
    ensures Weight(rows, 10_000, start, f) == SumBy(Inside(fine, start), field)
  {
    Coarsening(fine, rows, start, f);
    WhereMembers(fine, CoarseStart, start);
    hide Reported, Where, Weight, SumBy, Start;
    var inside := Inside(fine, start);
    forall i | 0 <= i < |inside| ensures field(inside[i]) == Weight(rows, 1000, inside[i].start, f) {
      assert inside[i] in inside;
      var k :| 0 <= k < |fine| && fine[k] == inside[i];
    }
    SumBySame(inside, field, (b: BucketRow) => Weight(rows, 1000, b.start, f));
  }

  lemma FineFields(fine: seq<BucketRow>, rows: seq<TraceRow>)
    requires DistinctBy(rows, Id) && Reported(fine, rows, 1000)
    ensures forall i :: 0 <= i < |fine| ==>
      && Traces(fine[i]) == Weight(rows, 1000, fine[i].start, One)
      && ErrorsIn(fine[i]) == Weight(rows, 1000, fine[i].start, ErrorCount)
      && ConcurrencyIn(fine[i]) == Weight(rows, 1000, fine[i].start, Concurrency)
      && SlowIn(fine[i]) == Weight(rows, 1000, fine[i].start, Slow)
  {
    hide Weight, RowFor, Start;
    forall i | 0 <= i < |fine|
      ensures Traces(fine[i]) == Weight(rows, 1000, fine[i].start, One)
      ensures ErrorsIn(fine[i]) == Weight(rows, 1000, fine[i].start, ErrorCount)
      ensures ConcurrencyIn(fine[i]) == Weight(rows, 1000, fine[i].start, Concurrency)
      ensures SlowIn(fine[i]) == Weight(rows, 1000, fine[i].start, Slow)
    {
      RowWeights(fine[i], rows, 1000);
    }
  }

  /** Every reported ten-second row is the sum of the reported one-second rows inside it, count by count. */
  lemma CoarseBucketIsSum(coarse: seq<BucketRow>, fine: seq<BucketRow>, rows: seq<TraceRow>, k: nat)
    requires DistinctBy(rows, Id) && Reported(coarse, rows, 10_000) && Reported(fine, rows, 1000) && k < |coarse|
    ensures var inside := Inside(fine, coarse[k].start);
      && coarse[k].traceCount == SumBy(inside, Traces)
      && coarse[k].errorCount == SumBy(inside, ErrorsIn)
      && coarse[k].maxConcurrency == SumBy(inside, ConcurrencyIn)
      && coarse[k].slowCount == SumBy(inside, SlowIn)
  {
    var start := coarse[k].start;
    RowWeights(coarse[k], rows, 10_000);
    FineFields(fine, rows);
    hide Reported, Where, Weight, SumBy, Start, RowFor;
    FieldAddsUp(fine, rows, start, One, Traces);
    FieldAddsUp(fine, rows, start, ErrorCount, ErrorsIn);
    FieldAddsUp(fine, rows, start, Concurrency, ConcurrencyIn);
    FieldAddsUp(fine, rows, start, Slow, SlowIn);
  }
}
