/** Segmentation of URMA work requests into logical writes (`_group_urma_logical_writes`).

    Times are integers: microseconds for the trace clock, nanoseconds for costs. */
module UrmaWrites {
  import opened Basics
  import opened Tally

  /** A work request; index and count are 0 when the log carries none. */
  datatype Chunk = Chunk(index: int, count: int, post: Option<int>, observed: Option<int>,
                         total: int, id: string, size: int)

  type Group = seq<Chunk>

  /** `b` is the next chunk of the write that `a` belongs to. */
  predicate Continues(a: Chunk, b: Chunk) {
    b.index > 1 && b.count != 0 && a.count == b.count && b.index == a.index + 1
  }

  function Last<T>(s: seq<T>): T
    requires s != []
  {
    s[|s| - 1]
  }

  function Init<T>(s: seq<T>): seq<T>
    requires s != []
  {
    s[..|s| - 1]
  }

  function Concat(groups: seq<Group>): seq<Chunk> {
    if groups == [] then [] else Concat(Init(groups)) + Last(groups)
  }

  // ---------------------------------------------------------------- declarative specification

  ghost predicate Chained(g: Group) {
    g != [] && forall i :: 0 < i < |g| ==> Continues(g[i - 1], g[i])
  }

  /** Adjacent groups cannot be merged. */
  ghost predicate Apart(a: Group, b: Group) {
    a != [] && b != [] ==> !Continues(Last(a), b[0])
  }

  ghost predicate AllChained(groups: seq<Group>) {
    forall i :: 0 <= i < |groups| ==> Chained(groups[i])
  }

  ghost predicate AllApart(groups: seq<Group>) {
    forall i :: 0 < i < |groups| ==> Apart(groups[i - 1], groups[i])
  }

  /** The groups cut the requests into maximal runs of consecutive chunks. */
  ghost predicate Segmentation(groups: seq<Group>, requests: seq<Chunk>) {
    Concat(groups) == requests && AllChained(groups) && AllApart(groups)
  }

  /** All chunks 1..n of a write of n chunks, in order. */
  ghost predicate CompleteChunks(g: Group) {
    |g| >= 1 && forall i :: 0 <= i < |g| ==> g[i].index == i + 1 && g[i].count == |g|
  }

  // ---------------------------------------------------------------- what the loop computes

  function Place(groups: seq<Group>, c: Chunk): seq<Group> {
    if groups != [] && Last(groups) != [] && Continues(Last(Last(groups)), c)
    then Init(groups) + [Last(groups) + [c]]
    else groups + [[c]]
  }

  function Groups(requests: seq<Chunk>): seq<Group> {
    if requests == [] then [] else Place(Groups(Init(requests)), Last(requests))
  }

  function WithCurrent(groups: seq<Group>, current: Group): seq<Group> {
    if current == [] then groups else groups + [current]
  }

  method GroupRequests(requests: seq<Chunk>) returns (groups: seq<Group>)
    ensures groups == Groups(requests)
  {
    groups := [];
    var current: Group := [];
    var i := 0;
    while i < |requests|
      invariant 0 <= i <= |requests|
      invariant WithCurrent(groups, current) == Groups(requests[..i])
      invariant current == [] ==> i == 0
    {
      var request := requests[i];
      ghost var done := WithCurrent(groups, current);
      assert requests[..i + 1][..i] == requests[..i];
      var startsGroup :=
        || current == []
        || request.index <= 1
        || request.count == 0
        || Last(current).count != request.count
        || request.index != Last(current).index + 1;
      if startsGroup && current != [] {
        groups := groups + [current];
        current := [];
      }
      current := current + [request];
      assert current[..|current| - 1] + [request] == current;
      assert WithCurrent(groups, current) == Place(done, request);
      i := i + 1;
    }
    assert requests[..i] == requests;
    if current != [] {
      groups := groups + [current];
    }
  }

  // ---------------------------------------------------------------- the loop meets the specification

  lemma ConcatSnoc(groups: seq<Group>, g: Group)
    ensures Concat(groups + [g]) == Concat(groups) + g
  {
    assert Init(groups + [g]) == groups;
  }

  lemma ReplaceLast(groups: seq<Group>, g: Group, h: Group)
    requires g != [] && AllChained(groups + [g]) && AllApart(groups + [g]) && Chained(h) && g[0] == h[0]
    ensures AllChained(groups + [h]) && AllApart(groups + [h])
  {
    var a, b := groups + [g], groups + [h];
    forall i | 0 <= i < |b| ensures Chained(b[i]) {
      assert i < |groups| ==> b[i] == a[i];
    }
    forall i | 0 < i < |b| ensures Apart(b[i - 1], b[i]) {
      assert Apart(a[i - 1], a[i]);
      assert b[i - 1] == a[i - 1] && b[i][0] == a[i][0];
    }
  }

  lemma ChainedSnoc(g: Group, c: Chunk)
    requires Chained(g) && Continues(Last(g), c)
    ensures Chained(g + [c]) && (g + [c])[0] == g[0]
  {
  }

  lemma StartGroup(groups: seq<Group>, c: Chunk)
    requires AllChained(groups) && AllApart(groups)
    requires groups != [] ==> !Continues(Last(Last(groups)), c)
    ensures AllChained(groups + [[c]]) && AllApart(groups + [[c]])
  {
    assert Chained([c]);
  }

  lemma PlaceSegments(groups: seq<Group>, requests: seq<Chunk>, c: Chunk)
    requires Segmentation(groups, requests)
    ensures Segmentation(Place(groups, c), requests + [c])
  {
    assert groups != [] ==> Chained(Last(groups));
    if groups != [] && Continues(Last(Last(groups)), c) {
      var init, g := Init(groups), Last(groups);
      assert groups == init + [g];
      ConcatSnoc(init, g);
      ConcatSnoc(init, g + [c]);
      assert Concat(init) + (g + [c]) == (Concat(init) + g) + [c];
      ChainedSnoc(g, c);
      hide Concat, Chained, AllChained, AllApart, Continues;
      ReplaceLast(init, g, g + [c]);
    } else {
      ConcatSnoc(groups, [c]);
      hide Concat, Chained, AllChained, AllApart, Continues;
      StartGroup(groups, c);
    }
  }

  lemma NoGroups()
    ensures Segmentation(Groups([]), [])
  {
  }

  lemma {:induction false} GroupsStep(requests: seq<Chunk>)
    requires requests != []
    ensures Groups(requests) == Place(Groups(Init(requests)), Last(requests))
    ensures Init(requests) + [Last(requests)] == requests
  {
    hide Place;
  }

  /** Groups concatenate to the input, are chained, and cannot be merged with a neighbour. */
  lemma {:induction false} GroupsSegment(requests: seq<Chunk>)
    ensures Segmentation(Groups(requests), requests)
  {
    if requests == [] {
      NoGroups();
    } else {
      GroupsStep(requests);
      hide Segmentation, Place, Groups;
      GroupsSegment(Init(requests));
      PlaceSegments(Groups(Init(requests)), Init(requests), Last(requests));
    }
  }

  lemma AreChained(requests: seq<Chunk>)
    ensures AllChained(Groups(requests)) && AllApart(Groups(requests))
  {
    GroupsSegment(requests);
  }

  /** Inside a group each request numbers the next chunk of the same write. */
  lemma InsideGroup(requests: seq<Chunk>, g: Group, i: nat)
    requires g in Groups(requests) && 0 < i < |g|
    ensures g[i].index > 1 && g[i].count != 0 && g[i].count == g[i - 1].count && g[i].index == g[i - 1].index + 1
  {
    AreChained(requests);
    hide Groups;
    assert Chained(g);
    assert Continues(g[i - 1], g[i]);
  }

  /** The first request of a group does not number the next chunk of the write before it. */
  lemma BetweenGroups(requests: seq<Chunk>, k: nat)
    requires 0 < k < |Groups(requests)|
    ensures Groups(requests)[k - 1] != [] && Groups(requests)[k] != []
    ensures var a, b := Last(Groups(requests)[k - 1]), Groups(requests)[k][0];
            b.index <= 1 || b.count == 0 || b.count != a.count || b.index != a.index + 1
  {
    AreChained(requests);
    hide Groups;
    var groups := Groups(requests);
    assert Chained(groups[k]) && Chained(groups[k - 1]) && Apart(groups[k - 1], groups[k]);
  }

  lemma {:induction false} ConcatNonEmpty(groups: seq<Group>)
    requires groups != [] && forall i :: 0 <= i < |groups| ==> groups[i] != []
    ensures Concat(groups) != [] && Last(Concat(groups)) == Last(Last(groups))
  {
    assert groups == Init(groups) + [Last(groups)];
  }

  /** Taking the last request away from a segmentation leaves one, and placing it again restores it. */
  lemma Unplace(groups: seq<Group>, requests: seq<Chunk>) returns (before: seq<Group>)
    requires Segmentation(groups, requests) && requests != []
    ensures Segmentation(before, Init(requests)) && Place(before, Last(requests)) == groups
  {
    assert groups != [];
    var g := Last(groups);
    ConcatNonEmpty(groups);
    assert groups == Init(groups) + [g];
    if |g| == 1 {
      before := Init(groups);
      assert Concat(before) + [g[0]] == requests;
      assert Concat(before) == Init(requests);
      assert g == [Last(requests)];
    } else {
      before := Init(groups) + [Init(g)];
      ConcatSnoc(Init(groups), Init(g));
      assert g == Init(g) + [Last(g)];
      assert Concat(Init(groups)) + Init(g) == Init(requests);
      assert Chained(Init(g));
      assert Init(before) == Init(groups) && Last(before) == Init(g);
      assert Continues(Last(Init(g)), Last(g));
    }
  }

  /** The segmentation is unique. */
  lemma {:induction false} SegmentationUnique(groups: seq<Group>, requests: seq<Chunk>)
    requires Segmentation(groups, requests)
    ensures groups == Groups(requests)
    decreases |requests|
  {
    if requests == [] {
      if groups != [] {
        ConcatNonEmpty(groups);
      }
    } else {
      var before := Unplace(groups, requests);
      SegmentationUnique(before, Init(requests));
    }
  }

  /** Regrouping undoes flattening: complete writes laid end to end come back as exactly those writes. */
  lemma CompleteWritesRegroup(writes: seq<Group>)
    requires forall i :: 0 <= i < |writes| ==> CompleteChunks(writes[i])
    ensures Groups(Concat(writes)) == writes
  {
    forall i | 0 <= i < |writes| ensures Chained(writes[i]) && writes[i][0].index == 1 {
      assert CompleteChunks(writes[i]);
    }
    SegmentationUnique(writes, Concat(writes));
  }

  // ---------------------------------------------------------------- summary of a group

  datatype Write = Write(wrCount: nat, expected: int, complete: bool, wallClock: Option<int>,
                         slowest: int, sum: int, ids: seq<string>, dataSize: int)

  predicate Clocked(g: Group) {
    forall i :: 0 <= i < |g| ==> g[i].post.Some? && g[i].observed.Some?
  }

  predicate InOrder(g: Group) {
    g != [] && g[0].count > 0 && |g| == g[0].count && forall i :: 0 <= i < |g| ==> g[i].index == i + 1
  }

  function Posts(g: Group): (r: seq<int>)
    requires Clocked(g)
    ensures |r| == |g| && forall i :: 0 <= i < |g| ==> r[i] == g[i].post.value
  {
    seq(|g|, i requires 0 <= i < |g| => g[i].post.value)
  }

  function Observations(g: Group): (r: seq<int>)
    requires Clocked(g)
    ensures |r| == |g| && forall i :: 0 <= i < |g| ==> r[i] == g[i].observed.value
  {
    seq(|g|, i requires 0 <= i < |g| => g[i].observed.value)
  }

  function Totals(g: Group): seq<int> { seq(|g|, i requires 0 <= i < |g| => g[i].total) }
  function Ids(g: Group): seq<string> { seq(|g|, i requires 0 <= i < |g| => g[i].id) }

  function WallClock(g: Group): Option<int> {
    if InOrder(g) && Clocked(g) then
      var delta := Largest(Observations(g)) - Least(Posts(g));
      if delta >= 0 then Some(delta * 1000) else None
    else None
  }

  function Cost(g: Group): int { SumBy(g, (c: Chunk) => c.total) }
  function Size(g: Group): int { SumBy(g, (c: Chunk) => c.size) }

  function Summary(g: Group): Write
    requires g != []
  {
    Write(|g|, g[0].count, WallClock(g).Some?, WallClock(g), Largest(Totals(g)), Cost(g), Ids(g), Size(g))
  }

  /** Some request of the group was observed complete after some request of it was posted. */
  ghost predicate SomeSpan(g: Group)
    requires Clocked(g)
  {
    exists i, j :: 0 <= i < |g| && 0 <= j < |g| && g[i].observed.value >= g[j].post.value
  }

  /** The longest time from a post to an observed completion, both of the group, is `wall` nanoseconds. */
  ghost predicate Spans(g: Group, wall: int)
    requires Clocked(g)
  {
    && (exists i, j :: 0 <= i < |g| && 0 <= j < |g| && wall == 1000 * (g[i].observed.value - g[j].post.value))
    && (forall i, j :: 0 <= i < |g| && 0 <= j < |g| ==> 1000 * (g[i].observed.value - g[j].post.value) <= wall)
  }

  /** `total` is the largest cost in the group. */
  ghost predicate SlowestOf(g: Group, total: int) {
    && (exists i :: 0 <= i < |g| && g[i].total == total)
    && (forall i :: 0 <= i < |g| ==> g[i].total <= total)
  }

  /** A write is complete when it has all its chunks, every chunk carries both clocks, and some completion is not
      before some post; only then it has a wall clock. */
  ghost predicate Clocks(w: Write, g: Group) {
    && (w.complete <==> CompleteChunks(g) && Clocked(g) && SomeSpan(g))
    && (w.complete <==> w.wallClock.Some?)
    && (w.complete ==> Clocked(g) && Spans(g, w.wallClock.value))
  }

  /** What a row says about its group. */
  ghost predicate Describes(w: Write, g: Group) {
    && Clocks(w, g)
    && g != [] && w.wrCount == |g| && w.expected == g[0].count && SlowestOf(g, w.slowest)
    && w.sum == SumBy(g, (c: Chunk) => c.total) && w.dataSize == SumBy(g, (c: Chunk) => c.size)
    && |w.ids| == |g| && (forall i :: 0 <= i < |g| ==> w.ids[i] == g[i].id)
  }

  lemma {:induction false} SameCountUpTo(g: Group, i: nat)
    requires Chained(g) && i < |g|
    ensures g[i].count == g[0].count
  {
    if i > 0 {
      SameCountUpTo(g, i - 1);
      assert Continues(g[i - 1], g[i]);
    }
  }

  lemma SameCount(g: Group)
    requires Chained(g)
    ensures forall i :: 0 <= i < |g| ==> g[i].count == g[0].count
  {
    forall i | 0 <= i < |g| ensures g[i].count == g[0].count {
      SameCountUpTo(g, i);
    }
  }

  lemma WallClockSpans(g: Group)
    requires g != [] && Clocked(g)
    ensures var delta := Largest(Observations(g)) - Least(Posts(g));
            Spans(g, delta * 1000) && (delta >= 0 <==> SomeSpan(g))
  {
    var os, ps := Observations(g), Posts(g);
    var late, early := Largest(os), Least(ps);
    var i :| 0 <= i < |os| && os[i] == late;
    var j :| 0 <= j < |ps| && ps[j] == early;
    assert (late - early) * 1000 == 1000 * (g[i].observed.value - g[j].post.value);
    forall i, j | 0 <= i < |g| && 0 <= j < |g|
      ensures g[i].observed.value - g[j].post.value <= late - early
    {
      assert os[i] <= late && early <= ps[j];
    }
  }

  lemma SlowestIs(g: Group)
    requires g != []
    ensures SlowestOf(g, Largest(Totals(g)))
  {
    var ts := Totals(g);
    var i :| 0 <= i < |ts| && ts[i] == Largest(ts);
    assert g[i].total == Largest(ts);
    forall i | 0 <= i < |g| ensures g[i].total <= Largest(ts) {
      assert ts[i] <= Largest(ts);
    }
  }

  lemma InOrderIsComplete(g: Group)
    requires Chained(g)
    ensures g != [] && (InOrder(g) <==> CompleteChunks(g))
  {
    SameCount(g);
  }

  lemma WallClockIs(g: Group)
    requires Chained(g)
    ensures WallClock(g).Some? <==> CompleteChunks(g) && Clocked(g) && SomeSpan(g)
    ensures WallClock(g).Some? ==> Spans(g, WallClock(g).value)
  {
    hide Spans, SomeSpan, CompleteChunks, InOrder, Chained, Posts, Observations, Largest, Least;
    InOrderIsComplete(g);
    if InOrder(g) && Clocked(g) {
      WallClockSpans(g);
    }
  }

  lemma SummaryClocks(g: Group)
    requires Chained(g)
    ensures Clocks(Summary(g), g)
  {
    hide Spans, SomeSpan, CompleteChunks, InOrder, Chained, WallClock, Largest, Totals, Ids, SumBy;
    WallClockIs(g);
  }

  lemma SummaryDescribes(g: Group)
    requires Chained(g)
    ensures Describes(Summary(g), g)
  {
    hide Clocks, SlowestOf, WallClock, SumBy;
    SummaryClocks(g);
    SlowestIs(g);
  }

  /** One row for each group, in order. */
  ghost predicate WritesOf(writes: seq<Write>, requests: seq<Chunk>) {
    |writes| == |Groups(requests)| && forall i :: 0 <= i < |writes| ==> Describes(writes[i], Groups(requests)[i])
  }

  /** The rows of `_group_urma_logical_writes`; the write index is the position. */
  method LogicalWrites(requests: seq<Chunk>) returns (writes: seq<Write>)
    ensures WritesOf(writes, requests)
    ensures forall i :: 0 <= i < |writes| ==> writes[i].wallClock == WallClock(Groups(requests)[i])
  {
    hide Describes, WallClock, Groups;
    var groups := GroupRequests(requests);
    AreChained(requests);
    writes := [];
    for k := 0 to |groups|
      invariant |writes| == k
      invariant forall i :: 0 <= i < k ==> Describes(writes[i], groups[i])
      invariant forall i :: 0 <= i < k ==> writes[i].wallClock == WallClock(groups[i])
    {
      assert Chained(groups[k]);
      SummaryDescribes(groups[k]);
      writes := writes + [Summary(groups[k])];
    }
  }

  /** A complete write is one whole write of its count, and its wall clock covers every member's own span. */
  lemma CompleteWriteCoversMembers(requests: seq<Chunk>, writes: seq<Write>, k: nat)
    requires WritesOf(writes, requests) && k < |writes| && writes[k].complete
    ensures var g := Groups(requests)[k];
      && CompleteChunks(g) && Clocked(g) && writes[k].wallClock.Some?
      && (forall i :: 0 <= i < |g| ==> 1000 * (g[i].observed.value - g[i].post.value) <= writes[k].wallClock.value)
  {
    assert Describes(writes[k], Groups(requests)[k]);
  }

  // ---------------------------------------------------------------- conservation

  /** What is summed over the chunks of each group is the sum over all chunks. */
  lemma {:induction false} GroupsConserve(groups: seq<Group>, f: Chunk -> int)
    ensures SumBy(groups, (g: Group) => SumBy(g, f)) == SumBy(Concat(groups), f)
  {
    if groups != [] {
      GroupsConserve(Init(groups), f);
      SumByAppend(Concat(Init(groups)), Last(groups), f);
    }
  }

  lemma ColumnConserves(requests: seq<Chunk>, writes: seq<Write>, f: Chunk -> int, column: Write -> int)
    requires |writes| == |Groups(requests)|
    requires forall i :: 0 <= i < |writes| ==> column(writes[i]) == SumBy(Groups(requests)[i], f)
    ensures SumBy(writes, column) == SumBy(requests, f)
  {
    var groups := Groups(requests);
    GroupsSegment(requests);
    GroupsConserve(groups, f);
    SumByMatch(writes, column, groups, (g: Group) => SumBy(g, f));
  }

  /** Nothing is lost or counted twice: request counts, costs and sizes add up over the reported writes. */
  lemma WritesConserve(requests: seq<Chunk>, writes: seq<Write>)
    requires WritesOf(writes, requests)
    ensures SumBy(writes, (w: Write) => w.wrCount) == |requests|
    ensures SumBy(writes, (w: Write) => w.sum) == SumBy(requests, (c: Chunk) => c.total)
    ensures SumBy(writes, (w: Write) => w.dataSize) == SumBy(requests, (c: Chunk) => c.size)
  {
    forall i | 0 <= i < |writes|
      ensures writes[i].wrCount == SumBy(Groups(requests)[i], (c: Chunk) => 1)
      ensures writes[i].sum == SumBy(Groups(requests)[i], (c: Chunk) => c.total)
      ensures writes[i].dataSize == SumBy(Groups(requests)[i], (c: Chunk) => c.size)
    {
      assert Describes(writes[i], Groups(requests)[i]);
      SumByOnes(Groups(requests)[i], (c: Chunk) => 1);
    }
    hide Groups, Describes, SumBy;
    ColumnConserves(requests, writes, (c: Chunk) => 1, (w: Write) => w.wrCount);
    ColumnConserves(requests, writes, (c: Chunk) => c.total, (w: Write) => w.sum);
    ColumnConserves(requests, writes, (c: Chunk) => c.size, (w: Write) => w.dataSize);
    SumByOnes(requests, (c: Chunk) => 1);
  }
}
