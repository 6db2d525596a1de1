/** What the facts and the class of a trace say about its log lines, one by one. */
module TraceFacts {
  import opened Accumulator
  import opened Basics
  import opened Tally
  import opened Text

  // ---------------------------------------------------------------- counters

  /** The counters of a trace, element by element: how many lines name `x`. */
  lemma CountersMean(ls: seq<Line>, x: string)
    ensures TraceOf(ls).workers[x] == SumBy(ls, (l: Line) => if l.worker == x then 1 else 0)
    ensures TraceOf(ls).origins[x] == SumBy(ls, (l: Line) => if l.origin == x then 1 else 0)
    ensures TraceOf(ls).flows[x] ==
            SumBy(ls, (l: Line) => if l.access.Some? && l.access.value.operation == x then 1 else 0)
    ensures TraceOf(ls).rpcSlow[x] == SumBy(ls, (l: Line) => if l.rpcSlow == Some(x) then 1 else 0)
  {
    hide SumBy, BagOf, Flat, SummaryOf, Kept, SourcesOf;
    BagCount(ls, WorkerBag, x, (l: Line) => if l.worker == x then 1 else 0);
    BagCount(ls, OriginBag, x, (l: Line) => if l.origin == x then 1 else 0);
    BagCount(ls, FlowBag, x, (l: Line) => if l.access.Some? && l.access.value.operation == x then 1 else 0);
    BagCount(ls, RpcBag, x, (l: Line) => if l.rpcSlow == Some(x) then 1 else 0);
  }

  /** Every matched pattern counts, and so does the status of an access that failed. */
  lemma ErrorsMean(ls: seq<Line>, x: string)
    ensures TraceOf(ls).errors[x] ==
            SumBy(ls, (l: Line) => multiset(l.errors)[x])
            + SumBy(ls, (l: Line) => if l.access.Some? && l.access.value.status != "0"
                                        && "status=" + l.access.value.status == x then 1 else 0)
  {
    BagOfPlus(ls, StatusBag, PatternBag, ErrorBag);
    BagCount(ls, PatternBag, x, (l: Line) => multiset(l.errors)[x]);
    BagCount(ls, StatusBag, x, (l: Line) => if l.access.Some? && l.access.value.status != "0"
                                               && "status=" + l.access.value.status == x then 1 else 0);
  }

  /** The latencies, the client's latencies and the URMA totals of a trace, value by value. */
  lemma TimesMean(ls: seq<Line>, v: int)
    ensures multiset(TraceOf(ls).latencies)[v] ==
            SumBy(ls, (l: Line) => if l.access.Some? && l.access.value.latency == v then 1 else 0)
    ensures multiset(TraceOf(ls).clientLatencies)[v] ==
            SumBy(ls, (l: Line) => if l.access.Some? && Contains(l.access.value.operation, "CLIENT")
                                      && l.access.value.latency == v then 1 else 0)
    ensures multiset(TraceOf(ls).urmaTotals)[v] == SumBy(ls, (l: Line) => multiset(l.urmaTotals)[v])
  {
    hide Contains;
    FlatCount(ls, Latency, v, (l: Line) => if l.access.Some? && l.access.value.latency == v then 1 else 0);
    FlatCount(ls, ClientLatency, v,
              (l: Line) => if l.access.Some? && Contains(l.access.value.operation, "CLIENT")
                              && l.access.value.latency == v then 1 else 0);
    FlatCount(ls, Urma, v, (l: Line) => multiset(l.urmaTotals)[v]);
  }

  /** The first two hundred lines are kept as evidence, in order. */
  lemma {:induction false} EvidenceOfLine(ls: seq<Line>, i: nat)
    requires i < |ls|
    ensures |Flat(ls, Evidence)| == |ls| && Flat(ls, Evidence)[i] == ls[i].evidence
  {
    var n := |ls| - 1;
    EvidenceLength(ls[..n]);
    if i < n {
      EvidenceOfLine(ls[..n], i);
    }
  }

  lemma EvidenceMeans(ls: seq<Line>, i: nat)
    ensures |TraceOf(ls).evidence| == Min(|ls|, 200)
    ensures i < |TraceOf(ls).evidence| ==> TraceOf(ls).evidence[i] == ls[i].evidence
  {
    EvidenceLength(ls[..Min(|ls|, 200)]);
    if i < Min(|ls|, 200) {
      EvidenceOfLine(ls[..Min(|ls|, 200)], i);
    }
  }

  lemma OwnCount(ls: seq<Line>, o: string, f: Line -> multiset<string>, x: string, g: Line -> int, h: Line -> int)
    requires forall l :: g(l) == f(l)[x]
    requires forall l :: h(l) == if Origin(l) == o then g(l) else 0
    ensures BagOf(Where(ls, Origin, o), f)[x] == SumBy(ls, h)
  {
    BagCount(Where(ls, Origin, o), f, x, g);
    WhereSum(ls, Origin, g, o);
    PartIs(ls, Origin, g, o, h);
  }

  lemma OwnTimes(ls: seq<Line>, o: string, v: int)
    ensures multiset(Flat(Where(ls, Origin, o), SourceLatency))[v] ==
            SumBy(ls, (l: Line) => if l.origin == o && o != "" && l.access.Some? && l.access.value.latency == v
                                   then 1 else 0)
  {
    var g := (l: Line) => if l.origin != "" && l.access.Some? && l.access.value.latency == v then 1 else 0;
    FlatCount(Where(ls, Origin, o), SourceLatency, v, g);
    WhereSum(ls, Origin, g, o);
    PartIs(ls, Origin, g, o,
           (l: Line) => if l.origin == o && o != "" && l.access.Some? && l.access.value.latency == v then 1 else 0);
  }

  lemma SourceInIs(ls: seq<Line>, o: string)
    ensures SourceIn(ls, o) == SourceOf(Where(ls, Origin, o))
  {
    hide BagOf, Flat, SummaryOf, Kept, SourceOf, SourcesOf;
    SourcesLookup(ls, o);
  }

  lemma OwnLines(ls: seq<Line>, o: string)
    ensures |Where(ls, Origin, o)| == SumBy(ls, (l: Line) => if l.origin == o then 1 else 0)
  {
    WhereLength(ls, o);
    PartIs(ls, Origin, One, o, (l: Line) => if l.origin == o then 1 else 0);
  }

  /** What is kept per source: the lines of that origin; latencies and patterns only under a non-empty one. */
  lemma SourceMeans(ls: seq<Line>, o: string, x: string, v: int)
    ensures SourceIn(ls, o).lineCount == SumBy(ls, (l: Line) => if l.origin == o then 1 else 0)
    ensures SourceIn(ls, o).workers[x] == SumBy(ls, (l: Line) => if l.origin == o && l.worker == x then 1 else 0)
    ensures SourceIn(ls, o).errors[x] ==
            SumBy(ls, (l: Line) => if l.origin == o && o != "" then multiset(l.errors)[x] else 0)
    ensures multiset(SourceIn(ls, o).latencies)[v] ==
            SumBy(ls, (l: Line) => if l.origin == o && o != "" && l.access.Some? && l.access.value.latency == v
                                   then 1 else 0)
  {
    hide SourceIn, SumBy, Where, BagOf, Flat;
    SourceInIs(ls, o);
    OwnLines(ls, o);
    OwnCount(ls, o, WorkerBag, x, (l: Line) => if l.worker == x then 1 else 0,
             (l: Line) => if l.origin == o && l.worker == x then 1 else 0);
    OwnCount(ls, o, SourceErrors, x, (l: Line) => if l.origin != "" then multiset(l.errors)[x] else 0,
             (l: Line) => if l.origin == o && o != "" then multiset(l.errors)[x] else 0);
    OwnTimes(ls, o, v);
  }

  /** How often an address is counted for a worker: once for each line of a worker pod that carries it. */
  lemma IpCountsMean(lines: seq<Line>, worker: string, ip: string)
    ensures IpCounts(lines, worker)[ip] ==
            SumBy(lines, (l: Line) => if l.worker == worker && l.podName && l.hostIp == ip && ip != "" then 1 else 0)
  {
    BagCount(lines, (l: Line) => IpBag(l, worker), ip,
             (l: Line) => if l.worker == worker && l.podName && l.hostIp == ip && ip != "" then 1 else 0);
  }

  // ---------------------------------------------------------------- classes

  /** Some line reports that the RPC concurrency limit was reached. */
  ghost predicate OverConcurrency(ls: seq<Line>) {
    exists i :: 0 <= i < |ls| && "RPC max concurrency reached" in ls[i].errors
  }

  /** Some line matches an error pattern or is an access with a status other than "0". */
  ghost predicate Erroneous(ls: seq<Line>) {
    exists i :: 0 <= i < |ls| && (ls[i].errors != [] || (ls[i].access.Some? && ls[i].access.value.status != "0"))
  }

  ghost predicate LongOn(l: Line) {
    exists j :: 0 <= j < |l.urmaTotals| && l.urmaTotals[j] >= 50_000
  }

  /** Some line has a URMA total of at least 50 ms. */
  ghost predicate LongUrma(ls: seq<Line>) {
    exists i :: 0 <= i < |ls| && LongOn(ls[i])
  }

  predicate OfClient(l: Line) { l.access.Some? && Contains(l.access.value.operation, "CLIENT") }

  /** The accesses looked at for a deadline: those of the client, or all when there is none. */
  ghost predicate Considered(ls: seq<Line>, i: nat)
    requires i < |ls|
  {
    ls[i].access.Some? && (OfClient(ls[i]) || forall j :: 0 <= j < |ls| ==> !OfClient(ls[j]))
  }

  /** The longest of them took 18 to 25 ms. */
  ghost predicate NearDeadline(ls: seq<Line>) {
    && (exists i :: 0 <= i < |ls| && Considered(ls, i) && ls[i].access.value.latency >= 18_000)
    && (forall i :: 0 <= i < |ls| && Considered(ls, i) ==> ls[i].access.value.latency <= 25_000)
  }

  /** The copying time of all lines is at least 1 ms and at least the time of all set operations. */
  ghost predicate CopyDominates(ls: seq<Line>) {
    var copy := SumBy(ls, (l: Line) => ItemTotal(l.summary, "client.process.memory_copy"));
    copy >= 1000 && copy >= SumBy(ls, (l: Line) => ItemTotal(l.summary, "client.process.set"))
  }

  ghost predicate SlowRpc(ls: seq<Line>) {
    exists i :: 0 <= i < |ls| && ls[i].rpcSlow.Some?
  }

  ghost predicate Accesses(ls: seq<Line>) {
    exists i :: 0 <= i < |ls| && ls[i].access.Some?
  }

  /** The two kinds of error entries cannot be confused. */
  lemma StatusIsNoConcurrency(status: string)
    ensures "status=" + status != MAX_CONCURRENCY
  {
    assert ("status=" + status)[0] == 's' && MAX_CONCURRENCY[0] == 'R';
  }

  lemma ConcurrencySignal(ls: seq<Line>)
    ensures TraceOf(ls).errors[MAX_CONCURRENCY] > 0 <==> OverConcurrency(ls)
  {
    hide BagOf, Flat, SummaryOf, Kept, SourcesOf;
    BagMember(ls, ErrorBag, MAX_CONCURRENCY);
    forall i | 0 <= i < |ls|
      ensures MAX_CONCURRENCY in ErrorBag(ls[i]) <==> "RPC max concurrency reached" in ls[i].errors
    {
      if ls[i].access.Some? {
        StatusIsNoConcurrency(ls[i].access.value.status);
      }
    }
  }

  lemma {:induction false} EmptyBag<T>(s: seq<T>, f: T -> multiset<string>)
    ensures BagOf(s, f) == multiset{} <==> forall i :: 0 <= i < |s| ==> f(s[i]) == multiset{}
  {
    if s != [] {
      var n := |s| - 1;
      EmptyBag(s[..n], f);
      assert forall i :: 0 <= i < n ==> s[..n][i] == s[i];
      assert |BagOf(s, f)| == |BagOf(s[..n], f)| + |f(s[n])|;
    }
  }

  lemma LineErrors(l: Line)
    ensures ErrorBag(l) != multiset{} <==> l.errors != [] || (l.access.Some? && l.access.value.status != "0")
  {
    assert |ErrorBag(l)| == |StatusBag(l)| + |l.errors|;
  }

  lemma ErrorSignal(ls: seq<Line>)
    ensures TraceOf(ls).errors != multiset{} <==> Erroneous(ls)
  {
    hide BagOf, ErrorBag, Flat, SummaryOf, Kept, SourcesOf;
    EmptyBag(ls, ErrorBag);
    forall i | 0 <= i < |ls|
      ensures ErrorBag(ls[i]) != multiset{} <==>
              ls[i].errors != [] || (ls[i].access.Some? && ls[i].access.value.status != "0")
    {
      LineErrors(ls[i]);
    }
  }

  lemma RpcSignal(ls: seq<Line>)
    ensures TraceOf(ls).rpcSlow != multiset{} <==> SlowRpc(ls)
  {
    hide BagOf, Flat, SummaryOf, Kept, SourcesOf;
    EmptyBag(ls, RpcBag);
  }

  lemma {:induction false} EmptyFlat<T>(s: seq<T>, f: T -> seq<int>)
    ensures Flat(s, f) == [] <==> forall i :: 0 <= i < |s| ==> f(s[i]) == []
  {
    if s != [] {
      var n := |s| - 1;
      EmptyFlat(s[..n], f);
      assert forall i :: 0 <= i < n ==> s[..n][i] == s[i];
    }
  }

  lemma AccessSignal(ls: seq<Line>)
    ensures TraceOf(ls).latencies != [] <==> Accesses(ls)
  {
    hide BagOf, Flat, SummaryOf, Kept, SourcesOf;
    EmptyFlat(ls, Latency);
  }

  lemma LargestAtLeast(s: seq<int>, bound: int)
    requires bound > 0
    ensures LargestOrZero(s) >= bound <==> exists v :: v in s && v >= bound
  {
    if s != [] {
      assert Largest(s) in s;
      assert forall v :: v in s ==> v <= Largest(s);
    }
  }

  lemma UrmaSignal(ls: seq<Line>)
    ensures LargestOrZero(TraceOf(ls).urmaTotals) >= 50_000 <==> LongUrma(ls)
  {
    var all := Flat(ls, Urma);
    LargestAtLeast(all, 50_000);
    hide LargestOrZero, Flat;
    if v :| v in all && v >= 50_000 {
      FlatMember(ls, Urma, v);
      var i :| 0 <= i < |ls| && v in Urma(ls[i]);
      assert LongOn(ls[i]);
    }
    if LongUrma(ls) {
      var i :| 0 <= i < |ls| && LongOn(ls[i]);
      var j :| 0 <= j < |ls[i].urmaTotals| && ls[i].urmaTotals[j] >= 50_000;
      FlatMember(ls, Urma, ls[i].urmaTotals[j]);
      assert ls[i].urmaTotals[j] in Urma(ls[i]);
    }
  }

  /** The list of latencies that the deadline test looks at. */
  function Candidates(ls: seq<Line>): seq<int> {
    if Flat(ls, ClientLatency) != [] then Flat(ls, ClientLatency) else Flat(ls, Latency)
  }

  lemma CandidatesAre(ls: seq<Line>, v: int)
    ensures v in Candidates(ls) <==> exists i :: 0 <= i < |ls| && Considered(ls, i) && ls[i].access.value.latency == v
  {
    EmptyFlat(ls, ClientLatency);
    FlatMember(ls, ClientLatency, v);
    FlatMember(ls, Latency, v);
    assert forall i :: 0 <= i < |ls| ==> (ClientLatency(ls[i]) != [] <==> OfClient(ls[i]));
    assert forall i :: 0 <= i < |ls| ==>
             (v in ClientLatency(ls[i]) <==> OfClient(ls[i]) && ls[i].access.value.latency == v);
    assert forall i :: 0 <= i < |ls| ==>
             (v in Latency(ls[i]) <==> ls[i].access.Some? && ls[i].access.value.latency == v);
    hide Flat, ClientLatency, Latency, OfClient;
  }

  lemma DeadlineSignal(ls: seq<Line>)
    ensures 18_000 <= LargestOrZero(Candidates(ls)) <= 25_000 <==> NearDeadline(ls)
  {
    var s := Candidates(ls);
    forall v
      ensures v in s <==> exists i :: 0 <= i < |ls| && Considered(ls, i) && ls[i].access.value.latency == v
    {
      CandidatesAre(ls, v);
    }
    assert forall i :: 0 <= i < |ls| && Considered(ls, i) ==> ls[i].access.value.latency in s;
    hide Candidates, Considered, Largest;
    if s != [] {
      assert Largest(s) in s;
      assert forall i :: 0 <= i < |ls| && Considered(ls, i) ==> ls[i].access.value.latency <= Largest(s);
    }
  }

  lemma CopySignal(ls: seq<Line>)
    ensures var t := TraceOf(ls); CopyDominates(ls) <==>
              Count(t.summary, MEMORY_COPY) >= 1000 && Count(t.summary, MEMORY_COPY) >= Count(t.summary, SET_TOTAL)
  {
    SummaryCount(ls, MEMORY_COPY);
    SummaryCount(ls, SET_TOTAL);
  }

  lemma ConcurrencyIsError(ls: seq<Line>)
    ensures OverConcurrency(ls) ==> Erroneous(ls)
  {
  }

  /** What the classification looks at, in terms of the lines. */
  lemma SignalsMean(ls: seq<Line>)
    ensures var x := SignalsOf(TraceOf(ls));
      && (x.concurrency <==> OverConcurrency(ls)) && (x.failed <==> Erroneous(ls))
      && (x.urma >= 50_000 <==> LongUrma(ls)) && (18_000 <= x.access <= 25_000 <==> NearDeadline(ls))
      && (x.copy >= 1000 && x.copy >= x.total <==> CopyDominates(ls))
      && (x.slowRpc <==> SlowRpc(ls)) && (x.anyAccess <==> Accesses(ls))
  {
    hide OverConcurrency, Erroneous, LongUrma, NearDeadline, CopyDominates, SlowRpc, Accesses, Flat, BagOf, SummaryOf,
         Kept, SourcesOf, LargestOrZero, Count;
    ConcurrencySignal(ls);
    ErrorSignal(ls);
    UrmaSignal(ls);
    DeadlineSignal(ls);
    CopySignal(ls);
    RpcSignal(ls);
    AccessSignal(ls);
  }

  /** Which class a trace gets, by what its lines show. */
  lemma ClassMeans(ls: seq<Line>)
    ensures var k := Classify(TraceOf(ls));
      && (k == RpcMaxConcurrency <==> OverConcurrency(ls))
      && (k == DeadlineWithUrmaWait <==> !OverConcurrency(ls) && Erroneous(ls) && LongUrma(ls))
      && (k == ClientDeadline <==>
            !OverConcurrency(ls) && Erroneous(ls) && !LongUrma(ls) && NearDeadline(ls))
      && (k == MemoryCopyDominant <==>
            && !OverConcurrency(ls) && CopyDominates(ls)
            && (Erroneous(ls) ==> !LongUrma(ls) && !NearDeadline(ls)))
      && (k == DeadlineOrError <==>
            && !OverConcurrency(ls) && Erroneous(ls)
            && !LongUrma(ls) && !NearDeadline(ls) && !CopyDominates(ls))
      && (k == RemoteTransportWait <==> !Erroneous(ls) && LongUrma(ls) && !CopyDominates(ls))
      && (k == RpcSlow <==> !Erroneous(ls) && !LongUrma(ls) && !CopyDominates(ls) && SlowRpc(ls))
      && (k == AccessLatencyOnly <==>
            !Erroneous(ls) && !LongUrma(ls) && !CopyDominates(ls) && !SlowRpc(ls) && Accesses(ls))
      && (k == Unknown <==>
            !Erroneous(ls) && !LongUrma(ls) && !CopyDominates(ls) && !SlowRpc(ls) && !Accesses(ls))
  {
    hide TraceOf, SignalsOf, OverConcurrency, Erroneous, LongUrma, NearDeadline, CopyDominates, SlowRpc, Accesses;
    SignalsMean(ls);
    ConcurrencyIsError(ls);
  }
}
