/** The trace accumulator: one pass over parsed log lines keeps facts per trace and global
    tallies in step, and every trace is then classified.

    A counter is a multiset.  Times are integer microseconds. */
module Accumulator {
  import opened Basics
  import opened Tally
  import opened Text

  const MAX_EVIDENCE: nat := 200
  const MAX_CONCURRENCY := "RPC max concurrency reached"
  const MEMORY_COPY := "client.process.memory_copy"
  const SET_TOTAL := "client.process.set"

  datatype Access = Access(status: string, operation: string, latency: int)

  /** A log line with everything the parser extracts from it.  `hostIp` is empty when there is none;
      `podName` says whether the worker's name has the form of a worker pod. */
  datatype Line = Line(trace: string, origin: string, worker: string, hostIp: string, podName: bool, evidence: string,
                       access: Option<Access>, rpcSlow: Option<string>, summary: seq<(string, int)>,
                       urmaTotals: seq<int>, errors: seq<string>)

  // ---------------------------------------------------------------- what one line contributes

  function TraceId(l: Line): string { l.trace }
  function Origin(l: Line): string { l.origin }

  function WorkerBag(l: Line): multiset<string> { multiset{l.worker} }
  function OriginBag(l: Line): multiset<string> { multiset{l.origin} }
  function FlowBag(l: Line): multiset<string> {
    if l.access.Some? then multiset{l.access.value.operation} else multiset{}
  }

  function RpcBag(l: Line): multiset<string> { if l.rpcSlow.Some? then multiset{l.rpcSlow.value} else multiset{} }

  predicate IsFailure(a: Access) { a.status != "0" }
  predicate IsClient(a: Access) { Contains(a.operation, "CLIENT") }

  /** An access line with a status other than "0" is an error of its own. */
  function StatusBag(l: Line): multiset<string> {
    if l.access.Some? && IsFailure(l.access.value) then multiset{"status=" + l.access.value.status} else multiset{}
  }

  function PatternBag(l: Line): multiset<string> { multiset(l.errors) }
  function ErrorBag(l: Line): multiset<string> { StatusBag(l) + PatternBag(l) }

  function Latency(l: Line): seq<int> { if l.access.Some? then [l.access.value.latency] else [] }

  function ClientLatency(l: Line): seq<int> {
    if l.access.Some? && IsClient(l.access.value) then [l.access.value.latency] else []
  }

  function Urma(l: Line): seq<int> { l.urmaTotals }
  function Evidence(l: Line): seq<string> { [l.evidence] }

  /** Per source, latencies and error patterns are kept only under a non-empty origin. */
  function SourceLatency(l: Line): seq<int> { if l.origin != "" then Latency(l) else [] }
  function SourceErrors(l: Line): multiset<string> { if l.origin != "" then PatternBag(l) else multiset{} }

  function IpBag(l: Line, worker: string): multiset<string> {
    if l.worker == worker && l.podName && l.hostIp != "" then multiset{l.hostIp} else multiset{}
  }

  /** A counter after counting a bag of items. */
  function Bump(counter: multiset<string>, items: multiset<string>): multiset<string> { counter + items }

  // ---------------------------------------------------------------- summary counters

  function Count(counter: map<string, int>, key: string): int { if key in counter then counter[key] else 0 }

  function AddItems(counter: map<string, int>, items: seq<(string, int)>): map<string, int> {
    if items == [] then counter
    else
      var c, (k, v) := AddItems(counter, items[..|items| - 1]), items[|items| - 1];
      c[k := Count(c, k) + v]
  }

  function SummaryOf(ls: seq<Line>): map<string, int> {
    if ls == [] then map[] else AddItems(SummaryOf(ls[..|ls| - 1]), ls[|ls| - 1].summary)
  }

  function ItemTotal(items: seq<(string, int)>, key: string): int {
    SumBy(items, (item: (string, int)) => if item.0 == key then item.1 else 0)
  }

  lemma {:induction false} AddItemsCount(counter: map<string, int>, items: seq<(string, int)>, key: string)
    ensures Count(AddItems(counter, items), key) == Count(counter, key) + ItemTotal(items, key)
  {
    if items != [] {
      AddItemsCount(counter, items[..|items| - 1], key);
    }
  }

  lemma {:induction false} SummaryCount(ls: seq<Line>, key: string)
    ensures Count(SummaryOf(ls), key) == SumBy(ls, (l: Line) => ItemTotal(l.summary, key))
  {
    if ls != [] {
      SummaryCount(ls[..|ls| - 1], key);
      AddItemsCount(SummaryOf(ls[..|ls| - 1]), ls[|ls| - 1].summary, key);
    }
  }

  // ---------------------------------------------------------------- traces

  datatype Source = Source(lineCount: nat, workers: multiset<string>, errors: multiset<string>, latencies: seq<int>)

  datatype Trace = Trace(
    lines: nat, workers: multiset<string>, origins: multiset<string>, flows: multiset<string>, errors: multiset<string>,
    rpcSlow: multiset<string>, latencies: seq<int>, clientLatencies: seq<int>, urmaTotals: seq<int>,
    summary: map<string, int>, evidence: seq<string>, dropped: nat, sources: map<string, Source>)

  const NEW_TRACE :=
    Trace(0, multiset{}, multiset{}, multiset{}, multiset{}, multiset{}, [], [], [], map[], [], 0, map[])
  const NEW_SOURCE := Source(0, multiset{}, multiset{}, [])

  function SourceOf(ls: seq<Line>): Source {
    Source(|ls|, BagOf(ls, WorkerBag), BagOf(ls, SourceErrors), Flat(ls, SourceLatency))
  }

  function Origins(ls: seq<Line>): set<string> { set l | l in ls :: l.origin }

  function SourcesOf(ls: seq<Line>): (r: map<string, Source>)
    ensures r.Keys == Origins(ls)
    ensures forall origin :: origin in r ==> r[origin] == SourceOf(Where(ls, Origin, origin))
  {
    map origin | origin in Origins(ls) :: SourceOf(Where(ls, Origin, origin))
  }

  function Kept(ls: seq<Line>): seq<string> { Flat(ls[..Min(|ls|, MAX_EVIDENCE)], Evidence) }

  /** The facts of a trace, each field by itself, from the lines of the trace. */
  function TraceOf(ls: seq<Line>): Trace {
    Trace(|ls|, BagOf(ls, WorkerBag), BagOf(ls, OriginBag), BagOf(ls, FlowBag), BagOf(ls, ErrorBag), BagOf(ls, RpcBag),
          Flat(ls, Latency), Flat(ls, ClientLatency), Flat(ls, Urma), SummaryOf(ls), Kept(ls),
          |ls| - Min(|ls|, MAX_EVIDENCE), SourcesOf(ls))
  }

  function SourceAt(sources: map<string, Source>, origin: string): Source {
    if origin in sources then sources[origin] else NEW_SOURCE
  }

  /** A trace with one more line. */
  function AddSource(s: Source, l: Line): Source {
    Source(s.lineCount + 1, Bump(s.workers, WorkerBag(l)), Bump(s.errors, SourceErrors(l)),
           s.latencies + SourceLatency(l))
  }

  function AddLine(t: Trace, l: Line): Trace {
    Trace(t.lines + 1, Bump(t.workers, WorkerBag(l)), Bump(t.origins, OriginBag(l)), Bump(t.flows, FlowBag(l)),
          Bump(Bump(t.errors, StatusBag(l)), PatternBag(l)), Bump(t.rpcSlow, RpcBag(l)), t.latencies + Latency(l),
          t.clientLatencies + ClientLatency(l), t.urmaTotals + Urma(l), AddItems(t.summary, l.summary),
          if |t.evidence| < MAX_EVIDENCE then t.evidence + [l.evidence] else t.evidence,
          if |t.evidence| < MAX_EVIDENCE then t.dropped else t.dropped + 1,
          t.sources[l.origin := AddSource(SourceAt(t.sources, l.origin), l)])
  }

  lemma SourceOfSnoc(ls: seq<Line>, l: Line)
    ensures SourceOf(ls + [l]) == AddSource(SourceOf(ls), l)
  {
    BagOfSnoc(ls, l, WorkerBag);
    BagOfSnoc(ls, l, SourceErrors);
    FlatSnoc(ls, l, SourceLatency);
  }

  lemma NoSource()
    ensures SourceOf([]) == NEW_SOURCE
  {
  }

  lemma {:induction false} WhereEmpty(ls: seq<Line>, origin: string)
    requires origin !in Origins(ls)
    ensures Where(ls, Origin, origin) == []
  {
    if ls != [] {
      var init := ls[..|ls| - 1];
      assert forall l :: l in init ==> l in ls;
      assert ls[|ls| - 1] in ls;
      WhereEmpty(init, origin);
    }
  }

  lemma SourcesLookup(ls: seq<Line>, origin: string)
    ensures SourceAt(SourcesOf(ls), origin) == SourceOf(Where(ls, Origin, origin))
  {
    NoSource();
    if origin !in Origins(ls) {
      WhereEmpty(ls, origin);
    }
  }

  lemma IsUpdate(a: map<string, Source>, b: map<string, Source>, k: string, v: Source)
    requires b.Keys == a.Keys + {k} && b[k] == v && forall x :: x in a && x != k ==> b[x] == a[x]
    ensures b == a[k := v]
  {
  }

  lemma OriginsSnoc(ls: seq<Line>, l: Line)
    ensures Origins(ls + [l]) == Origins(ls) + {l.origin}
  {
    assert forall x :: x in ls + [l] <==> x in ls || x == l;
  }

  lemma SourcesOfSnoc(ls: seq<Line>, l: Line)
    ensures SourcesOf(ls + [l]) == SourcesOf(ls)[l.origin := AddSource(SourceAt(SourcesOf(ls), l.origin), l)]
  {
    SourcesLookup(ls, l.origin);
    OriginsSnoc(ls, l);
    SourceOfSnoc(Where(ls, Origin, l.origin), l);
    hide SourceOf, AddSource, Where, Origins, SourcesOf, SourceAt;
    forall origin ensures Where(ls + [l], Origin, origin) ==
                          if origin == l.origin then Where(ls, Origin, origin) + [l] else Where(ls, Origin, origin) {
      WhereSnoc(ls, l, Origin, origin);
    }
    IsUpdate(SourcesOf(ls), SourcesOf(ls + [l]), l.origin, AddSource(SourceAt(SourcesOf(ls), l.origin), l));
  }

  lemma {:induction false} EvidenceLength(ls: seq<Line>)
    ensures |Flat(ls, Evidence)| == |ls|
  {
    if ls != [] {
      EvidenceLength(ls[..|ls| - 1]);
    }
  }

  lemma KeptSnoc(ls: seq<Line>, l: Line)
    ensures |Kept(ls)| == Min(|ls|, MAX_EVIDENCE)
    ensures Kept(ls + [l]) == if |Kept(ls)| < MAX_EVIDENCE then Kept(ls) + [l.evidence] else Kept(ls)
  {
    EvidenceLength(ls[..Min(|ls|, MAX_EVIDENCE)]);
    if |ls| < MAX_EVIDENCE {
      assert ls[..|ls|] == ls && (ls + [l])[..|ls| + 1] == ls + [l];
      FlatSnoc(ls, l, Evidence);
    } else {
      assert (ls + [l])[..MAX_EVIDENCE] == ls[..MAX_EVIDENCE];
    }
  }

  lemma BumpSnoc(ls: seq<Line>, l: Line)
    ensures BagOf(ls + [l], WorkerBag) == Bump(BagOf(ls, WorkerBag), WorkerBag(l))
    ensures BagOf(ls + [l], OriginBag) == Bump(BagOf(ls, OriginBag), OriginBag(l))
    ensures BagOf(ls + [l], FlowBag) == Bump(BagOf(ls, FlowBag), FlowBag(l))
    ensures BagOf(ls + [l], ErrorBag) == Bump(Bump(BagOf(ls, ErrorBag), StatusBag(l)), PatternBag(l))
    ensures BagOf(ls + [l], RpcBag) == Bump(BagOf(ls, RpcBag), RpcBag(l))
  {
    BagOfSnoc(ls, l, WorkerBag);
    BagOfSnoc(ls, l, OriginBag);
    BagOfSnoc(ls, l, FlowBag);
    BagOfSnoc(ls, l, ErrorBag);
    BagOfSnoc(ls, l, RpcBag);
    assert BagOf(ls, ErrorBag) + ErrorBag(l) == BagOf(ls, ErrorBag) + StatusBag(l) + PatternBag(l);
  }

  lemma SummaryOfSnoc(ls: seq<Line>, l: Line)
    ensures SummaryOf(ls + [l]) == AddItems(SummaryOf(ls), l.summary)
  {
    assert (ls + [l])[..|ls|] == ls;
  }

  /** Adding a line to the facts of a trace gives the facts of the longer trace. */
  lemma TraceOfSnoc(ls: seq<Line>, l: Line)
    ensures TraceOf(ls + [l]) == AddLine(TraceOf(ls), l)
  {
    hide Bump, BagOf, Flat, Kept, SourcesOf, AddSource, AddItems, SummaryOf, StatusBag, PatternBag, WorkerBag,
         OriginBag, FlowBag, ErrorBag, RpcBag, Latency, ClientLatency, Urma;
    BumpSnoc(ls, l);
    FlatSnoc(ls, l, Latency);
    FlatSnoc(ls, l, ClientLatency);
    FlatSnoc(ls, l, Urma);
    SummaryOfSnoc(ls, l);
    KeptSnoc(ls, l);
    SourcesOfSnoc(ls, l);
  }

  // ---------------------------------------------------------------- the accumulator

  function TraceAt(traces: map<string, Trace>, id: string): Trace { if id in traces then traces[id] else NEW_TRACE }

  function IpsAt(ips: map<string, multiset<string>>, worker: string): multiset<string> {
    if worker in ips then ips[worker] else multiset{}
  }

  ghost predicate TraceMatches(traces: map<string, Trace>, lines: seq<Line>, id: string) {
    var ls := Where(lines, TraceId, id);
    (id in traces <==> ls != []) && TraceAt(traces, id) == TraceOf(ls)
  }

  /** Every trace in the map has the facts of exactly its lines. */
  ghost predicate TracesOf(traces: map<string, Trace>, lines: seq<Line>) {
    forall id :: TraceMatches(traces, lines, id)
  }

  /** The addresses counted for a worker. */
  function IpCounts(lines: seq<Line>, worker: string): multiset<string> { BagOf(lines, (l: Line) => IpBag(l, worker)) }

  ghost predicate IpsMatch(ips: map<string, multiset<string>>, lines: seq<Line>, worker: string) {
    (worker in ips <==> IpCounts(lines, worker) != multiset{}) && IpsAt(ips, worker) == IpCounts(lines, worker)
  }

  /** A worker has a counter exactly when an address was counted for it. */
  ghost predicate IpsOf(ips: map<string, multiset<string>>, lines: seq<Line>) {
    forall worker :: IpsMatch(ips, lines, worker)
  }

  /** A counter after the first `i` of the items have been counted. */
  ghost function Plus(counter: multiset<string>, items: seq<string>, i: nat): multiset<string>
    requires i <= |items|
  {
    counter + multiset(items[..i])
  }

  lemma PlusStep(counter: multiset<string>, before: multiset<string>, items: seq<string>, i: nat)
    requires i < |items|
    ensures counter == Plus(before, items, i) ==> counter + multiset{items[i]} == Plus(before, items, i + 1)
  {
    assert items[..i + 1] == items[..i] + [items[i]];
  }

  lemma PlusAll(counter: multiset<string>, items: seq<string>)
    ensures Plus(counter, items, |items|) == counter + multiset(items)
  {
    assert items[..|items|] == items;
  }

  /** A trace after the counts of a line, after its access part, and after the rest of it. */
  function Counted(t: Trace, l: Line): Trace {
    t.(lines := t.lines + 1, origins := Bump(t.origins, OriginBag(l)), workers := Bump(t.workers, WorkerBag(l)),
       evidence := if |t.evidence| < MAX_EVIDENCE then t.evidence + [l.evidence] else t.evidence,
       dropped := if |t.evidence| < MAX_EVIDENCE then t.dropped else t.dropped + 1)
  }

  /** The counts that every line adds to: lines, sources, workers and kept or dropped evidence. */
  method CountLine(trace: Trace, source: Source, line: Line) returns (t: Trace, s: Source)
    ensures t == Counted(trace, line)
    ensures s == source.(lineCount := source.lineCount + 1, workers := Bump(source.workers, WorkerBag(line)))
  {
    t, s := trace, source;
    t := t.(lines := t.lines + 1);
    t := t.(origins := t.origins + multiset{line.origin});
    s := s.(lineCount := s.lineCount + 1);
    t := t.(workers := t.workers + multiset{line.worker});
    s := s.(workers := s.workers + multiset{line.worker});
    if |t.evidence| < MAX_EVIDENCE {
      t := t.(evidence := t.evidence + [line.evidence]);
    } else {
      t := t.(dropped := t.dropped + 1);
    }
  }

  lemma IpsStep(ips: map<string, multiset<string>>, lines: seq<Line>, line: Line)
    requires IpsOf(ips, lines)
    ensures IpsOf(if line.hostIp != "" && line.podName
                  then ips[line.worker := IpsAt(ips, line.worker) + multiset{line.hostIp}] else ips, lines + [line])
  {
    var ips' := if line.hostIp != "" && line.podName
                then ips[line.worker := IpsAt(ips, line.worker) + multiset{line.hostIp}] else ips;
    var lines' := lines + [line];
    forall worker ensures IpsMatch(ips', lines', worker) {
      assert IpsMatch(ips, lines, worker);
      BagOfSnoc(lines, line, (l: Line) => IpBag(l, worker));
    }
  }

  function Accessed(t: Trace, l: Line): Trace {
    t.(flows := Bump(t.flows, FlowBag(l)), errors := Bump(t.errors, StatusBag(l)),
       latencies := t.latencies + Latency(l), clientLatencies := t.clientLatencies + ClientLatency(l))
  }

  function Finished(t: Trace, s: Source, l: Line): Trace {
    t.(rpcSlow := Bump(t.rpcSlow, RpcBag(l)), summary := AddItems(t.summary, l.summary),
       urmaTotals := t.urmaTotals + l.urmaTotals, errors := Bump(t.errors, PatternBag(l)),
       sources := t.sources[l.origin := s.(errors := Bump(s.errors, SourceErrors(l)))])
  }

  /** The steps put together are the trace with one more line. */
  lemma IsAddLine(t: Trace, l: Line)
    ensures var s := SourceAt(t.sources, l.origin);
            var s' := s.(lineCount := s.lineCount + 1, workers := Bump(s.workers, WorkerBag(l)));
            Finished(Accessed(Counted(t, l), l), s'.(latencies := s'.latencies + SourceLatency(l)), l) == AddLine(t, l)
    ensures Counted(t, l).sources == t.sources
  {
    hide Bump, SourceAt, SourceErrors, SourceLatency, WorkerBag, OriginBag, FlowBag, StatusBag, PatternBag, RpcBag,
         Latency, ClientLatency, AddItems;
  }

  method IngestSummary(counter: map<string, int>, items: seq<(string, int)>) returns (r: map<string, int>)
    ensures r == AddItems(counter, items)
  {
    r := counter;
    for i := 0 to |items|
      invariant r == AddItems(counter, items[..i])
    {
      assert items[..i + 1][..i] == items[..i];
      var (key, value) := items[i];
      r := r[key := Count(r, key) + value];
    }
    assert items[..|items|] == items;
  }

  lemma NoTrace()
    ensures TracesOf(map[], []) && IpsOf(map[], [])
  {
    assert TraceOf([]).sources == map[];
  }

  lemma TracesStep(traces: map<string, Trace>, lines: seq<Line>, line: Line)
    requires TracesOf(traces, lines)
    ensures TracesOf(traces[line.trace := AddLine(TraceAt(traces, line.trace), line)], lines + [line])
  {
    hide TraceOf, AddLine;
    var traces' := traces[line.trace := AddLine(TraceAt(traces, line.trace), line)];
    var lines' := lines + [line];
    forall id ensures TraceMatches(traces', lines', id) {
      assert TraceMatches(traces, lines, id);
      WhereSnoc(lines, line, TraceId, id);
      if id == line.trace {
        TraceOfSnoc(Where(lines, TraceId, id), line);
      }
    }
  }

  class TraceAccumulator {
    var traces: map<string, Trace>
    var workerCounts: multiset<string>
    var workerIps: map<string, multiset<string>>
    var flowCounts: multiset<string>
    var rpcSlow: multiset<string>
    var errors: multiset<string>
    var accessLatencies: seq<int>
    /** The lines ingested so far. */
    ghost var lines: seq<Line>

    ghost predicate Valid()
      reads this
    {
      && TracesOf(traces, lines)
      && IpsOf(workerIps, lines)
      && workerCounts == BagOf(lines, WorkerBag)
      && flowCounts == BagOf(lines, FlowBag)
      && rpcSlow == BagOf(lines, RpcBag)
      && errors == BagOf(lines, ErrorBag)
      && accessLatencies == Flat(lines, Latency)
    }

    constructor ()
      ensures Valid() && lines == []
    {
      traces, workerIps, accessLatencies, lines := map[], map[], [], [];
      workerCounts, flowCounts, rpcSlow, errors := multiset{}, multiset{}, multiset{}, multiset{};
      new;
      NoTrace();
    }

    method IngestRpcSlow(traceRpc: multiset<string>, line: Line) returns (t: multiset<string>)
      modifies this`rpcSlow
      ensures rpcSlow == Bump(old(rpcSlow), RpcBag(line))
      ensures t == Bump(traceRpc, RpcBag(line))
    {
      t := traceRpc;
      if line.rpcSlow.Some? {
        t := t + multiset{line.rpcSlow.value};
        rpcSlow := rpcSlow + multiset{line.rpcSlow.value};
      }
    }

    method IngestErrors(traceErrors: multiset<string>, sourceErrors: multiset<string>, line: Line)
      returns (t: multiset<string>, s: multiset<string>)
      modifies this`errors
      ensures errors == Bump(old(errors), PatternBag(line))
      ensures t == Bump(traceErrors, PatternBag(line))
      ensures s == Bump(sourceErrors, SourceErrors(line))
    {
      t, s := traceErrors, sourceErrors;
      var named := line.origin != "";
      assert t == Plus(traceErrors, line.errors, 0) && errors == Plus(errors, line.errors, 0);
      assert s == if named then Plus(sourceErrors, line.errors, 0) else sourceErrors;
      hide Plus;
      for i := 0 to |line.errors|
        invariant errors == Plus(old(errors), line.errors, i)
        invariant t == Plus(traceErrors, line.errors, i)
        invariant s == if named then Plus(sourceErrors, line.errors, i) else sourceErrors
      {
        PlusStep(errors, old(errors), line.errors, i);
        PlusStep(t, traceErrors, line.errors, i);
        PlusStep(s, sourceErrors, line.errors, i);
        errors := errors + multiset{line.errors[i]};
        t := t + multiset{line.errors[i]};
        if named {
          s := s + multiset{line.errors[i]};
        }
      }
      PlusAll(old(errors), line.errors);
      PlusAll(traceErrors, line.errors);
      PlusAll(sourceErrors, line.errors);
    }

    /** Slow RPCs, the latency summary, URMA completions and error patterns. */
    method IngestRest(trace: Trace, source: Source, line: Line) returns (t: Trace)
      modifies this`rpcSlow, this`errors
      ensures rpcSlow == Bump(old(rpcSlow), RpcBag(line)) && errors == Bump(old(errors), PatternBag(line))
      ensures t == Finished(trace, source, line)
    {
      hide Bump, RpcBag, PatternBag, SourceErrors, AddItems;
      var traceRpc := IngestRpcSlow(trace.rpcSlow, line);
      var summary := IngestSummary(trace.summary, line.summary);
      var traceErrors, sourceErrors := IngestErrors(trace.errors, source.errors, line);
      t := trace.(rpcSlow := traceRpc, summary := summary, urmaTotals := trace.urmaTotals + line.urmaTotals,
                  errors := traceErrors, sources := trace.sources[line.origin := source.(errors := sourceErrors)]);
    }

    method CountWorker(line: Line)
      requires IpsOf(workerIps, lines)
      modifies this`workerCounts, this`workerIps
      ensures workerCounts == Bump(old(workerCounts), WorkerBag(line))
      ensures IpsOf(workerIps, lines + [line])
    {
      workerCounts := workerCounts + multiset{line.worker};
      IpsStep(workerIps, lines, line);
      if line.hostIp != "" && line.podName {
        workerIps := workerIps[line.worker := IpsAt(workerIps, line.worker) + multiset{line.hostIp}];
      }
    }

    method IngestAccess(trace: Trace, source: Source, line: Line) returns (t: Trace, s: Source)
      modifies this`flowCounts, this`errors, this`accessLatencies
      ensures flowCounts == Bump(old(flowCounts), FlowBag(line))
      ensures errors == Bump(old(errors), StatusBag(line))
      ensures accessLatencies == old(accessLatencies) + Latency(line)
      ensures t == Accessed(trace, line)
      ensures s == source.(latencies := source.latencies + SourceLatency(line))
    {
      hide IsFailure, IsClient;
      t, s := trace, source;
      if line.access.None? {
        assert t.flows + multiset{} == t.flows && t.errors + multiset{} == t.errors;
        assert flowCounts + multiset{} == flowCounts && errors + multiset{} == errors;
        assert t.latencies + [] == t.latencies && t.clientLatencies + [] == t.clientLatencies;
        assert s.latencies + [] == s.latencies && accessLatencies + [] == accessLatencies;
        return;
      }
      var a := line.access.value;
      t := t.(flows := t.flows + multiset{a.operation});
      flowCounts := flowCounts + multiset{a.operation};
      if IsFailure(a) {
        errors := errors + multiset{"status=" + a.status};
        t := t.(errors := t.errors + multiset{"status=" + a.status});
      } else {
        assert t.errors + multiset{} == t.errors && errors + multiset{} == errors;
      }
      t := t.(latencies := t.latencies + [a.latency]);
      if line.origin != "" {
        s := s.(latencies := s.latencies + [a.latency]);
      } else {
        assert s.latencies + [] == s.latencies;
      }
      if IsClient(a) {
        t := t.(clientLatencies := t.clientLatencies + [a.latency]);
      } else {
        assert t.clientLatencies + [] == t.clientLatencies;
      }
      accessLatencies := accessLatencies + [a.latency];
    }

    /** Everything a line adds, to its trace and to the global tallies. */
    method IngestFields(line: Line) returns (trace: Trace)
      requires IpsOf(workerIps, lines)
      modifies this`workerCounts, this`workerIps, this`flowCounts, this`rpcSlow, this`errors, this`accessLatencies
      ensures trace == AddLine(TraceAt(traces, line.trace), line)
      ensures workerCounts == Bump(old(workerCounts), WorkerBag(line)) && IpsOf(workerIps, lines + [line])
      ensures flowCounts == Bump(old(flowCounts), FlowBag(line)) && rpcSlow == Bump(old(rpcSlow), RpcBag(line))
      ensures errors == Bump(Bump(old(errors), StatusBag(line)), PatternBag(line))
      ensures accessLatencies == old(accessLatencies) + Latency(line)
    {
      hide *;
      ghost var before := TraceAt(traces, line.trace);
      trace := TraceAt(traces, line.trace);
      var source := SourceAt(trace.sources, line.origin);
      trace, source := CountLine(trace, source, line);
      CountWorker(line);
      trace, source := IngestAccess(trace, source, line);
      trace := IngestRest(trace, source, line);
      IsAddLine(before, line);
    }

    method Ingest(line: Line)
      requires Valid()
      modifies this
      ensures Valid() && lines == old(lines) + [line]
    {
      hide TracesOf, IpsOf, BagOf, Flat, AddLine, TraceAt, Bump, WorkerBag, FlowBag, RpcBag, StatusBag, PatternBag,
           ErrorBag, Latency;
      TracesStep(traces, lines, line);
      BumpSnoc(lines, line);
      FlatSnoc(lines, line, Latency);
      var trace := IngestFields(line);
      traces := traces[line.trace := trace];
      lines := lines + [line];
    }
  }

  // ---------------------------------------------------------------- tallies and traces agree

  function TraceIn(lines: seq<Line>, id: string): Trace { TraceOf(Where(lines, TraceId, id)) }

  ghost predicate Covers(ids: seq<string>, lines: seq<Line>) {
    Distinct(ids) && forall i :: 0 <= i < |lines| ==> TraceId(lines[i]) in ids
  }

  lemma OneTally<U>(lines: seq<Line>, ids: seq<string>, f: Line -> multiset<U>, g: string -> multiset<U>)
    requires Covers(ids, lines) && forall id :: g(id) == BagOf(Where(lines, TraceId, id), f)
    ensures BagOf(lines, f) == BagOf(ids, g)
  {
    BagPartsAddUp(lines, TraceId, f, ids);
    BagOfSame(ids, g, (id: string) => BagPart(lines, TraceId, f, id));
  }

  function WorkersOf(t: Trace): multiset<string> { t.workers }
  function FlowsOf(t: Trace): multiset<string> { t.flows }
  function RpcSlowOf(t: Trace): multiset<string> { t.rpcSlow }
  function ErrorsOf(t: Trace): multiset<string> { t.errors }
  function LatenciesOf(t: Trace): multiset<int> { multiset(t.latencies) }

  /** The global tallies are the sums over the traces. */
  lemma TalliesAreSums(lines: seq<Line>, ids: seq<string>)
    requires Covers(ids, lines)
    ensures BagOf(lines, WorkerBag) == BagOf(ids, (id: string) => WorkersOf(TraceIn(lines, id)))
    ensures BagOf(lines, FlowBag) == BagOf(ids, (id: string) => FlowsOf(TraceIn(lines, id)))
    ensures BagOf(lines, RpcBag) == BagOf(ids, (id: string) => RpcSlowOf(TraceIn(lines, id)))
    ensures BagOf(lines, ErrorBag) == BagOf(ids, (id: string) => ErrorsOf(TraceIn(lines, id)))
  {
    OneTally(lines, ids, WorkerBag, (id: string) => WorkersOf(TraceIn(lines, id)));
    OneTally(lines, ids, FlowBag, (id: string) => FlowsOf(TraceIn(lines, id)));
    OneTally(lines, ids, RpcBag, (id: string) => RpcSlowOf(TraceIn(lines, id)));
    OneTally(lines, ids, ErrorBag, (id: string) => ErrorsOf(TraceIn(lines, id)));
  }

  function LatencyBag(l: Line): multiset<int> { multiset(Latency(l)) }

  lemma LatencyBags(ls: seq<Line>)
    ensures multiset(Flat(ls, Latency)) == BagOf(ls, LatencyBag)
  {
    FlatBag(ls, Latency);
    BagOfSame(ls, x => multiset(Latency(x)), LatencyBag);
  }

  /** The latencies recorded globally are those of the traces, as a bag. */
  lemma LatenciesAreSums(lines: seq<Line>, ids: seq<string>)
    requires Covers(ids, lines)
    ensures multiset(Flat(lines, Latency)) == BagOf(ids, (id: string) => LatenciesOf(TraceIn(lines, id)))
  {
    LatencyBags(lines);
    forall id ensures LatenciesOf(TraceIn(lines, id)) == BagOf(Where(lines, TraceId, id), LatencyBag) {
      LatencyBags(Where(lines, TraceId, id));
    }
    hide TraceIn, BagOf, Flat, Where, Covers;
    OneTally(lines, ids, LatencyBag, (id: string) => LatenciesOf(TraceIn(lines, id)));
  }

  lemma TracesCover(traces: map<string, Trace>, lines: seq<Line>, ids: seq<string>)
    requires TracesOf(traces, lines) && Distinct(ids) && forall id :: id in ids <==> id in traces
    ensures Covers(ids, lines)
  {
    hide TraceOf, Distinct, Where;
    forall i | 0 <= i < |lines| ensures TraceId(lines[i]) in ids {
      assert TraceMatches(traces, lines, lines[i].trace);
      WhereMembers(lines, TraceId, lines[i].trace);
      assert lines[i] in lines;
      assert lines[i] in Where(lines, TraceId, lines[i].trace);
    }
  }

  /** What the traces contribute together. */
  function TallyOver<U(==)>(traces: map<string, Trace>, ids: seq<string>, field: Trace -> multiset<U>): multiset<U> {
    BagOf(ids, (id: string) => field(TraceAt(traces, id)))
  }

  lemma TallyOfTraces<U>(traces: map<string, Trace>, lines: seq<Line>, ids: seq<string>, f: Line -> multiset<U>,
                         field: Trace -> multiset<U>)
    requires TracesOf(traces, lines) && Covers(ids, lines)
    requires forall ls: seq<Line> :: field(TraceOf(ls)) == BagOf(ls, f)
    ensures TallyOver(traces, ids, field) == BagOf(lines, f)
  {
    hide TraceOf, BagOf, Covers, Where;
    forall id ensures field(TraceAt(traces, id)) == BagOf(Where(lines, TraceId, id), f) {
      assert TraceMatches(traces, lines, id);
    }
    OneTally(lines, ids, f, (id: string) => field(TraceAt(traces, id)));
  }

  lemma LatencyField()
    ensures forall ls: seq<Line> :: LatenciesOf(TraceOf(ls)) == BagOf(ls, LatencyBag)
  {
    forall ls: seq<Line> ensures LatenciesOf(TraceOf(ls)) == BagOf(ls, LatencyBag) {
      LatencyBags(ls);
    }
  }

  lemma CounterFields()
    ensures forall ls: seq<Line> :: WorkersOf(TraceOf(ls)) == BagOf(ls, WorkerBag)
    ensures forall ls: seq<Line> :: FlowsOf(TraceOf(ls)) == BagOf(ls, FlowBag)
    ensures forall ls: seq<Line> :: RpcSlowOf(TraceOf(ls)) == BagOf(ls, RpcBag)
    ensures forall ls: seq<Line> :: ErrorsOf(TraceOf(ls)) == BagOf(ls, ErrorBag)
  {
  }

  /** Whatever was ingested, the global tallies of the accumulator are the sums over its traces. */
  lemma AccumulatorAddsUp(acc: TraceAccumulator, ids: seq<string>)
    requires acc.Valid() && Distinct(ids) && forall id :: id in ids <==> id in acc.traces
    ensures acc.workerCounts == TallyOver(acc.traces, ids, WorkersOf)
    ensures acc.flowCounts == TallyOver(acc.traces, ids, FlowsOf)
    ensures acc.rpcSlow == TallyOver(acc.traces, ids, RpcSlowOf)
    ensures acc.errors == TallyOver(acc.traces, ids, ErrorsOf)
    ensures multiset(acc.accessLatencies) == TallyOver(acc.traces, ids, LatenciesOf)
  {
    TracesCover(acc.traces, acc.lines, ids);
    CounterFields();
    LatencyField();
    LatencyBags(acc.lines);
    hide TracesOf, IpsOf, BagOf, Flat, Covers, TraceOf, TallyOver, LatenciesOf;
    TallyOfTraces(acc.traces, acc.lines, ids, WorkerBag, WorkersOf);
    TallyOfTraces(acc.traces, acc.lines, ids, FlowBag, FlowsOf);
    TallyOfTraces(acc.traces, acc.lines, ids, RpcBag, RpcSlowOf);
    TallyOfTraces(acc.traces, acc.lines, ids, ErrorBag, ErrorsOf);
    TallyOfTraces(acc.traces, acc.lines, ids, LatencyBag, LatenciesOf);
  }

  /** The line count of a trace is the sum over its workers and over its sources; evidence is kept or dropped. */
  lemma TraceCounts(ls: seq<Line>)
    ensures var t := TraceOf(ls);
      && t.lines == |t.workers| == |t.origins| == |t.evidence| + t.dropped
      && |t.evidence| == Min(t.lines, MAX_EVIDENCE)
  {
    BagSize(ls, WorkerBag);
    BagSize(ls, OriginBag);
    EvidenceLength(ls[..Min(|ls|, MAX_EVIDENCE)]);
  }

  function One(l: Line): int { 1 }

  lemma WhereLength(ls: seq<Line>, origin: string)
    ensures |Where(ls, Origin, origin)| == Part(ls, Origin, One, origin)
  {
    WhereSum(ls, Origin, One, origin);
    SumByOnes(Where(ls, Origin, origin), One);
  }

  ghost predicate ListsOrigins(origins: seq<string>, ls: seq<Line>) {
    Distinct(origins) && forall i :: 0 <= i < |ls| ==> Origin(ls[i]) in origins
  }

  lemma OneSplit(ls: seq<Line>, origins: seq<string>, f: Line -> multiset<string>, g: string -> multiset<string>)
    requires ListsOrigins(origins, ls) && forall o :: g(o) == BagOf(Where(ls, Origin, o), f)
    ensures BagOf(origins, g) == BagOf(ls, f)
  {
    BagPartsAddUp(ls, Origin, f, origins);
    BagOfSame(origins, g, (o: string) => BagPart(ls, Origin, f, o));
  }

  lemma LinesSplit(ls: seq<Line>, origins: seq<string>, g: string -> int)
    requires ListsOrigins(origins, ls) && forall o :: g(o) == |Where(ls, Origin, o)|
    ensures SumBy(origins, g) == |ls|
  {
    PartsAddUp(ls, Origin, One, origins);
    SumByOnes(ls, One);
    forall i | 0 <= i < |origins| ensures g(origins[i]) == Part(ls, Origin, One, origins[i]) {
      WhereLength(ls, origins[i]);
    }
    SumBySame(origins, g, o => Part(ls, Origin, One, o));
  }

  function SourceIn(ls: seq<Line>, o: string): Source { SourceAt(TraceOf(ls).sources, o) }

  /** The per-source statistics split the trace: lines and workers exactly, errors only as far as they come from
      patterns, since the status of an access line is not counted per source. */
  lemma SourcesSplitTrace(ls: seq<Line>, origins: seq<string>)
    requires ListsOrigins(origins, ls)
    ensures SumBy(origins, (o: string) => SourceIn(ls, o).lineCount) == TraceOf(ls).lines
    ensures BagOf(origins, (o: string) => SourceIn(ls, o).workers) == TraceOf(ls).workers
    ensures BagOf(origins, (o: string) => SourceIn(ls, o).errors) == BagOf(ls, SourceErrors)
  {
    forall o ensures SourceIn(ls, o) == SourceOf(Where(ls, Origin, o)) {
      SourcesLookup(ls, o);
    }
    hide SourceIn, BagOf, Flat, Where, SumBy, ListsOrigins, Kept, SourcesOf, SummaryOf;
    LinesSplit(ls, origins, (o: string) => SourceIn(ls, o).lineCount);
    OneSplit(ls, origins, WorkerBag, (o: string) => SourceIn(ls, o).workers);
    OneSplit(ls, origins, SourceErrors, (o: string) => SourceIn(ls, o).errors);
  }

  lemma {:induction false} StatusErrors(ls: seq<Line>)
    ensures |BagOf(ls, StatusBag)| == 0 <==>
            forall i :: 0 <= i < |ls| ==> ls[i].access.None? || !IsFailure(ls[i].access.value)
  {
    hide IsFailure;
    if ls != [] {
      var init, l := ls[..|ls| - 1], ls[|ls| - 1];
      StatusErrors(init);
      assert |BagOf(ls, StatusBag)| == |BagOf(init, StatusBag)| + |StatusBag(l)|;
      assert forall i :: 0 <= i < |init| ==> init[i] == ls[i];
    }
  }

  /** The errors of the sources are all errors of the trace exactly when no access line reports a failure. */
  lemma SourceErrorsComplete(ls: seq<Line>)
    requires forall i :: 0 <= i < |ls| ==> ls[i].origin != ""
    ensures BagOf(ls, SourceErrors) == TraceOf(ls).errors <==>
            forall i :: 0 <= i < |ls| ==> ls[i].access.None? || !IsFailure(ls[i].access.value)
  {
    BagOfPlus(ls, StatusBag, SourceErrors, ErrorBag);
    StatusErrors(ls);
    var a, b := BagOf(ls, SourceErrors), BagOf(ls, StatusBag);
    assert b + a == a <==> |b| == 0 by {
      assert |b + a| == |b| + |a|;
    }
  }

  /** No worker is ever counted under an empty address. */
  lemma {:induction false} NoEmptyIp(lines: seq<Line>, worker: string)
    ensures "" !in IpCounts(lines, worker)
  {
    if lines != [] {
      NoEmptyIp(lines[..|lines| - 1], worker);
    }
  }

  // ---------------------------------------------------------------- classification

  datatype Class =
    | RpcMaxConcurrency | DeadlineWithUrmaWait | ClientDeadline | MemoryCopyDominant | DeadlineOrError
    | RemoteTransportWait | RpcSlow | AccessLatencyOnly | Unknown

  /** `max(s, default=0)`. */
  function LargestOrZero(s: seq<int>): int { if s == [] then 0 else Largest(s) }

  /** What the classification looks at. */
  datatype Signals = Signals(access: int, urma: int, copy: int, total: int, failed: bool, concurrency: bool,
                             slowRpc: bool, anyAccess: bool)

  function SignalsOf(t: Trace): Signals {
    Signals(LargestOrZero(if t.clientLatencies != [] then t.clientLatencies else t.latencies),
            LargestOrZero(t.urmaTotals), Count(t.summary, MEMORY_COPY), Count(t.summary, SET_TOTAL),
            t.errors != multiset{},
            t.errors[MAX_CONCURRENCY] > 0, t.rpcSlow != multiset{}, t.latencies != [])
  }

  /** `_classify`; the thresholds are 50, 18 and 25 milliseconds and one millisecond. */
  function Classify(t: Trace): Class {
    var x := SignalsOf(t);
    if x.concurrency then RpcMaxConcurrency
    else if x.failed && x.urma >= 50_000 then DeadlineWithUrmaWait
    else if x.failed && x.access != 0 && 18_000 <= x.access <= 25_000 then ClientDeadline
    else if x.copy >= 1000 && x.copy >= x.total && x.copy >= 1 then MemoryCopyDominant
    else if x.failed then DeadlineOrError
    else if x.urma >= 50_000 then RemoteTransportWait
    else if x.slowRpc then RpcSlow
    else if x.anyAccess then AccessLatencyOnly
    else Unknown
  }

  lemma LargestOfBag(a: seq<int>, b: seq<int>)
    requires multiset(a) == multiset(b)
    ensures LargestOrZero(a) == LargestOrZero(b) && (a == [] <==> b == [])
  {
    assert |multiset(a)| == |a| && |multiset(b)| == |b|;
    if a != [] {
      var x, y := Largest(a), Largest(b);
      assert x in multiset(a) && y in multiset(b);
      assert x in b && y in a;
    }
  }

  lemma SummaryPermutation(a: seq<Line>, b: seq<Line>, key: string)
    requires multiset(a) == multiset(b)
    ensures Count(SummaryOf(a), key) == Count(SummaryOf(b), key)
  {
    SummaryCount(a, key);
    SummaryCount(b, key);
    SumByPermutation(a, b, (l: Line) => ItemTotal(l.summary, key));
  }

  lemma LargestFlat(a: seq<Line>, b: seq<Line>, f: Line -> seq<int>)
    requires multiset(a) == multiset(b)
    ensures LargestOrZero(Flat(a, f)) == LargestOrZero(Flat(b, f)) && (Flat(a, f) == [] <==> Flat(b, f) == [])
  {
    FlatPermutation(a, b, f);
    LargestOfBag(Flat(a, f), Flat(b, f));
  }

  lemma SameSignals(t: Trace, u: Trace)
    requires LargestOrZero(t.latencies) == LargestOrZero(u.latencies) && (t.latencies == [] <==> u.latencies == [])
    requires LargestOrZero(t.clientLatencies) == LargestOrZero(u.clientLatencies)
    requires t.clientLatencies == [] <==> u.clientLatencies == []
    requires LargestOrZero(t.urmaTotals) == LargestOrZero(u.urmaTotals)
    requires t.errors == u.errors && t.rpcSlow == u.rpcSlow
    requires Count(t.summary, MEMORY_COPY) == Count(u.summary, MEMORY_COPY)
    requires Count(t.summary, SET_TOTAL) == Count(u.summary, SET_TOTAL)
    ensures SignalsOf(t) == SignalsOf(u)
  {
    hide LargestOrZero, Count;
  }

  /** The classification of a trace does not depend on the order of its lines. */
  lemma ClassificationIgnoresOrder(a: seq<Line>, b: seq<Line>)
    requires multiset(a) == multiset(b)
    ensures Classify(TraceOf(a)) == Classify(TraceOf(b))
  {
    hide Flat, BagOf, SummaryOf, LargestOrZero, Count, Kept, SourcesOf, SignalsOf;
    LargestFlat(a, b, Latency);
    LargestFlat(a, b, ClientLatency);
    LargestFlat(a, b, Urma);
    SummaryPermutation(a, b, MEMORY_COPY);
    SummaryPermutation(a, b, SET_TOTAL);
    BagOfPermutation(a, b, ErrorBag);
    BagOfPermutation(a, b, RpcBag);
    SameSignals(TraceOf(a), TraceOf(b));
  }

  /** Reordering the log changes no tally and no classification. */
  lemma LogOrderDoesNotMatter(a: seq<Line>, b: seq<Line>, id: string, worker: string)
    requires multiset(a) == multiset(b)
    ensures IpCounts(a, worker) == IpCounts(b, worker)
    ensures BagOf(a, WorkerBag) == BagOf(b, WorkerBag) && BagOf(a, FlowBag) == BagOf(b, FlowBag)
    ensures BagOf(a, RpcBag) == BagOf(b, RpcBag) && BagOf(a, ErrorBag) == BagOf(b, ErrorBag)
    ensures multiset(Flat(a, Latency)) == multiset(Flat(b, Latency))
    ensures TraceIn(a, id).lines == TraceIn(b, id).lines && TraceIn(a, id).workers == TraceIn(b, id).workers
    ensures Classify(TraceIn(a, id)) == Classify(TraceIn(b, id))
  {
    hide Classify, Bump;
    BagOfPermutation(a, b, (l: Line) => IpBag(l, worker));
    BagOfPermutation(a, b, WorkerBag);
    BagOfPermutation(a, b, FlowBag);
    BagOfPermutation(a, b, RpcBag);
    BagOfPermutation(a, b, ErrorBag);
    FlatPermutation(a, b, Latency);
    WherePermutation(a, b, TraceId, id);
    var as', bs := Where(a, TraceId, id), Where(b, TraceId, id);
    assert |multiset(as')| == |multiset(bs)|;
    BagOfPermutation(as', bs, WorkerBag);
    ClassificationIgnoresOrder(as', bs);
  }
}
