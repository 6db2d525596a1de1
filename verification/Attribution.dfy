/** Latency attribution: one client latency is split into seven exclusive stages,
    two later passes move time between stages, and a dominant problem is chosen.

    All times are integer nanoseconds, the six-decimal millisecond grid on which
    the rounding of the tool is the identity. */
module Attribution {
  import opened Basics
  import opened Ordering
  import opened Tally
  import UrmaWrites

  const MILLISECOND: int := 1_000_000

  // ---------------------------------------------------------------- stages

  datatype Stage = RpcNetwork | RpcQueue | QueryMeta | Urma | RemoteSupply | ParentWindow | Unexplained

  const STAGE_NAMES: seq<Stage> := [RpcNetwork, RpcQueue, QueryMeta, Urma, RemoteSupply, ParentWindow, Unexplained]

  datatype Stages = Stages(rpcNetwork: int, rpcQueue: int, queryMeta: int, urma: int,
                           remoteSupply: int, parentWindow: int, unexplained: int)
  {
    function At(stage: Stage): int {
      match stage
      case RpcNetwork => rpcNetwork
      case RpcQueue => rpcQueue
      case QueryMeta => queryMeta
      case Urma => urma
      case RemoteSupply => remoteSupply
      case ParentWindow => parentWindow
      case Unexplained => unexplained
    }

    function Total(): int {
      rpcNetwork + rpcQueue + queryMeta + urma + remoteSupply + parentWindow + unexplained
    }

    predicate NonNegative() {
      && rpcNetwork >= 0 && rpcQueue >= 0 && queryMeta >= 0 && urma >= 0
      && remoteSupply >= 0 && parentWindow >= 0 && unexplained >= 0
    }
  }

  /** Position of a stage in STAGE_NAMES. */
  function Rank(s: Stage): (i: nat)
    ensures i < 7 && STAGE_NAMES[i] == s
  {
    match s
    case RpcNetwork => 0
    case RpcQueue => 1
    case QueryMeta => 2
    case Urma => 3
    case RemoteSupply => 4
    case ParentWindow => 5
    case Unexplained => 6
  }

  /** A largest stage, and the first of those. */
  ghost predicate IsPrimary(st: Stages, p: Stage) {
    forall s: Stage :: st.At(s) <= st.At(p) && (Rank(s) < Rank(p) ==> st.At(s) < st.At(p))
  }

  /** `max(STAGE_NAMES, key=...)`: the scan keeps the earlier stage on a tie. */
  method PrimaryStage(st: Stages) returns (p: Stage)
    ensures IsPrimary(st, p)
  {
    p := STAGE_NAMES[0];
    for i := 1 to 7
      invariant Rank(p) < i
      invariant forall j :: 0 <= j < i ==> st.At(STAGE_NAMES[j]) <= st.At(p)
      invariant forall j :: 0 <= j < Rank(p) ==> st.At(STAGE_NAMES[j]) < st.At(p)
    {
      if st.At(STAGE_NAMES[i]) > st.At(p) {
        p := STAGE_NAMES[i];
        assert Rank(p) == i;
      }
    }
    forall s: Stage ensures st.At(s) <= st.At(p) && (Rank(s) < Rank(p) ==> st.At(s) < st.At(p)) {
      assert STAGE_NAMES[Rank(s)] == s;
    }
  }

  lemma PrimaryUnique(st: Stages, p: Stage, q: Stage)
    requires IsPrimary(st, p) && IsPrimary(st, q)
    ensures p == q
  {
    assert st.At(p) == st.At(q);
    assert Rank(p) == Rank(q);
    assert STAGE_NAMES[Rank(p)] == p && STAGE_NAMES[Rank(q)] == q;
  }

  /** The dominant stage holds at least one seventh of the total. */
  lemma PrimaryIsOneSeventh(st: Stages, p: Stage)
    requires IsPrimary(st, p)
    ensures 7 * st.At(p) >= st.Total()
  {
    assert forall s: Stage :: st.At(s) <= st.At(p);
    assert st.At(RpcNetwork) + st.At(RpcQueue) + st.At(QueryMeta) + st.At(Urma)
        + st.At(RemoteSupply) + st.At(ParentWindow) + st.At(Unexplained) == st.Total();
  }

  // ---------------------------------------------------------------- initial split

  /** What was measured for one trace; a missing data RPC counts as 0. */
  datatype Evidence = Evidence(client: int, clientNetwork: int, batchNetwork: int, dataNetwork: int, queue: int,
                               worker: int, queryMeta: int, urma: int, batchServer: int, dataServer: int)
  {
    predicate NonNegative() {
      && client >= 0 && clientNetwork >= 0 && batchNetwork >= 0 && dataNetwork >= 0 && queue >= 0
      && worker >= 0 && queryMeta >= 0 && urma >= 0 && batchServer >= 0 && dataServer >= 0
    }
  }

  /** Every stage by a formula over the evidence alone, without a running remainder. */
  function ClosedForm(e: Evidence): Stages {
    var network := e.clientNetwork + e.batchNetwork + e.dataNetwork;
    var nested := e.batchNetwork + e.dataNetwork + e.queue;
    var rpc := Min(e.client, network + e.queue);
    var unexplained := Max(0, e.client - e.clientNetwork - Max(nested, e.worker));
    var inWorker := e.client - rpc - unexplained;
    var query := Min(inWorker, e.queryMeta);
    var urma := Min(inWorker, e.queryMeta + e.urma) - query;
    var remote := Min(inWorker - query - urma, Max(0, Max(e.batchServer, e.dataServer) - urma));
    Stages(Min(e.client, network), rpc - Min(e.client, network), query, urma, remote,
           inWorker - query - urma - remote, unexplained)
  }

  /** The greedy split, step by step, each stage clipped to what is left. */
  method Split(e: Evidence) returns (st: Stages)
    // exact conservation, whatever the evidence
    ensures st.Total() == e.client
    ensures st.remoteSupply >= 0 && st.parentWindow >= 0 && st.unexplained >= 0
    ensures e.NonNegative() ==> st.NonNegative()
    ensures e.NonNegative() ==> st == ClosedForm(e)
  {
    var remaining := e.client;
    var clientNetwork := Min(remaining, e.clientNetwork);
    remaining := remaining - clientNetwork;
    var batchNetwork := Min(remaining, e.batchNetwork);
    remaining := remaining - batchNetwork;
    var dataNetwork := Min(remaining, e.dataNetwork);
    remaining := remaining - dataNetwork;
    var rpcNetwork := clientNetwork + batchNetwork + dataNetwork;
    var rpcQueue := Min(remaining, e.queue);
    remaining := remaining - rpcQueue;
    var workerNonNetwork := Max(0, e.worker - batchNetwork - dataNetwork - rpcQueue);
    var workerCap := Min(remaining, workerNonNetwork);
    var query := Min(workerCap, e.queryMeta);
    var afterQuery := workerCap - query;
    var urma := Min(afterQuery, e.urma);
    var afterUrma := Max(0, afterQuery - urma);
    var remoteCap := Max(0, Max(e.batchServer, e.dataServer) - urma);
    var remote := Min(afterUrma, remoteCap);
    var parent := Max(0, afterUrma - remote);
    remaining := remaining - workerCap;
    var unexplained := Max(0, remaining);
    st := Stages(rpcNetwork, rpcQueue, query, urma, remote, parent, unexplained);
  }

  /** In the initial split no measured stage gets more than its evidence, and the residual is what is left over. */
  lemma SplitWithinEvidence(e: Evidence)
    requires e.NonNegative()
    ensures var st := ClosedForm(e);
      && st.NonNegative() && st.Total() == e.client
      && st.rpcNetwork <= e.clientNetwork + e.batchNetwork + e.dataNetwork && st.rpcQueue <= e.queue
      && st.queryMeta <= e.queryMeta && st.urma <= e.urma
      && st.urma + st.remoteSupply <= Max(e.urma, Max(e.batchServer, e.dataServer))
      && st.queryMeta + st.urma + st.remoteSupply + st.parentWindow <= e.worker
      && (st.unexplained == 0 <==>
            e.client <= e.clientNetwork + Max(e.batchNetwork + e.dataNetwork + e.queue, e.worker))
  {
    var nested := e.batchNetwork + e.dataNetwork + e.queue;
    var rpc := Min(e.client, e.clientNetwork + nested);
    assert rpc == e.client || rpc == e.clientNetwork + nested;
  }

  // ---------------------------------------------------------------- moving time between stages

  /** What the URMA pass moves out of the parent window, given the critical path of the logical writes. */
  function UrmaMove(st: Stages, critical: int): int {
    Min(Max(0, critical - st.urma), st.parentWindow)
  }

  function MoveToUrma(st: Stages, critical: int): Stages {
    st.(urma := st.urma + UrmaMove(st, critical), parentWindow := st.parentWindow - UrmaMove(st, critical))
  }

  /** What the provider pass moves: provider time not explained by URMA. */
  function SupplyMove(st: Stages, provider: int, urma: int): int {
    Min(st.parentWindow, Max(0, provider - urma))
  }

  function MoveToSupply(st: Stages, provider: int, urma: int): Stages {
    st.(remoteSupply := st.remoteSupply + SupplyMove(st, provider, urma),
        parentWindow := st.parentWindow - SupplyMove(st, provider, urma))
  }

  /** After the URMA pass the URMA stage covers the critical path, or the parent window is used up; the stage grows no
      further than that, and a second pass changes nothing. */
  lemma UrmaCoversCriticalPath(st: Stages, critical: int)
    requires st.parentWindow >= 0
    ensures MoveToUrma(st, critical).urma >= critical || MoveToUrma(st, critical).parentWindow == 0
    ensures MoveToUrma(st, critical).urma == Max(st.urma, Min(critical, st.urma + st.parentWindow))
    ensures MoveToUrma(MoveToUrma(st, critical), critical) == MoveToUrma(st, critical)
  {
  }

  // ---------------------------------------------------------------- rows

  /** The labels a row can be filed under; `RpcDeadline` is an error family but not a problem name. */
  datatype Label = OfStage(stage: Stage) | UrmaTimeout | RpcDeadline

  const PROBLEM_NAMES: seq<Label> :=
    [OfStage(RpcNetwork), OfStage(RpcQueue), OfStage(QueryMeta), OfStage(Urma),
     OfStage(RemoteSupply), OfStage(ParentWindow), OfStage(Unexplained), UrmaTimeout]

  predicate IsProblemName(name: Label) { name in PROBLEM_NAMES }

  datatype Reason = DataRpcDeadline | UrmaConnectDeadline | QueryMetaDeadline | OtherDeadline

  /** What the log shows about errors: the URMA timeout wins, an RPC deadline counts only for a failed request. */
  datatype Errors = Errors(failed: bool, urmaTimeout: bool, deadline: Option<Reason>)

  function Family(x: Errors): Option<Label> {
    if x.urmaTimeout then Some(UrmaTimeout)
    else if x.failed && x.deadline.Some? then Some(RpcDeadline)
    else None
  }

  /** Evidence used only by the provider pass. */
  datatype Provider = Provider(outerE2e: int, outerServer: int, directGetData: int,
                               pull: Option<int>, finish: Option<int>)

  function OrZero(x: Option<int>): int { if x.None? then 0 else x.value }

  function ProviderTime(p: Provider): int { Max(Max(OrZero(p.pull), OrZero(p.finish)), 0) }

  /** The provider pass leaves the row alone when an earlier explanation applies. */
  predicate ProviderApplies(e: Evidence, x: Errors, p: Provider, critical: Option<int>) {
    var parent := if p.directGetData != 0 then p.directGetData else e.worker;
    && !x.urmaTimeout
    && !(Family(x) == Some(RpcDeadline) && !x.deadline.value.OtherDeadline?)
    && !(e.queue >= MILLISECOND && p.outerE2e != 0 && 2 * e.queue >= p.outerE2e)
    && !(e.clientNetwork >= Max(MILLISECOND, p.outerServer))
    && !(2 * e.queryMeta >= Max(2 * MILLISECOND, parent))
    && ProviderTime(p) >= MILLISECOND && 2 * OrZero(critical) < ProviderTime(p)
  }

  function CompleteWalls(groups: seq<UrmaWrites.Group>): (walls: seq<int>)
    ensures walls != [] <==> exists i :: 0 <= i < |groups| && UrmaWrites.WallClock(groups[i]).Some?
  {
    if groups == [] then []
    else
      var wall := UrmaWrites.WallClock(groups[|groups| - 1]);
      CompleteWalls(groups[..|groups| - 1]) + if wall.Some? then [wall.value] else []
  }

  /** Longest complete logical write, or the slowest request when no write is complete. */
  function CriticalPath(requests: seq<UrmaWrites.Chunk>): (r: Option<int>)
    ensures r.Some? <==> requests != []
  {
    if requests == [] then None
    else
      var walls := CompleteWalls(UrmaWrites.Groups(requests));
      if walls != [] then Some(Largest(walls)) else Some(Largest(UrmaWrites.Totals(requests)))
  }

  /** What the critical path is, over the reported writes: the wall clock of a complete write and at least that of
      every one, or, with none complete, the cost of a request and at least that of every one. */
  ghost predicate IsCritical(critical: int, writes: seq<UrmaWrites.Write>, requests: seq<UrmaWrites.Chunk>) {
    if exists i :: 0 <= i < |writes| && writes[i].complete then
      && (exists i :: 0 <= i < |writes| && writes[i].complete && writes[i].wallClock == Some(critical))
      && (forall i :: 0 <= i < |writes| && writes[i].complete ==>
            writes[i].wallClock.Some? && writes[i].wallClock.value <= critical)
    else
      UrmaWrites.SlowestOf(requests, critical)
  }

  /** The URMA stage holds the wall clock of every complete write, unless the parent window had no more to give. */
  ghost predicate CoversWrites(st: Stages, writes: seq<UrmaWrites.Write>) {
    st.parentWindow > 0 ==>
      forall i :: 0 <= i < |writes| && writes[i].wallClock.Some? ==> writes[i].wallClock.value <= st.urma
  }

  ghost predicate HasWall(writes: seq<UrmaWrites.Write>, v: int) {
    exists i :: 0 <= i < |writes| && writes[i].wallClock == Some(v)
  }

  lemma {:induction false} WallsOfWrites(groups: seq<UrmaWrites.Group>, writes: seq<UrmaWrites.Write>)
    requires |writes| == |groups|
    requires forall i :: 0 <= i < |writes| ==> writes[i].wallClock == UrmaWrites.WallClock(groups[i])
    ensures forall v :: v in CompleteWalls(groups) <==> HasWall(writes, v)
  {
    hide UrmaWrites.WallClock;
    if groups != [] {
      var n := |groups| - 1;
      WallsOfWrites(groups[..n], writes[..n]);
      var wall := UrmaWrites.WallClock(groups[n]);
      forall v ensures v in CompleteWalls(groups) <==> HasWall(writes, v) {
        if v in CompleteWalls(groups[..n]) {
          var i :| 0 <= i < n && writes[..n][i].wallClock == Some(v);
          assert writes[i].wallClock == Some(v);
        } else if wall == Some(v) {
          assert writes[n].wallClock == Some(v);
        }
        if i :| 0 <= i < |writes| && writes[i].wallClock == Some(v) {
          if i < n {
            assert writes[..n][i].wallClock == Some(v);
          }
        }
      }
    }
  }

  lemma LargestWall(writes: seq<UrmaWrites.Write>, walls: seq<int>, requests: seq<UrmaWrites.Chunk>)
    requires forall i :: 0 <= i < |writes| ==> (writes[i].complete <==> writes[i].wallClock.Some?)
    requires forall v :: v in walls <==> HasWall(writes, v)
    requires walls != []
    ensures IsCritical(Largest(walls), writes, requests)
  {
    var m := Largest(walls);
    assert m in walls;
    var k :| 0 <= k < |writes| && writes[k].wallClock == Some(m);
    assert writes[k].complete;
    forall i | 0 <= i < |writes| && writes[i].complete ensures writes[i].wallClock.value <= m {
      assert HasWall(writes, writes[i].wallClock.value);
    }
  }

  lemma WallShows(writes: seq<UrmaWrites.Write>, i: nat)
    requires i < |writes|
    ensures writes[i].wallClock.None? || HasWall(writes, writes[i].wallClock.value)
  {
  }

  lemma NoWall(writes: seq<UrmaWrites.Write>, walls: seq<int>, requests: seq<UrmaWrites.Chunk>)
    requires forall i :: 0 <= i < |writes| ==> (writes[i].complete <==> writes[i].wallClock.Some?)
    requires forall v :: v in walls <==> HasWall(writes, v)
    requires walls == [] && requests != []
    ensures IsCritical(Largest(UrmaWrites.Totals(requests)), writes, requests)
  {
    UrmaWrites.SlowestIs(requests);
    forall i | 0 <= i < |writes| ensures !writes[i].complete {
      WallShows(writes, i);
    }
  }

  lemma CompleteHasWall(writes: seq<UrmaWrites.Write>, requests: seq<UrmaWrites.Chunk>)
    requires UrmaWrites.WritesOf(writes, requests)
    ensures forall i :: 0 <= i < |writes| ==> (writes[i].complete <==> writes[i].wallClock.Some?)
  {
    forall i | 0 <= i < |writes| ensures writes[i].complete <==> writes[i].wallClock.Some? {
      assert UrmaWrites.Describes(writes[i], UrmaWrites.Groups(requests)[i]);
    }
  }

  /** `CriticalPath` is the critical path of the reported writes. */
  lemma CriticalPathIs(writes: seq<UrmaWrites.Write>, requests: seq<UrmaWrites.Chunk>)
    requires requests != [] && UrmaWrites.WritesOf(writes, requests)
    requires forall i :: 0 <= i < |writes| ==>
               writes[i].wallClock == UrmaWrites.WallClock(UrmaWrites.Groups(requests)[i])
    ensures IsCritical(CriticalPath(requests).value, writes, requests)
  {
    hide IsCritical, UrmaWrites.Groups, UrmaWrites.WallClock, CompleteWalls;
    var groups := UrmaWrites.Groups(requests);
    CompleteHasWall(writes, requests);
    WallsOfWrites(groups, writes);
    if CompleteWalls(groups) != [] {
      LargestWall(writes, CompleteWalls(groups), requests);
    } else {
      NoWall(writes, CompleteWalls(groups), requests);
    }
  }

  lemma NoRequests()
    ensures UrmaWrites.WritesOf([], [])
    ensures forall st :: CoversWrites(st, [])
  {
  }

  lemma CoversAll(st: Stages, critical: int, writes: seq<UrmaWrites.Write>, requests: seq<UrmaWrites.Chunk>)
    requires st.parentWindow >= 0 && UrmaWrites.WritesOf(writes, requests) && IsCritical(critical, writes, requests)
    ensures CoversWrites(MoveToUrma(st, critical), writes)
  {
    CompleteHasWall(writes, requests);
    hide UrmaWrites.WritesOf;
    UrmaCoversCriticalPath(st, critical);
  }

  /** The facts of a finished row that the report aggregates. */
  datatype RowFacts = RowFacts(id: string, timestamp: string, client: int, failed: bool,
                               stages: Stages, stage: Stage, problem: Label,
                               writes: seq<UrmaWrites.Write>, critical: Option<int>)

  lemma StageIsProblem(s: Stage)
    ensures IsProblemName(OfStage(s))
  {
    assert PROBLEM_NAMES[Rank(s)] == OfStage(s);
  }

  /** A row of the report, updated in place by each pass. */
  class Row {
    const evidence: Evidence
    const errors: Errors
    const initial: Stages
    var stages: Stages
    var primaryStage: Stage
    var primaryProblem: Label
    var writes: seq<UrmaWrites.Write>
    var critical: Option<int>

    /** What every pass keeps. */
    ghost predicate Valid()
      reads this
    {
      && stages.Total() == evidence.client
      && stages.parentWindow >= 0 && stages.remoteSupply >= 0 && stages.unexplained >= 0
      && (evidence.NonNegative() ==> stages.NonNegative())
      && IsPrimary(stages, primaryStage)
      && IsProblemName(primaryProblem)
      && (!errors.urmaTimeout ==> primaryProblem == OfStage(primaryStage))
      && (errors.urmaTimeout && errors.failed ==> primaryProblem == UrmaTimeout)
      && (errors.urmaTimeout && !errors.failed ==> primaryProblem.OfStage? && IsPrimary(initial, primaryProblem.stage))
    }

    function Facts(id: string, timestamp: string): RowFacts
      reads this
    {
      RowFacts(id, timestamp, evidence.client, errors.failed, stages, primaryStage, primaryProblem,
               writes, critical)
    }

    /** `_extract_trace`: the initial split and the choice of the dominant problem. */
    constructor (e: Evidence, x: Errors)
      ensures Valid() && evidence == e && errors == x && critical.None? && writes == [] && stages == initial
      ensures e.NonNegative() ==> stages == ClosedForm(e)
    {
      var st := Split(e);
      var p := PrimaryStage(st);
      var family := Family(x);
      var problem := if x.failed && family.Some? then family.value else OfStage(p);
      if family == Some(RpcDeadline) {
        problem := OfStage(p);
      }
      evidence, errors, initial := e, x, st;
      stages, primaryStage, primaryProblem, writes, critical := st, p, problem, [], None;
      StageIsProblem(p);
      assert PROBLEM_NAMES[7] == UrmaTimeout;
    }

    /** The URMA pass of `build_trace_rows`. */
    method ReattributeUrma(requests: seq<UrmaWrites.Chunk>)
      requires Valid() && stages == initial && critical.None? && writes == []
      modifies this
      ensures Valid() && critical == CriticalPath(requests) && UrmaWrites.WritesOf(writes, requests)
      ensures stages == if requests == [] then initial else MoveToUrma(initial, critical.value)
      // what the critical path is, and that the URMA stage now holds it as far as the parent window allows
      ensures critical.Some? <==> requests != []
      ensures critical.Some? ==> IsCritical(critical.value, writes, requests)
      ensures CoversWrites(stages, writes)
    {
      hide CriticalPath, IsPrimary, IsProblemName, IsCritical, CoversWrites, UrmaWrites.WritesOf;
      if requests == [] {
        NoRequests();
        return;
      }
      writes := UrmaWrites.LogicalWrites(requests);
      critical := CriticalPath(requests);
      CriticalPathIs(writes, requests);
      CoversAll(stages, critical.value, writes, requests);
      var oldUrma := stages.urma;
      var extra := Max(0, critical.value - oldUrma);
      if extra != 0 {
        var moved := Min(extra, stages.parentWindow);
        stages := stages.(urma := oldUrma + moved);
        stages := stages.(parentWindow := stages.parentWindow - moved);
        primaryStage := PrimaryStage(stages);
        StageIsProblem(primaryStage);
        if Family(errors).None? || Family(errors) == Some(RpcDeadline) {
          primaryProblem := OfStage(primaryStage);
        }
      }
    }

    /** `_refine_data_access_scope`, as far as it moves time. */
    method RefineProvider(p: Provider)
      requires Valid()
      modifies this
      ensures Valid() && critical == old(critical) && writes == old(writes)
      ensures stages == if ProviderApplies(evidence, errors, p, critical)
                        then MoveToSupply(old(stages), ProviderTime(p), OrZero(critical)) else old(stages)
    {
      hide IsPrimary, IsProblemName;
      if !ProviderApplies(evidence, errors, p, critical) {
        return;
      }
      var provider := ProviderTime(p);
      var movable := Min(stages.parentWindow, Max(0, provider - OrZero(critical)));
      stages := stages.(parentWindow := stages.parentWindow - movable);
      stages := stages.(remoteSupply := stages.remoteSupply + movable);
      primaryStage := PrimaryStage(stages);
      primaryProblem := OfStage(primaryStage);
      StageIsProblem(primaryStage);
    }
  }

  /** One trace through all passes. */
  datatype Trace = Trace(id: string, timestamp: string, evidence: Evidence, errors: Errors,
                         requests: seq<UrmaWrites.Chunk>, provider: Provider)

  /** The stages after all passes, starting from the initial split `st`. */
  function FinalStages(t: Trace, st: Stages): Stages {
    var critical := CriticalPath(t.requests);
    var afterUrma := if t.requests == [] then st else MoveToUrma(st, critical.value);
    if ProviderApplies(t.evidence, t.errors, t.provider, critical)
    then MoveToSupply(afterUrma, ProviderTime(t.provider), OrZero(critical)) else afterUrma
  }

  /** No earlier explanation of the trace stands: no URMA timeout, no failure on one of the three named deadlines, and
      neither the queue, nor the client's network, nor the metadata query takes the larger part of its window. */
  ghost predicate NothingElseExplains(e: Evidence, x: Errors, p: Provider) {
    && !x.urmaTimeout
    && (x.failed && x.deadline.Some? ==> x.deadline.value == OtherDeadline)
    && (e.queue < 1_000_000 || p.outerE2e == 0 || e.queue + e.queue < p.outerE2e)
    && (e.clientNetwork < 1_000_000 || e.clientNetwork < p.outerServer)
    && (e.queryMeta < 1_000_000
        || e.queryMeta + e.queryMeta < if p.directGetData == 0 then e.worker else p.directGetData)
  }

  /** Whatever the later passes do, four stages keep their time and URMA grows to the critical path as far as the parent
      window allows. */
  lemma LaterPassesKeep(t: Trace, st: Stages)
    requires st.parentWindow >= 0
    ensures var end := FinalStages(t, st);
      && end.Total() == st.Total()
      && end.rpcNetwork == st.rpcNetwork && end.rpcQueue == st.rpcQueue
      && end.queryMeta == st.queryMeta && end.unexplained == st.unexplained
      && (t.requests == [] ==> end.urma == st.urma)
      && (t.requests != [] ==>
            end.urma == Max(st.urma, Min(CriticalPath(t.requests).value, st.urma + st.parentWindow)))
      && st.remoteSupply <= end.remoteSupply && 0 <= end.parentWindow <= st.parentWindow
  {
    hide CriticalPath, ProviderApplies;
    if t.requests != [] {
      UrmaCoversCriticalPath(st, CriticalPath(t.requests).value);
    }
  }

  /** When remote supply gets time in the later passes, and how much: `v` is the longer of the two provider times, `c`
      the critical path, `left` the parent window that the URMA pass left. */
  lemma SupplyGrowsExactly(t: Trace, st: Stages, v: int, c: int, left: int)
    requires st.parentWindow >= 0
    requires t.provider.pull == Some(v) || t.provider.finish == Some(v)
    requires t.provider.pull.Some? ==> t.provider.pull.value <= v
    requires t.provider.finish.Some? ==> t.provider.finish.value <= v
    requires c == if t.requests == [] then 0 else CriticalPath(t.requests).value
    requires left == st.parentWindow + st.urma - FinalStages(t, st).urma
    ensures FinalStages(t, st).remoteSupply > st.remoteSupply <==>
            left > 0 && v >= 1_000_000 && 2 * c < v && NothingElseExplains(t.evidence, t.errors, t.provider)
    ensures FinalStages(t, st).remoteSupply > st.remoteSupply ==>
            FinalStages(t, st).remoteSupply == st.remoteSupply + Min(left, v - c)
  {
    hide CriticalPath;
  }

  /** Without a provider time nothing is moved to remote supply. */
  lemma NoProviderNoSupply(t: Trace, st: Stages)
    requires t.provider.pull.None? && t.provider.finish.None?
    ensures FinalStages(t, st).remoteSupply == st.remoteSupply
  {
    hide CriticalPath;
  }

  /** The logical writes and the critical path that a row carries. */
  ghost predicate Recorded(requests: seq<UrmaWrites.Chunk>, writes: seq<UrmaWrites.Write>, critical: Option<int>) {
    && UrmaWrites.WritesOf(writes, requests)
    && (critical.Some? <==> requests != [])
    && (critical.Some? ==> IsCritical(critical.value, writes, requests))
  }

  /** The pipeline for one trace: conservation, dominance and the problem label hold at the end. */
  method BuildRow(t: Trace) returns (row: Row)
    ensures fresh(row) && row.Valid() && row.evidence == t.evidence && row.errors == t.errors
    ensures row.stages == FinalStages(t, row.initial) && row.critical == CriticalPath(t.requests)
    ensures Recorded(t.requests, row.writes, row.critical) && CoversWrites(row.stages, row.writes)
    ensures t.evidence.NonNegative() ==> row.initial == ClosedForm(t.evidence)
    ensures 7 * row.stages.At(row.primaryStage) >= t.evidence.client
  {
    hide CriticalPath, IsCritical, UrmaWrites.WritesOf, ClosedForm, IsPrimary, ProviderApplies;
    row := new Row(t.evidence, t.errors);
    row.ReattributeUrma(t.requests);
    row.RefineProvider(t.provider);
    PrimaryIsOneSeventh(row.stages, row.primaryStage);
  }

  // ---------------------------------------------------------------- a successful trace with a URMA timeout

  /** When a stage loses its first place because `m` moves from the parent window to URMA. */
  predicate Overtaken(st: Stages, p: Stage, m: int) {
    match p
    case Urma => false
    case ParentWindow =>
      m > 0 && (var left := st.parentWindow - m;
        || st.rpcNetwork >= left || st.rpcQueue >= left || st.queryMeta >= left
        || st.urma + m >= left || st.remoteSupply >= left || st.unexplained > left)
    case _ => if Rank(p) < Rank(Urma) then st.urma + m > st.At(p) else st.urma + m >= st.At(p)
  }

  lemma ParentOvertaken(st: Stages, end: Stages, m: int)
    requires m >= 0 && IsPrimary(st, ParentWindow)
    requires end == st.(urma := st.urma + m, parentWindow := st.parentWindow - m)
    ensures IsPrimary(end, ParentWindow) <==> !Overtaken(st, ParentWindow, m)
  {
    assert end.At(RpcNetwork) == st.rpcNetwork && end.At(RpcQueue) == st.rpcQueue;
    assert end.At(QueryMeta) == st.queryMeta && end.At(RemoteSupply) == st.remoteSupply;
    assert end.At(Urma) == st.urma + m && end.At(Unexplained) == st.unexplained;
  }

  lemma OtherOvertaken(st: Stages, end: Stages, p: Stage, m: int)
    requires m >= 0 && IsPrimary(st, p) && p != ParentWindow
    requires end == st.(urma := st.urma + m, parentWindow := st.parentWindow - m)
    ensures IsPrimary(end, p) <==> !Overtaken(st, p, m)
  {
    assert forall s: Stage :: s != Urma && s != ParentWindow ==> end.At(s) == st.At(s);
    assert end.At(Urma) == st.urma + m && end.At(ParentWindow) == st.parentWindow - m;
    forall s: Stage ensures st.At(s) <= st.At(p) && (Rank(s) < Rank(p) ==> st.At(s) < st.At(p)) {}
  }

  lemma OvertakenExactly(st: Stages, p: Stage, critical: int)
    requires st.parentWindow >= 0 && IsPrimary(st, p)
    ensures IsPrimary(MoveToUrma(st, critical), p) <==> !Overtaken(st, p, UrmaMove(st, critical))
  {
    hide IsPrimary, Overtaken;
    if p == ParentWindow {
      ParentOvertaken(st, MoveToUrma(st, critical), UrmaMove(st, critical));
    } else {
      OtherOvertaken(st, MoveToUrma(st, critical), p, UrmaMove(st, critical));
    }
  }

  /** A request that succeeded although a URMA timeout was seen keeps the problem of the initial split:
      it names the final dominant stage exactly when the URMA pass did not overtake that stage. */
  lemma SuccessfulTimeoutProblem(t: Trace, st: Stages, initialStage: Stage, finalStage: Stage)
    requires t.errors.urmaTimeout && !t.errors.failed && t.requests != [] && st.parentWindow >= 0
    requires IsPrimary(st, initialStage) && IsPrimary(FinalStages(t, st), finalStage)
    ensures finalStage == initialStage <==>
            !Overtaken(st, initialStage, UrmaMove(st, CriticalPath(t.requests).value))
  {
    hide CriticalPath, IsPrimary, Overtaken;
    var critical := CriticalPath(t.requests).value;
    assert FinalStages(t, st) == MoveToUrma(st, critical);
    OvertakenExactly(st, initialStage, critical);
    if IsPrimary(MoveToUrma(st, critical), initialStage) {
      PrimaryUnique(MoveToUrma(st, critical), initialStage, finalStage);
    }
  }

  lemma OneUnindexedRequest(wr: UrmaWrites.Chunk)
    requires wr.count == 0
    ensures CriticalPath([wr]) == Some(wr.total)
  {
    assert UrmaWrites.Init([wr]) == [];
    assert UrmaWrites.Groups([wr]) == [[wr]];
    assert UrmaWrites.WallClock([wr]).None?;
    assert CompleteWalls([[wr]]) == [];
    assert UrmaWrites.Totals([wr]) == [wr.total];
  }

  lemma LargestIsPrimary(st: Stages, p: Stage)
    requires forall s: Stage :: s != p ==> st.At(s) < st.At(p)
    ensures IsPrimary(st, p)
  {
  }

  lemma UrmaOnlyEvidence(e: Evidence)
    requires e.NonNegative() && e.clientNetwork == e.batchNetwork == e.dataNetwork == e.queue == 0
    requires e.queryMeta == e.batchServer == e.dataServer == 0 && e.client == e.worker && e.urma <= e.worker
    ensures ClosedForm(e) == Stages(0, 0, 0, e.urma, 0, e.worker - e.urma, 0)
  {
  }

  /** The label can be stale: a request whose client window is all worker time, a small part of it URMA by the
      completion log, while its one work request took longer than half the window.  The parent window is
      dominant in the initial split and stays the problem; URMA is the dominant stage in the end. */
  lemma StaleProblemExample(t: Trace)
    requires t.errors.urmaTimeout && !t.errors.failed
    requires t.evidence == Evidence(10_000_000, 0, 0, 0, 0, 10_000_000, 0, 2_000_000, 0, 0)
    requires |t.requests| == 1 && t.requests[0].count == 0 && t.requests[0].total == 9_000_000
    ensures IsPrimary(ClosedForm(t.evidence), ParentWindow)
    ensures IsPrimary(FinalStages(t, ClosedForm(t.evidence)), Urma)
  {
    hide IsPrimary, CriticalPath, ClosedForm;
    UrmaOnlyEvidence(t.evidence);
    var st := ClosedForm(t.evidence);
    assert t.requests == [t.requests[0]];
    OneUnindexedRequest(t.requests[0]);
    assert FinalStages(t, st) == MoveToUrma(st, 9_000_000);
    LargestIsPrimary(st, ParentWindow);
    LargestIsPrimary(MoveToUrma(st, 9_000_000), Urma);
  }

  // ---------------------------------------------------------------- aggregation over all rows

  function CountProblem(rows: seq<RowFacts>, problem: Label): int {
    Part(rows, (r: RowFacts) => r.problem, (r: RowFacts) => 1, problem)
  }

  /** Time of one stage over the rows that failed, or those that succeeded. */
  function StageTime(rows: seq<RowFacts>, stage: Stage, failed: bool): int {
    SumBy(rows, (r: RowFacts) => if r.failed == failed then r.stages.At(stage) else 0)
  }

  function ClientTime(rows: seq<RowFacts>): int { SumBy(rows, (r: RowFacts) => r.client) }

  ghost predicate Finished(r: RowFacts) {
    r.stages.Total() == r.client && IsProblemName(r.problem)
  }

  lemma ProblemNamesDistinct()
    ensures Distinct(PROBLEM_NAMES)
  {
  }

  /** The problem counts partition the rows. */
  lemma ProblemsPartitionRows(rows: seq<RowFacts>)
    requires forall i :: 0 <= i < |rows| ==> Finished(rows[i])
    ensures SumBy(PROBLEM_NAMES, problem => CountProblem(rows, problem)) == |rows|
  {
    ProblemNamesDistinct();
    PartsAddUp(rows, (r: RowFacts) => r.problem, (r: RowFacts) => 1, PROBLEM_NAMES);
    SumBySame(PROBLEM_NAMES, problem => CountProblem(rows, problem),
              k => Part(rows, (r: RowFacts) => r.problem, (r: RowFacts) => 1, k));
    SumByOnes(rows, (r: RowFacts) => 1);
  }

  function BothTimes(rows: seq<RowFacts>, stage: Stage): int {
    StageTime(rows, stage, false) + StageTime(rows, stage, true)
  }

  lemma BothTimesSnoc(rows: seq<RowFacts>, r: RowFacts, stage: Stage)
    ensures BothTimes(rows + [r], stage) == BothTimes(rows, stage) + r.stages.At(stage)
  {
    SumBySnoc(rows, r, (r: RowFacts) => if r.failed == false then r.stages.At(stage) else 0);
    SumBySnoc(rows, r, (r: RowFacts) => if r.failed == true then r.stages.At(stage) else 0);
  }

  lemma SumOverStages(f: Stage -> int)
    ensures SumBy(STAGE_NAMES, f) == f(RpcNetwork) + f(RpcQueue) + f(QueryMeta) + f(Urma)
                                     + f(RemoteSupply) + f(ParentWindow) + f(Unexplained)
  {
    assert SumBy<Stage>([], f) == 0;
    SumBySnoc([], RpcNetwork, f);
    SumBySnoc([RpcNetwork], RpcQueue, f);
    SumBySnoc([RpcNetwork, RpcQueue], QueryMeta, f);
    SumBySnoc([RpcNetwork, RpcQueue, QueryMeta], Urma, f);
    SumBySnoc([RpcNetwork, RpcQueue, QueryMeta, Urma], RemoteSupply, f);
    SumBySnoc([RpcNetwork, RpcQueue, QueryMeta, Urma, RemoteSupply], ParentWindow, f);
    SumBySnoc([RpcNetwork, RpcQueue, QueryMeta, Urma, RemoteSupply, ParentWindow], Unexplained, f);
    hide SumBy;
    assert [] + [RpcNetwork] == [RpcNetwork];
    assert [RpcNetwork] + [RpcQueue] == [RpcNetwork, RpcQueue];
    assert [RpcNetwork, RpcQueue] + [QueryMeta] == [RpcNetwork, RpcQueue, QueryMeta];
    assert [RpcNetwork, RpcQueue, QueryMeta] + [Urma] == [RpcNetwork, RpcQueue, QueryMeta, Urma];
    assert [RpcNetwork, RpcQueue, QueryMeta, Urma] + [RemoteSupply]
        == [RpcNetwork, RpcQueue, QueryMeta, Urma, RemoteSupply];
    assert [RpcNetwork, RpcQueue, QueryMeta, Urma, RemoteSupply] + [ParentWindow]
        == [RpcNetwork, RpcQueue, QueryMeta, Urma, RemoteSupply, ParentWindow];
    assert [RpcNetwork, RpcQueue, QueryMeta, Urma, RemoteSupply, ParentWindow] + [Unexplained] == STAGE_NAMES;
  }

  /** The stage totals of the report, successes and failures together, add up to the client time of all rows. */
  lemma {:induction false} StageTotalsAddUp(rows: seq<RowFacts>)
    requires forall i :: 0 <= i < |rows| ==> Finished(rows[i])
    ensures SumBy(STAGE_NAMES, stage => BothTimes(rows, stage)) == ClientTime(rows)
  {
    if rows == [] {
      SumByZero(STAGE_NAMES, stage => BothTimes(rows, stage));
    } else {
      var init, r := rows[..|rows| - 1], rows[|rows| - 1];
      StageTotalsAddUp(init);
      LastOut(rows);
      assert Finished(r);
      forall stage ensures BothTimes(rows, stage) == BothTimes(init, stage) + r.stages.At(stage) {
        BothTimesSnoc(init, r, stage);
      }
      SumByPlus(STAGE_NAMES, stage => BothTimes(init, stage), stage => r.stages.At(stage),
                stage => BothTimes(rows, stage));
      SumOverStages(stage => r.stages.At(stage));
      SumBySnoc(init, r, (r: RowFacts) => r.client);
    }
  }

  /** `f` is the finished row of trace `t`. */
  ghost predicate RowOf(t: Trace, f: RowFacts) {
    && f.id == t.id && f.timestamp == t.timestamp && f.client == t.evidence.client && f.failed == t.errors.failed
    && Finished(f) && IsPrimary(f.stages, f.stage)
    && Recorded(t.requests, f.writes, f.critical) && CoversWrites(f.stages, f.writes)
    && (t.evidence.NonNegative() ==> f.stages == FinalStages(t, ClosedForm(t.evidence)))
    && (!t.errors.urmaTimeout ==> f.problem == OfStage(f.stage))
    && (t.errors.urmaTimeout && t.errors.failed ==> f.problem == UrmaTimeout)
    && (t.errors.urmaTimeout && !t.errors.failed ==> f.problem.OfStage?)
    && (t.errors.urmaTimeout && !t.errors.failed && t.evidence.NonNegative() ==>
          IsPrimary(ClosedForm(t.evidence), f.problem.stage))
  }

  /** The label reported for a successful request with a URMA timeout names the dominant stage reported exactly when the
      URMA pass did not overtake the stage that was dominant before. */
  lemma ReportedTimeoutProblem(t: Trace, f: RowFacts)
    requires RowOf(t, f) && t.errors.urmaTimeout && !t.errors.failed && t.evidence.NonNegative()
    ensures f.problem.OfStage?
    ensures f.problem == OfStage(f.stage) <==>
            t.requests == []
            || !Overtaken(ClosedForm(t.evidence), f.problem.stage,
                          UrmaMove(ClosedForm(t.evidence), CriticalPath(t.requests).value))
  {
    var st := ClosedForm(t.evidence);
    SplitWithinEvidence(t.evidence);
    hide IsPrimary, CriticalPath, ClosedForm, Overtaken;
    if t.requests == [] {
      PrimaryUnique(st, f.problem.stage, f.stage);
    } else {
      SuccessfulTimeoutProblem(t, st, f.problem.stage, f.stage);
    }
  }

  ghost predicate RowsOf(traces: seq<Trace>, rows: seq<RowFacts>) {
    |rows| == |traces| && forall i :: 0 <= i < |rows| ==> RowOf(traces[i], rows[i])
  }

  /** The order of the report: by timestamp, then by trace id, both strings. */
  predicate RowLe(a: RowFacts, b: RowFacts) {
    if a.timestamp == b.timestamp then StrLe(a.id, b.id) else StrLe(a.timestamp, b.timestamp)
  }

  lemma RowLeIsPreorder()
    ensures TotalPreorder(RowLe)
  {
    StrLeIsTotalOrder();
    hide StrLe;
  }

  lemma BuiltRow(t: Trace, f: RowFacts, initial: Stages)
    requires f.id == t.id && f.timestamp == t.timestamp && f.client == t.evidence.client && f.failed == t.errors.failed
    requires Finished(f) && IsPrimary(f.stages, f.stage) && f.stages == FinalStages(t, initial)
    requires t.evidence.NonNegative() ==> initial == ClosedForm(t.evidence)
    requires !t.errors.urmaTimeout ==> f.problem == OfStage(f.stage)
    requires t.errors.urmaTimeout && t.errors.failed ==> f.problem == UrmaTimeout
    requires t.errors.urmaTimeout && !t.errors.failed ==> f.problem.OfStage? && IsPrimary(initial, f.problem.stage)
    requires Recorded(t.requests, f.writes, f.critical) && CoversWrites(f.stages, f.writes)
    ensures RowOf(t, f)
  {
  }

  lemma RowsFinished(traces: seq<Trace>, built: seq<RowFacts>, rows: seq<RowFacts>)
    requires RowsOf(traces, built) && rows == Sort(built, RowLe)
    ensures forall i :: 0 <= i < |rows| ==> Finished(rows[i])
  {
    SortMembers(built, RowLe);
    forall i | 0 <= i < |rows| ensures Finished(rows[i]) {
      assert rows[i] in built;
      var j :| 0 <= j < |built| && built[j] == rows[i];
      assert RowOf(traces[j], built[j]);
    }
  }

  /** All traces through the pipeline, in report order; `built` are the rows in the order of the traces. */
  method BuildTraceRows(traces: seq<Trace>) returns (rows: seq<RowFacts>, ghost built: seq<RowFacts>)
    ensures RowsOf(traces, built) && multiset(rows) == multiset(built)
    ensures forall i, j :: 0 <= i < j < |rows| ==>
              if rows[i].timestamp == rows[j].timestamp then StrLe(rows[i].id, rows[j].id)
              else StrLe(rows[i].timestamp, rows[j].timestamp)
    ensures SumBy(PROBLEM_NAMES, problem => CountProblem(rows, problem)) == |traces|
    ensures SumBy(STAGE_NAMES, stage => BothTimes(rows, stage)) == ClientTime(built)
  {
    hide RowOf, ClosedForm, FinalStages, Recorded, CoversWrites, CriticalPath, StrLe;
    var facts := [];
    for k := 0 to |traces|
      invariant RowsOf(traces[..k], facts)
    {
      var row := BuildRow(traces[k]);
      var f := row.Facts(traces[k].id, traces[k].timestamp);
      BuiltRow(traces[k], f, row.initial);
      facts := facts + [f];
    }
    assert traces[..|traces|] == traces;
    built := facts;
    rows := Sort(facts, RowLe);
    RowLeIsPreorder();
    SortSorted(facts, RowLe);
    RowsFinished(traces, built, rows);
    ProblemsPartitionRows(rows);
    StageTotalsAddUp(rows);
    SumByPermutation(rows, built, (r: RowFacts) => r.client);
  }
}
