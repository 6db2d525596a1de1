/** `dscli start`: starting a worker with retries under a deadline, starting a
    coordinator, and starting both with cleanup. */
module StartService {
  import opened Basics
  import opened ServiceWorld
  import opened Text

  type Params = map<string, string>

  const STORE_LOCK_RETRY_INTERVAL: nat := 1_000_000_000
  const CLEANUP_WAIT: nat := 2_000_000_000
  const CLEANUP_CHECK_INTERVAL: nat := 100_000_000

  /** Why a start failed. */
  datatype Failure =
    | InvalidParams                    // ValueError before anything is started
    | AddressInUse                     // WorkerResourceConflictError
    | StoreLockUnavailable(retries: nat) // WorkerResourceConflictError
    | ExitedAbnormally(code: int)      // RuntimeError
    | NotReadyInTime                   // RuntimeError after SIGKILL
    | NeverAttempted                   // RuntimeError, the deadline had passed at once
    | KillRefused(pid: nat)            // os.kill raised PermissionError
    | SystemError                      // any other exception of the operating system

  datatype Outcome = Started(pid: nat) | Failed(why: Failure)

  datatype Verdict = Continue(retries: nat) | Raise(why: Failure)

  // ---------------------------------------------------------------- classifying process output

  function LowerChar(c: char): char {
    if 'A' <= c <= 'Z' then c - 'A' + 'a' else c
  }

  function Lower(s: string): string { seq(|s|, i requires 0 <= i < |s| => LowerChar(s[i])) }

  predicate IsAddressConflict(output: string) {
    var n := Lower(output);
    if Contains(n, "eaddrinuse") then true
    else if Contains(n, "already in use") then
      Contains(n, "address") || Contains(n, "port") || Contains(n, "bind")
    else
      Contains(n, "bind") && (Contains(n, "errno = 98") || Contains(n, "errno 98"))
  }

  predicate IsRetryableLock(output: string) {
    var n := Lower(output);
    && Contains(n, "lock file:")
    && Contains(n, "resource temporarily unavailable")
    && (Contains(n, "cannot open the key/value store") || Contains(n, "kv store error"))
  }

  function Get(params: Params, key: string): string {
    if key in params then params[key] else ""
  }

  function BackendCount(params: Params): nat {
    (if Get(params, "coordinator_address") != "" then 1 else 0)
    + (if Get(params, "etcd_address") != "" then 1 else 0)
    + (if Get(params, "metastore_address") != "" then 1 else 0)
  }

  // ---------------------------------------------------------------- what a run leaves in the log

  /** How often the metadata store lock was found to be held. */
  ghost function Conflicts(log: seq<Event>): nat {
    if log == [] then 0
    else
      var last := log[|log| - 1];
      Conflicts(log[..|log| - 1]) + if last == LockProbe(true) || last.LockConflictExit? then 1 else 0
  }

  lemma ConflictsAppend(log: seq<Event>, e: Event)
    ensures Conflicts(log + [e]) == Conflicts(log) + if e == LockProbe(true) || e.LockConflictExit? then 1 else 0
  {
    assert (log + [e])[..|log|] == log;
  }

  /** From position `from` on, every spawn directly follows a probe that found the lock free. */
  ghost predicate SpawnsAfterFreeLock(log: seq<Event>, from: nat) {
    forall i :: from <= i < |log| && (log[i].Spawned? || log[i].SpawnFailed?) ==>
      i > from && log[i - 1] == LockProbe(false)
  }

  /** The output of an exited worker says that the store lock was held. */
  ghost predicate LockHeldExit(p: Proc) {
    p.Exited? && IsRetryableLock(p.output) && !IsAddressConflict(p.output)
  }

  /** From position `from` on, every exit taken for a lock conflict is one. */
  ghost predicate ConflictsReal(log: seq<Event>, from: nat, procs: seq<Proc>) {
    forall i :: from <= i < |log| && log[i].LockConflictExit? ==>
      log[i].pid < |procs| && LockHeldExit(procs[log[i].pid])
  }

  /** What has exited stays as it is. */
  ghost predicate KeepsExits(procs: seq<Proc>, procs': seq<Proc>) {
    |procs| <= |procs'| && forall k :: 0 <= k < |procs| && procs[k].Exited? ==> procs'[k] == procs[k]
  }

  /** `after` extends `before`; in between nothing was spawned, and every lock conflict was one. */
  ghost predicate Quiet(before: seq<Event>, after: seq<Event>, procs: seq<Proc>) {
    && |before| <= |after| && after[..|before|] == before
    && (forall i :: |before| <= i < |after| ==> !after[i].Spawned? && !after[i].SpawnFailed?)
    && ConflictsReal(after, |before|, procs)
  }

  lemma QuietAppend(before: seq<Event>, after: seq<Event>, e: Event, procs: seq<Proc>, procs': seq<Proc>)
    requires Quiet(before, after, procs) && KeepsExits(procs, procs') && !e.Spawned? && !e.SpawnFailed?
    requires e.LockConflictExit? ==> e.pid < |procs'| && LockHeldExit(procs'[e.pid])
    ensures Quiet(before, after + [e], procs')
  {
    assert forall p :: LockHeldExit(p) ==> p.Exited?;
    hide LockHeldExit;
  }

  /** `after` extends `before` by process tables that differ from `procs` at most at `pid`. */
  ghost predicate OnlyChanges(before: seq<seq<Proc>>, after: seq<seq<Proc>>, procs: seq<Proc>, pid: nat) {
    && |before| <= |after| && after[..|before|] == before
    && forall i :: |before| <= i < |after| ==>
         |after[i]| == |procs| && forall k :: 0 <= k < |procs| && k != pid ==> after[i][k] == procs[k]
  }

  lemma OnlyChangesAppend(before: seq<seq<Proc>>, after: seq<seq<Proc>>, procs: seq<Proc>, pid: nat, p: Proc)
    requires OnlyChanges(before, after, procs, pid) && pid < |procs|
    ensures OnlyChanges(before, after + [procs[pid := p]], procs, pid)
  {
  }

  /** In every process table recorded from position `from` on, at most one process is alive. */
  ghost predicate NeverTwoAlive(history: seq<seq<Proc>>, from: nat, base: nat) {
    forall i :: from <= i < |history| ==> OneAlive(history[i], base)
  }

  // ---------------------------------------------------------------- handle_exited_worker_start

  ghost predicate LastProbe(probes: seq<Probe>, p: Probe) { |probes| > 0 && probes[|probes| - 1] == p }

  /** The exit of process `pid` is what the failure says it is. */
  ghost predicate ExitExplains(why: Failure, p: Proc, pid: nat, probes: seq<Probe>) {
    p.Exited? &&
    match why
    case SystemError => LastProbe(probes, OutputRead(pid, false))
    case AddressInUse => IsAddressConflict(p.output)
    case StoreLockUnavailable(_) => LockHeldExit(p)
    case ExitedAbnormally(code) => code == p.code && !IsRetryableLock(p.output) && !IsAddressConflict(p.output)
    case _ => false
  }

  lemma ExitExplainsKinds(why: Failure, p: Proc, pid: nat, probes: seq<Probe>)
    requires ExitExplains(why, p, pid, probes)
    ensures p.Exited? && !why.NeverAttempted? && !why.KillRefused? && !why.NotReadyInTime? && !why.InvalidParams?
  {
  }

  /** Classify the exit of a worker: running on, worth another attempt, or an error. */
  method HandleExitedWorkerStart(w: World, pid: nat, retries: nat, retryable: bool) returns (v: Verdict)
    requires pid < |w.procs| && !w.procs[pid].Killed?
    modifies w`log, w`procs, w`history, w`probes
    ensures |w.procs| == |old(w.procs)| && w.procs == old(w.procs)[pid := w.procs[pid]]
    ensures old(w.procs[pid]).Exited? ==> w.procs == old(w.procs)
    ensures w.history == old(w.history) + [w.procs]
    ensures v == Continue(retries) <==> w.procs[pid].Running?
    ensures v == Continue(retries) ==> w.log == old(w.log) + [Polled(pid, false)]
    ensures v.Continue? && v.retries != retries ==>
              && retryable && v.retries == retries + 1 && w.procs[pid].Exited?
              && LockHeldExit(w.procs[pid])
              && w.log == old(w.log) + [Polled(pid, true)] + [LockConflictExit(pid)]
    ensures v.Raise? ==> ExitExplains(v.why, w.procs[pid], pid, w.probes)
    ensures v.Raise? && v.why.StoreLockUnavailable? ==>
              && !retryable && v.why.retries == retries + 1
              && w.log == old(w.log) + [Polled(pid, true)] + [LockConflictExit(pid)]
    ensures v.Raise? && !v.why.StoreLockUnavailable? ==> w.log == old(w.log) + [Polled(pid, true)]
  {
    var code := w.Poll(pid);
    if code.None? {
      return Continue(retries);
    }
    var output := w.Communicate(pid);
    if output.None? {
      return Raise(SystemError);
    }
    if IsAddressConflict(output.value) {
      return Raise(AddressInUse);
    }
    if IsRetryableLock(output.value) {
      w.log := w.log + [LockConflictExit(pid)];
      if retryable {
        return Continue(retries + 1);
      }
      return Raise(StoreLockUnavailable(retries + 1));
    }
    return Raise(ExitedAbnormally(code.value));
  }

  // ---------------------------------------------------------------- start_worker

  ghost predicate KillWasRefused(log: seq<Event>, pid: nat) {
    |log| > 0 && var e := log[|log| - 1]; e.Signalled? && e.pid == pid && e.signal == Kill && e.result == Refused
  }

  /** Where a run began, among the events and the naps, and when it is to end. */
  datatype Watch = Watch(events: nat, naps: nat, deadline: int)

  ghost predicate RunningPoll(e: Event) { e.Polled? && !e.exited }

  ghost predicate LateKill(e: Event, deadline: int) { e.Signalled? && e.signal == Kill && e.at >= deadline }

  /** What follows a poll that found the worker running: a look for the ready file or, at the deadline, SIGKILL. */
  ghost predicate FollowsUp(e: Event, deadline: int) { e.ReadyProbe? || LateKill(e, deadline) }

  /** A sleep of a second, or of what is left until the deadline, right after the ready file was not there or the store
      lock was held. */
  ghost predicate ShortNap(nap: Nap, log: seq<Event>, deadline: int) {
    && nap.duration == Min(1_000_000_000, Max(0, deadline - nap.at)) && 0 < nap.events <= |log|
    && var e := log[nap.events - 1]; e == ReadyProbe(false) || e == LockProbe(true) || e.LockConflictExit?
  }

  /** No running poll before position `upTo` goes without its follow-up, and no nap comes out of place. */
  ghost predicate Attentive(watch: Watch, log: seq<Event>, naps: seq<Nap>, upTo: nat) {
    && watch.events <= |log| && watch.naps <= |naps| && upTo <= |log|
    && (forall i :: watch.events <= i < upTo && RunningPoll(log[i]) ==>
          i + 1 < |log| && FollowsUp(log[i + 1], watch.deadline))
    && (forall j :: watch.naps <= j < |naps| ==> ShortNap(naps[j], log, watch.deadline))
  }

  lemma AttentiveNext(watch: Watch, log: seq<Event>, naps: seq<Nap>, upTo: nat, e: Event)
    requires Attentive(watch, log, naps, upTo) && |log| - 1 <= upTo
    requires upTo < |log| ==> FollowsUp(e, watch.deadline)
    ensures Attentive(watch, log + [e], naps, if RunningPoll(e) then |log| else |log| + 1)
  {
    forall j | watch.naps <= j < |naps| ensures ShortNap(naps[j], log + [e], watch.deadline) {
      assert ShortNap(naps[j], log, watch.deadline);
    }
  }

  lemma AttentiveNap(watch: Watch, log: seq<Event>, naps: seq<Nap>, nap: Nap)
    requires Attentive(watch, log, naps, |log|) && ShortNap(nap, log, watch.deadline)
    ensures Attentive(watch, log, naps + [nap], |log|)
  {
  }

  /** There is a deadline, no earlier than asked for, that the whole run keeps to. */
  ghost predicate Punctual(events: nat, naps0: nat, earliest: int, log: seq<Event>, naps: seq<Nap>) {
    exists deadline :: deadline >= earliest && Attentive(Watch(events, naps0, deadline), log, naps, |log|)
  }

  lemma KeptDeadline(watch: Watch, earliest: int, log: seq<Event>, naps: seq<Nap>)
    requires Attentive(watch, log, naps, |log|) && watch.deadline >= earliest
    ensures Punctual(watch.events, watch.naps, earliest, log, naps)
  {
    assert watch == Watch(watch.events, watch.naps, watch.deadline);
  }

  /** The ready file was seen. */
  ghost predicate SawFile(log: seq<Event>, from: nat) {
    exists i :: from <= i < |log| && log[i] == ReadyProbe(true)
  }

  lemma SawFileNext(log: seq<Event>, from: nat, e: Event)
    requires from <= |log|
    ensures SawFile(log + [e], from) <==> SawFile(log, from) || e == ReadyProbe(true)
  {
    if SawFile(log, from) {
      var i :| from <= i < |log| && log[i] == ReadyProbe(true);
      assert (log + [e])[i] == ReadyProbe(true);
    }
    assert (log + [e])[|log|] == e;
  }

  /** One more event; `upTo` is as in `Attentive`. */
  lemma WatchNext(watch: Watch, log: seq<Event>, naps: seq<Nap>, upTo: nat, e: Event)
    requires Attentive(watch, log, naps, upTo) && |log| - 1 <= upTo
    requires upTo < |log| ==> FollowsUp(e, watch.deadline)
    ensures Attentive(watch, log + [e], naps, if RunningPoll(e) then |log| else |log| + 1)
    ensures SawFile(log + [e], watch.events) <==> SawFile(log, watch.events) || e == ReadyProbe(true)
  {
    AttentiveNext(watch, log, naps, upTo, e);
    SawFileNext(log, watch.events, e);
  }

  lemma NothingSeen(watch: Watch, log: seq<Event>, naps: seq<Nap>)
    requires watch.events == |log| && watch.naps == |naps|
    ensures Attentive(watch, log, naps, |log|) && !SawFile(log, watch.events)
  {
  }

  /** How the wait for a spawned worker ends, and how a whole attempt ends. */
  datatype Wait = BecameReady | StillRunning | LockHeld(retries: nat) | WaitError(why: Failure)
  datatype Attempt = Ready(pid: nat) | TryAgain(retries: nat) | Error(why: Failure)

  ghost predicate SawReady(log: seq<Event>, pid: nat) {
    |log| >= 2 && log[|log| - 2..] == [Polled(pid, false), ReadyProbe(true)]
  }

  /** Poll the worker and, when it has exited, have the exit classified. */
  method PollWorker(w: World, pid: nat, retries: nat, retryable: bool,
                    ghost log0: seq<Event>, ghost history0: seq<seq<Proc>>, ghost procs0: seq<Proc>, ghost watch: Watch)
    returns (a: Wait)
    requires pid < |w.procs| && w.procs[pid].Running? && w.procs == procs0
    requires OnlyChanges(history0, w.history, procs0, pid) && Quiet(log0, w.log, w.procs)
    requires Attentive(watch, w.log, w.naps, |w.log|) && !SawFile(w.log, watch.events)
    modifies w`log, w`procs, w`history, w`probes
    ensures |w.log| > 0 && !SawFile(w.log, watch.events)
    ensures Attentive(watch, w.log, w.naps, if a.StillRunning? then |w.log| - 1 else |w.log|)
    ensures |w.procs| == |procs0| && w.procs == procs0[pid := w.procs[pid]]
    ensures OnlyChanges(history0, w.history, procs0, pid) && Quiet(log0, w.log, w.procs)
    ensures !a.BecameReady?
    ensures a.StillRunning? ==> w.procs == procs0 && w.log == old(w.log) + [Polled(pid, false)]
                                && Conflicts(w.log) == old(Conflicts(w.log))
    ensures a.LockHeld? ==> |w.log| > 0 && w.log[|w.log| - 1].LockConflictExit?
    ensures a.LockHeld? ==> retryable && LockHeldExit(w.procs[pid]) && a.retries == retries + 1
                            && Conflicts(w.log) == old(Conflicts(w.log)) + 1
    ensures a.WaitError? ==> ExitExplains(a.why, w.procs[pid], pid, w.probes)
    ensures a.WaitError? && a.why.StoreLockUnavailable? ==>
              !retryable && a.why.retries == retries + 1 && Conflicts(w.log) == old(Conflicts(w.log)) + 1
    ensures a.WaitError? && !a.why.StoreLockUnavailable? ==> Conflicts(w.log) == old(Conflicts(w.log))
  {
    hide Quiet, OnlyChanges, Conflicts, IsAddressConflict, IsRetryableLock, Attentive, SawFile;
    ghost var log1, history1 := w.log, w.history;
    var code := w.Poll(pid);
    WatchNext(watch, log1, w.naps, |log1|, Polled(pid, code.Some?));
    ConflictsAppend(log1, Polled(pid, code.Some?));
    QuietAppend(log0, log1, Polled(pid, code.Some?), procs0, w.procs);
    OnlyChangesAppend(history0, history1, procs0, pid, w.procs[pid]);
    if code.None? {
      assert w.procs == procs0;
      return StillRunning;
    }
    ghost var log2, history2, procs2 := w.log, w.history, w.procs;
    var v := HandleExitedWorkerStart(w, pid, retries, retryable);
    WatchNext(watch, log2, w.naps, |log2|, Polled(pid, true));
    WatchNext(watch, log2 + [Polled(pid, true)], w.naps, |log2| + 1, LockConflictExit(pid));
    ConflictsAppend(log2, Polled(pid, true));
    QuietAppend(log0, log2, Polled(pid, true), procs2, w.procs);
    ConflictsAppend(log2 + [Polled(pid, true)], LockConflictExit(pid));
    if LockHeldExit(w.procs[pid]) {
      QuietAppend(log0, log2 + [Polled(pid, true)], LockConflictExit(pid), w.procs, w.procs);
    }
    OnlyChangesAppend(history0, history2, procs0, pid, w.procs[pid]);
    match v
    case Raise(why) => a := WaitError(why);
    case Continue(next) => a := LockHeld(next);
  }

  /** One round of the wait: poll, look for the ready file, sleep. */
  method ReadyRound(w: World, pid: nat, deadline: int, retries: nat,
                    ghost log0: seq<Event>, ghost history0: seq<seq<Proc>>, ghost procs0: seq<Proc>, ghost watch: Watch)
    returns (a: Wait)
    requires pid < |w.procs| && w.procs[pid].Running? && w.procs == procs0 && w.clock < deadline
    requires OnlyChanges(history0, w.history, procs0, pid) && Quiet(log0, w.log, w.procs)
    requires Attentive(watch, w.log, w.naps, |w.log|) && !SawFile(w.log, watch.events) && watch.deadline == deadline
    modifies w
    ensures Attentive(watch, w.log, w.naps, |w.log|) && (a.BecameReady? <==> SawFile(w.log, watch.events))
    ensures w.clock >= old(w.clock)
    ensures |w.procs| == |procs0| && w.procs == procs0[pid := w.procs[pid]]
    ensures OnlyChanges(history0, w.history, procs0, pid) && Quiet(log0, w.log, w.procs)
    ensures a.BecameReady? ==> w.procs == procs0 && SawReady(w.log, pid) && Conflicts(w.log) == old(Conflicts(w.log))
    ensures a.StillRunning? ==> w.procs == procs0 && w.clock > old(w.clock) && Conflicts(w.log) == old(Conflicts(w.log))
    ensures a.LockHeld? ==> |w.log| > 0 && w.log[|w.log| - 1].LockConflictExit?
    ensures a.LockHeld? ==> LockHeldExit(w.procs[pid]) && a.retries == retries + 1
                            && Conflicts(w.log) == old(Conflicts(w.log)) + 1
    ensures a.WaitError? ==> ExitExplains(a.why, w.procs[pid], pid, w.probes) && !a.why.StoreLockUnavailable?
                             && Conflicts(w.log) == old(Conflicts(w.log))
  {
    hide Quiet, OnlyChanges, Conflicts, ExitExplains, Attentive, SawFile;
    a := PollWorker(w, pid, retries, true, log0, history0, procs0, watch);
    if !a.StillRunning? {
      return;
    }
    ghost var log1 := w.log;
    var seen := w.ReadyFileExists();
    WatchNext(watch, log1, w.naps, |log1| - 1, ReadyProbe(seen));
    ConflictsAppend(log1, ReadyProbe(seen));
    QuietAppend(log0, log1, ReadyProbe(seen), w.procs, w.procs);
    if seen {
      return BecameReady;
    }
    var now := w.Monotonic();
    ghost var naps1 := w.naps;
    w.Sleep(Min(Seconds(1), Max(0, deadline - now)));
    AttentiveNap(watch, w.log, naps1, w.naps[|naps1|]);
  }

  /** Wait for the worker just spawned to become ready (the inner loop and what follows it). */
  method AwaitReady(w: World, pid: nat, deadline: int, retries: nat, ghost watch: Watch) returns (a: Wait)
    requires pid < |w.procs| && w.procs[pid].Running?
    requires Attentive(watch, w.log, w.naps, |w.log|) && !SawFile(w.log, watch.events) && watch.deadline == deadline
    modifies w
    ensures a.BecameReady? <==> SawFile(w.log, watch.events)
    ensures a.StillRunning? ==> |w.log| > 0
    ensures Attentive(watch, w.log, w.naps, if a.StillRunning? then |w.log| - 1 else |w.log|)
    ensures w.clock >= old(w.clock)
    ensures |w.procs| == |old(w.procs)| && w.procs == old(w.procs)[pid := w.procs[pid]]
    ensures OnlyChanges(old(w.history), w.history, old(w.procs), pid)
    ensures Quiet(old(w.log), w.log, w.procs)
    ensures a.BecameReady? ==> w.procs[pid].Running? && SawReady(w.log, pid)
    ensures a.BecameReady? || a.StillRunning? ==> Conflicts(w.log) == old(Conflicts(w.log))
    ensures a.StillRunning? ==> w.procs[pid].Running? && w.clock >= deadline
    ensures a.LockHeld? ==> |w.log| > 0 && w.log[|w.log| - 1].LockConflictExit?
    ensures a.LockHeld? ==> LockHeldExit(w.procs[pid]) && a.retries == retries + 1
                            && Conflicts(w.log) == old(Conflicts(w.log)) + 1
    ensures a.WaitError? ==> ExitExplains(a.why, w.procs[pid], pid, w.probes)
    ensures a.WaitError? && a.why.StoreLockUnavailable? ==>
              a.why.retries == retries + 1 && Conflicts(w.log) == old(Conflicts(w.log)) + 1 && w.clock >= deadline
    ensures a.WaitError? && !a.why.StoreLockUnavailable? ==> Conflicts(w.log) == old(Conflicts(w.log))
  {
    ghost var log0, history0, procs0 := w.log, w.history, w.procs;
    assert Quiet(log0, log0, procs0) && OnlyChanges(history0, history0, procs0, pid);
    hide Quiet, OnlyChanges, Conflicts, ExitExplains, SawReady, Attentive, SawFile;
    while true
      invariant w.clock >= old(w.clock)
      invariant w.procs == procs0
      invariant OnlyChanges(history0, w.history, procs0, pid)
      invariant Quiet(log0, w.log, w.procs) && Conflicts(w.log) == Conflicts(log0)
      invariant Attentive(watch, w.log, w.naps, |w.log|) && !SawFile(w.log, watch.events)
      decreases Max(0, deadline - w.clock)
    {
      var now := w.Monotonic();
      if now >= deadline {
        break;
      }
      a := ReadyRound(w, pid, deadline, retries, log0, history0, procs0, watch);
      if !a.StillRunning? {
        return;
      }
    }
    a := PollWorker(w, pid, retries, false, log0, history0, procs0, watch);
  }

  /** While only the newest worker changes, no two workers are alive. */
  lemma TablesStayLone(base: nat, pid: nat, procs: seq<Proc>, h0: seq<seq<Proc>>, h1: seq<seq<Proc>>, from: nat)
    requires base <= pid && pid + 1 == |procs| && NoneAlive(procs[..pid], base)
    requires from <= |h0| && NeverTwoAlive(h0, from, base) && OnlyChanges(h0, h1, procs, pid)
    ensures |h0| <= |h1| && NeverTwoAlive(h1, from, base)
  {
    forall i | from <= i < |h1| ensures OneAlive(h1[i], base) {
      if i < |h0| {
        assert h1[i] == h0[i];
      } else {
        forall k | base <= k < pid ensures !h1[i][k].Running? {
          assert h1[i][k] == procs[k] == procs[..pid][k];
        }
      }
    }
  }

  lemma QuietKeepsSpawns(log0: seq<Event>, log1: seq<Event>, procs: seq<Proc>, from: nat)
    requires from <= |log0| && SpawnsAfterFreeLock(log0, from) && Quiet(log0, log1, procs)
    ensures SpawnsAfterFreeLock(log1, from)
  {
    assert forall i :: 0 <= i < |log0| ==> log1[i] == log0[i];
  }

  lemma QuietKeepsConflicts(log0: seq<Event>, procs0: seq<Proc>, log1: seq<Event>, procs1: seq<Proc>, from: nat)
    requires from <= |log0| && ConflictsReal(log0, from, procs0)
    requires Quiet(log0, log1, procs1) && KeepsExits(procs0, procs1)
    ensures ConflictsReal(log1, from, procs1)
  {
    assert forall i :: 0 <= i < |log0| ==> log1[i] == log0[i];
    assert forall p :: LockHeldExit(p) ==> p.Exited?;
    hide LockHeldExit;
  }

  /** `log` extends `log0`; every spawn since then comes directly after a free lock probe (if probed at all), and every
      exit taken for a lock conflict is one. */
  ghost predicate GoodLog(log0: seq<Event>, log: seq<Event>, probed: bool, procs: seq<Proc>) {
    && |log0| <= |log| && log[..|log0|] == log0
    && (probed ==> SpawnsAfterFreeLock(log, |log0|))
    && ConflictsReal(log, |log0|, procs)
  }

  lemma GoodLogQuiet(log0: seq<Event>, log1: seq<Event>, procs1: seq<Proc>, log2: seq<Event>, procs2: seq<Proc>,
                     probed: bool)
    requires GoodLog(log0, log1, probed, procs1) && Quiet(log1, log2, procs2) && KeepsExits(procs1, procs2)
    ensures GoodLog(log0, log2, probed, procs2)
  {
    assert log2[..|log0|] == log2[..|log1|][..|log0|];
    if probed {
      QuietKeepsSpawns(log1, log2, procs2, |log0|);
    }
    QuietKeepsConflicts(log1, procs1, log2, procs2, |log0|);
  }

  lemma GoodLogSpawn(log0: seq<Event>, log1: seq<Event>, procs1: seq<Proc>, e: Event, procs2: seq<Proc>, probed: bool)
    requires GoodLog(log0, log1, probed, procs1) && (e.Spawned? || e.SpawnFailed?) && procs1 <= procs2
    requires probed ==> |log0| < |log1| && log1[|log1| - 1] == LockProbe(false)
    ensures GoodLog(log0, log1 + [e], probed, procs2)
  {
    hide LockHeldExit;
  }

  lemma GoodLogProbe(log0: seq<Event>, log1: seq<Event>, procs: seq<Proc>, busy: bool, probed: bool)
    requires GoodLog(log0, log1, probed, procs)
    ensures GoodLog(log0, log1 + [LockProbe(busy)], probed, procs) && |log0| < |log1 + [LockProbe(busy)]|
  {
    hide LockHeldExit;
  }

  /** Of the processes spawned since `base`, no two were ever alive together. */
  ghost predicate LoneWorkers(base: nat, procs: seq<Proc>, from: nat, history: seq<seq<Proc>>) {
    from <= |history| && NeverTwoAlive(history, from, base) && base <= |procs|
  }

  /** Success means that the latest worker was polled as running in the iteration that saw the ready file. */
  ghost predicate SuccessIsLive(pid: nat, base: nat, procs: seq<Proc>, log: seq<Event>) {
    && pid + 1 == |procs| && pid >= base && procs[pid].Running? && NoneAlive(procs[..pid], base)
    && SawReady(log, pid)
  }

  /** After a failure every worker spawned has exited or was killed; when the kill was refused, the last one runs on. */
  ghost predicate FailureLeavesNothing(why: Failure, base: nat, procs: seq<Proc>, log: seq<Event>) {
    if why.KillRefused? then
      && why.pid + 1 == |procs| && procs[why.pid].Running? && NoneAlive(procs[..why.pid], base)
      && KillWasRefused(log, why.pid)
    else NoneAlive(procs, base)
  }

  ghost predicate KillSent(log: seq<Event>, pid: nat) {
    |log| > 0 && var e := log[|log| - 1]; e.Signalled? && e.pid == pid && e.signal == Kill && e.result != Refused
  }

  /** Every failure of an attempt, or of the whole loop, has a cause that was seen; `late` says that the deadline
      has passed. */
  ghost predicate Caused(why: Failure, base: nat, procs: seq<Proc>, log: seq<Event>, probes: seq<Probe>, late: bool) {
    var latest := |procs| - 1;
    match why
    case InvalidParams => false
    case NeverAttempted => late
    case NotReadyInTime => late && base <= latest && KillSent(log, latest)
    case KillRefused(pid) => late && pid == latest && KillWasRefused(log, pid)
    case StoreLockUnavailable(_) => late
    case SystemError =>
      || (log != [] && log[|log| - 1] == SpawnFailed)
      || (base <= latest && ExitExplains(why, procs[latest], latest, probes))
    case _ => base <= latest && ExitExplains(why, procs[latest], latest, probes)
  }

  lemma QuietOne(log: seq<Event>, e: Event, procs: seq<Proc>)
    requires !e.Spawned? && !e.SpawnFailed? && !e.LockConflictExit?
    ensures Quiet(log, log + [e], procs)
  {
  }

  lemma SpawnStaysLone(base: nat, procs: seq<Proc>, procs': seq<Proc>, history: seq<seq<Proc>>, from: nat)
    requires LoneWorkers(base, procs, from, history) && NoneAlive(procs, base)
    requires procs' == procs || procs' == procs + [Running]
    ensures LoneWorkers(base, procs', from, history + [procs'])
  {
  }

  /** SIGKILL for a worker that is still not ready. */
  method KillAtDeadline(w: World, pid: nat, ghost base: nat, ghost log0: seq<Event>, ghost from: nat,
                        ghost probed: bool, ghost watch: Watch)
    returns (why: Failure)
    requires |w.log| > 0 && Attentive(watch, w.log, w.naps, |w.log| - 1) && w.clock >= watch.deadline
    requires LoneWorkers(base, w.procs, from, w.history) && GoodLog(log0, w.log, probed, w.procs)
    requires base <= pid && pid + 1 == |w.procs| && w.procs[pid].Running? && NoneAlive(w.procs[..pid], base)
    modifies w`log, w`procs, w`history
    ensures Attentive(watch, w.log, w.naps, |w.log|)
    ensures SawFile(w.log, watch.events) <==> old(SawFile(w.log, watch.events))
    ensures LoneWorkers(base, w.procs, from, w.history) && GoodLog(log0, w.log, probed, w.procs)
    ensures |w.procs| == |old(w.procs)| && w.procs[..pid] == old(w.procs)[..pid]
    ensures FailureLeavesNothing(why, base, w.procs, w.log)
    ensures Conflicts(w.log) == old(Conflicts(w.log))
    ensures (why == NotReadyInTime && KillSent(w.log, pid)) || (why == KillRefused(pid) && KillWasRefused(w.log, pid))
  {
    hide GoodLog, Quiet, Conflicts, Attentive, SawFile;
    ghost var log1, procs1, history1 := w.log, w.procs, w.history;
    var result := w.Send(pid, Kill);
    WatchNext(watch, log1, w.naps, |log1| - 1, w.log[|log1|]);
    ConflictsAppend(log1, w.log[|log1|]);
    QuietOne(log1, w.log[|log1|], w.procs);
    GoodLogQuiet(log0, log1, procs1, w.log, w.procs, probed);
    assert OnlyChanges(history1, w.history, procs1, pid);
    TablesStayLone(base, pid, procs1, history1, w.history, from);
    assert w.procs[..pid] == procs1[..pid];
    why := if result.Refused? then KillRefused(pid) else NotReadyInTime;
  }

  /** Spawn a worker, wait for it and kill it if it is still not ready at the deadline. */
  method AttemptStart(w: World, deadline: int, retries: nat,
                      ghost base: nat, ghost log0: seq<Event>, ghost from: nat, ghost probed: bool, ghost watch: Watch)
    returns (a: Attempt)
    requires LoneWorkers(base, w.procs, from, w.history) && NoneAlive(w.procs, base)
    requires GoodLog(log0, w.log, probed, w.procs)
    requires probed ==> |log0| < |w.log| && w.log[|w.log| - 1] == LockProbe(false)
    requires Attentive(watch, w.log, w.naps, |w.log|) && !SawFile(w.log, watch.events) && watch.deadline == deadline
    modifies w
    ensures Attentive(watch, w.log, w.naps, |w.log|) && (a.Ready? <==> SawFile(w.log, watch.events))
    ensures a.TryAgain? ==> |w.log| > 0 && w.log[|w.log| - 1].LockConflictExit?
    ensures w.clock >= old(w.clock)
    ensures LoneWorkers(base, w.procs, from, w.history) && base <= |w.procs| <= |old(w.procs)| + 1
    ensures old(w.procs) <= w.procs
    ensures GoodLog(log0, w.log, probed, w.procs)
    ensures a.Ready? ==> SuccessIsLive(a.pid, base, w.procs, w.log)
    ensures a.TryAgain? ==> NoneAlive(w.procs, base) && a.retries == retries + 1
                            && Conflicts(w.log) == old(Conflicts(w.log)) + 1
    ensures a.Error? ==> FailureLeavesNothing(a.why, base, w.procs, w.log)
    ensures a.Error? ==> !a.why.NeverAttempted? && Caused(a.why, base, w.procs, w.log, w.probes, w.clock >= deadline)
    ensures a.Error? && a.why.StoreLockUnavailable? ==>
              a.why.retries == retries + 1 && Conflicts(w.log) == old(Conflicts(w.log)) + 1
    ensures a.Ready? || (a.Error? && !a.why.StoreLockUnavailable?) ==> Conflicts(w.log) == old(Conflicts(w.log))
  {
    hide Conflicts, Quiet, GoodLog, ExitExplains, SawReady, IsRetryableLock, IsAddressConflict, KillSent,
         KillWasRefused, OnlyChanges, Attentive, SawFile;
    ghost var log1, procs1, history1 := w.log, w.procs, w.history;
    var spawned := w.Spawn();
    ghost var log2, procs2, history2 := w.log, w.procs, w.history;
    WatchNext(watch, log1, w.naps, |log1|, log2[|log1|]);
    ConflictsAppend(log1, log2[|log1|]);
    GoodLogSpawn(log0, log1, procs1, log2[|log1|], procs2, probed);
    SpawnStaysLone(base, procs1, procs2, history1, from);
    if spawned.None? {
      return Error(SystemError);
    }
    var pid := spawned.value;
    var wait := AwaitReady(w, pid, deadline, retries, watch);
    GoodLogQuiet(log0, log2, procs2, w.log, w.procs, probed);
    assert procs2[..pid] == procs1;
    TablesStayLone(base, pid, procs2, history2, w.history, from);
    assert w.procs[..pid] == procs1;
    match wait
    case BecameReady => a := Ready(pid);
    case LockHeld(next) => a := TryAgain(next);
    case WaitError(why) =>
      a := Error(why);
      ExitExplainsKinds(why, w.procs[pid], pid, w.probes);
    case StillRunning =>
      var why := KillAtDeadline(w, pid, base, log0, from, probed, watch);
      assert w.procs[..pid] == procs1;
      a := Error(why);
  }

  /** At most one lock conflict per second of the timeout; the retry count reported is how many there were; the plain
      timeout means that no attempt was made. */
  ghost predicate HonestReport(o: Outcome, log0: seq<Event>, log: seq<Event>, timeout: int) {
    && 0 <= Conflicts(log) - Conflicts(log0) <= Max(0, timeout)
    && (o.Failed? && o.why.StoreLockUnavailable? ==> 1 <= o.why.retries == Conflicts(log) - Conflicts(log0))
    && (o.Failed? && o.why.NeverAttempted? ==> log == log0)
  }

  /** One iteration up to its sleep: look at the store lock and, if it is free, attempt a start. */
  method RetryRound(w: World, deadline: int, retries: nat, probed: bool,
                    ghost base: nat, ghost log0: seq<Event>, ghost from: nat, ghost watch: Watch)
    returns (a: Attempt)
    requires LoneWorkers(base, w.procs, from, w.history) && NoneAlive(w.procs, base)
    requires GoodLog(log0, w.log, probed, w.procs)
    requires Attentive(watch, w.log, w.naps, |w.log|) && !SawFile(w.log, watch.events) && watch.deadline == deadline
    modifies w
    ensures Attentive(watch, w.log, w.naps, |w.log|) && (a.Ready? <==> SawFile(w.log, watch.events))
    ensures a.TryAgain? ==>
              |w.log| > 0 && var e := w.log[|w.log| - 1]; e == LockProbe(true) || e.LockConflictExit?
    ensures w.clock >= old(w.clock)
    ensures LoneWorkers(base, w.procs, from, w.history) && GoodLog(log0, w.log, probed, w.procs)
    ensures old(w.procs) <= w.procs && |w.procs| <= |old(w.procs)| + 1
    ensures a.Ready? ==> SuccessIsLive(a.pid, base, w.procs, w.log)
    ensures a.TryAgain? ==> NoneAlive(w.procs, base) && a.retries == retries + 1
                            && Conflicts(w.log) == old(Conflicts(w.log)) + 1
    ensures a.Error? ==> FailureLeavesNothing(a.why, base, w.procs, w.log)
    ensures a.Error? ==> !a.why.NeverAttempted? && Caused(a.why, base, w.procs, w.log, w.probes, w.clock >= deadline)
    ensures a.Error? && a.why.StoreLockUnavailable? ==>
              a.why.retries == retries + 1 && Conflicts(w.log) == old(Conflicts(w.log)) + 1
    ensures a.Ready? || (a.Error? && !a.why.StoreLockUnavailable?) ==> Conflicts(w.log) == old(Conflicts(w.log))
  {
    hide Conflicts, GoodLog, NoneAlive, LoneWorkers, SuccessIsLive, FailureLeavesNothing, Caused, Attentive, SawFile;
    if probed {
      ghost var log1 := w.log;
      var busy := w.ProbeLock();
      WatchNext(watch, log1, w.naps, |log1|, LockProbe(busy));
      ConflictsAppend(log1, LockProbe(busy));
      GoodLogProbe(log0, log1, w.procs, busy, probed);
      if busy {
        return TryAgain(retries + 1);
      }
    }
    a := AttemptStart(w, deadline, retries, base, log0, from, probed, watch);
  }

  lemma CausedLater(why: Failure, base: nat, procs: seq<Proc>, log: seq<Event>, probes: seq<Probe>, late: bool,
                    later: bool)
    requires Caused(why, base, procs, log, probes, late) && (late ==> later)
    ensures Caused(why, base, procs, log, probes, later)
  {
  }

  lemma GaveUp(why: Failure, base: nat, procs: seq<Proc>, log: seq<Event>, probes: seq<Probe>, late: bool)
    requires late && NoneAlive(procs, base) && (why.StoreLockUnavailable? || why.NeverAttempted?)
    ensures Caused(why, base, procs, log, probes, late) && FailureLeavesNothing(why, base, procs, log)
  {
  }

  lemma NothingStarted(log: seq<Event>, probed: bool, procs: seq<Proc>, history: seq<seq<Proc>>)
    ensures GoodLog(log, log, probed, procs)
    ensures LoneWorkers(|procs|, procs, |history|, history) && NoneAlive(procs, |procs|)
  {
  }

  /** The pause before the next attempt. */
  method Backoff(w: World, deadline: int, ghost watch: Watch)
    requires Attentive(watch, w.log, w.naps, |w.log|) && watch.deadline == deadline
    requires |w.log| > 0 && var e := w.log[|w.log| - 1]; e == LockProbe(true) || e.LockConflictExit?
    modifies w`clock, w`naps
    ensures Attentive(watch, w.log, w.naps, |w.log|)
    ensures w.clock >= deadline || w.clock >= old(w.clock) + Seconds(1)
    ensures w.clock >= old(w.clock)
  {
    var now := w.Monotonic();
    ghost var naps := w.naps;
    w.Sleep(Min(STORE_LOCK_RETRY_INTERVAL, Max(0, deadline - now)));
    hide Attentive;
    AttentiveNap(watch, w.log, naps, w.naps[|naps|]);
  }

  /** The loop of `start_worker`: attempts until the deadline, a second apart, while the store lock is held. */
  method RetryUntilDeadline(w: World, probed: bool, timeout: int) returns (o: Outcome)
    modifies w
    ensures LoneWorkers(|old(w.procs)|, w.procs, |old(w.history)|, w.history)
    ensures old(w.procs) <= w.procs && |w.procs| <= |old(w.procs)| + Max(0, timeout)
    ensures GoodLog(old(w.log), w.log, probed, w.procs)
    ensures o.Started? ==> SuccessIsLive(o.pid, |old(w.procs)|, w.procs, w.log)
    ensures o.Failed? ==> FailureLeavesNothing(o.why, |old(w.procs)|, w.procs, w.log)
    ensures HonestReport(o, old(w.log), w.log, timeout)
    ensures o.Started? <==> SawFile(w.log, |old(w.log)|)
    ensures Punctual(|old(w.log)|, |old(w.naps)|, old(w.clock) + Seconds(timeout), w.log, w.naps)
    ensures o.Failed? ==> Caused(o.why, |old(w.procs)|, w.procs, w.log, w.probes,
                                 w.clock >= old(w.clock) + Seconds(timeout))
  {
    hide Conflicts, GoodLog, NoneAlive, LoneWorkers, SuccessIsLive, FailureLeavesNothing, Caused, Attentive, SawFile,
         Punctual;
    ghost var base, log0, from := |w.procs|, w.log, |w.history|;
    NothingStarted(log0, probed, w.procs, w.history);
    var start := w.Monotonic();
    var deadline := start + Seconds(timeout);
    ghost var watch := Watch(|w.log|, |w.naps|, deadline);
    NothingSeen(watch, w.log, w.naps);
    var lastConflict := false;
    var retries := 0;
    while true
      // each iteration that comes back was one lock conflict and took at least a second
      invariant 0 <= retries <= Max(0, timeout)
      invariant w.clock >= deadline || w.clock >= start + Seconds(retries)
      invariant retries == Conflicts(w.log) - Conflicts(log0)
      invariant lastConflict <==> retries > 0
      invariant retries == 0 ==> w.log == log0
      invariant LoneWorkers(base, w.procs, from, w.history) && NoneAlive(w.procs, base)
      invariant old(w.procs) <= w.procs && |w.procs| <= base + retries
      invariant GoodLog(log0, w.log, probed, w.procs)
      invariant Attentive(watch, w.log, w.naps, |w.log|) && !SawFile(w.log, watch.events)
      decreases Max(0, deadline - w.clock)
    {
      var now := w.Monotonic();
      if now >= deadline {
        break;
      }
      var a := RetryRound(w, deadline, retries, probed, base, log0, from, watch);
      KeptDeadline(watch, old(w.clock) + Seconds(timeout), w.log, w.naps);
      if a.Ready? {
        return Started(a.pid);
      }
      if a.Error? {
        CausedLater(a.why, base, w.procs, w.log, w.probes, w.clock >= deadline,
                    w.clock >= old(w.clock) + Seconds(timeout));
        return Failed(a.why);
      }
      lastConflict := true;
      retries := a.retries;
      Backoff(w, deadline, watch);
    }
    o := Failed(if lastConflict then StoreLockUnavailable(retries) else NeverAttempted);
    GaveUp(o.why, base, w.procs, w.log, w.probes, w.clock >= old(w.clock) + Seconds(timeout));
    KeptDeadline(watch, old(w.clock) + Seconds(timeout), w.log, w.naps);
  }

  /** What the answers to the checks before the first attempt amount to. */
  ghost predicate PreflightFails(why: Failure, params: Params, probes: seq<Probe>) {
    if BackendCount(params) != 1 || Get(params, "worker_address") == "" then why == InvalidParams
    else
      || (why == InvalidParams && LastProbe(probes, AddressChecked(false)))
      || (why == AddressInUse && LastProbe(probes, Connected(true)))
      || (why == SystemError && LastProbe(probes, CommandBuilt(false)))
      || (why == SystemError && LastProbe(probes, CommandBuilt(true)) && Get(params, "ready_check_path") == "")
      || (why == SystemError && LastProbe(probes, FileRemoved(false)))
  }

  /** The checks before the first attempt. */
  method Preflight(w: World, params: Params) returns (failure: Option<Failure>)
    modifies w`probes
    ensures failure.Some? ==> PreflightFails(failure.value, params, w.probes)
    ensures failure.None? ==>
              && BackendCount(params) == 1
              && Get(params, "worker_address") != "" && Get(params, "ready_check_path") != ""
              && w.probes == old(w.probes) +
                   [AddressChecked(true), Connected(false), CommandBuilt(true), FileRemoved(true)]
  {
    if BackendCount(params) != 1 || Get(params, "worker_address") == "" {
      return Some(InvalidParams);
    }
    var valid := w.AddressIsValid();
    if !valid {
      return Some(InvalidParams);
    }
    var inUse := w.Connects();
    if inUse {
      return Some(AddressInUse);
    }
    var built := w.CommandBuilds();
    if !built {
      return Some(SystemError);
    }
    if Get(params, "ready_check_path") == "" {
      return Some(SystemError);
    }
    var removed := w.RemoveFile();
    return if removed then None else Some(SystemError);
  }

  method StartWorker(w: World, params: Params, timeout: int) returns (o: Outcome)
    modifies w
    // at most one worker is alive at any time, and at most one is spawned per second of the timeout
    ensures LoneWorkers(|old(w.procs)|, w.procs, |old(w.history)|, w.history)
    ensures old(w.procs) <= w.procs && |w.procs| <= |old(w.procs)| + Max(0, timeout)
    // a worker is spawned only when the store lock was just seen free
    ensures GoodLog(old(w.log), w.log, Get(params, "rocksdb_store_dir") != "", w.procs)
    ensures o.Started? ==> SuccessIsLive(o.pid, |old(w.procs)|, w.procs, w.log)
    ensures o.Failed? ==> FailureLeavesNothing(o.why, |old(w.procs)|, w.procs, w.log)
    ensures HonestReport(o, old(w.log), w.log, timeout)
    // it succeeds exactly when it sees the ready file; it looks after every poll that finds the worker running, sends
    // SIGKILL only at the deadline, and sleeps only after a look, for a second or until the deadline
    ensures o.Started? <==> SawFile(w.log, |old(w.log)|)
    ensures Punctual(|old(w.log)|, |old(w.naps)|, old(w.clock) + Seconds(timeout), w.log, w.naps)
    // every failure has a cause that was seen, before the first attempt or in the loop
    ensures o.Failed? ==>
              || (w.log == old(w.log) && PreflightFails(o.why, params, w.probes))
              || Caused(o.why, |old(w.procs)|, w.procs, w.log, w.probes, w.clock >= old(w.clock) + Seconds(timeout))
    ensures BackendCount(params) != 1 ==> o == Failed(InvalidParams) && w.log == old(w.log)
  {
    var failure := Preflight(w, params);
    if failure.Some? {
      ghost var watch := Watch(|w.log|, |w.naps|, old(w.clock) + Seconds(timeout));
      NothingSeen(watch, w.log, w.naps);
      KeptDeadline(watch, watch.deadline, w.log, w.naps);
      return Failed(failure.value);
    }
    var probed := Get(params, "rocksdb_store_dir") != "";
    hide *;
    o := RetryUntilDeadline(w, probed, timeout);
  }

  // ---------------------------------------------------------------- start_coordinator

  /** Why the wait for a coordinator failed. */
  ghost predicate WaitCaused(why: Failure, pid: nat, procs: seq<Proc>, log: seq<Event>, probes: seq<Probe>)
    requires pid < |procs|
  {
    match why
    case ExitedAbnormally(code) => procs[pid].Exited? && procs[pid].code == code
    case SystemError => procs[pid].Exited? && LastProbe(probes, OutputRead(pid, false))
    case NotReadyInTime => !procs[pid].Running? && KillSent(log, pid)
    case KillRefused(p) => p == pid && procs[pid].Running? && KillWasRefused(log, pid)
    case _ => false
  }

  /** Every failure to start the coordinator has a cause that was seen, before or after it was spawned. */
  ghost predicate CoordinatorCaused(why: Failure, params: Params, base: nat, procs: seq<Proc>, log: seq<Event>,
                                    probes: seq<Probe>)
  {
    if base < |procs| then WaitCaused(why, base, procs, log, probes)
    else
      match why
      case InvalidParams => Get(params, "coordinator_address") == "" || LastProbe(probes, AddressChecked(false))
      case AddressInUse => LastProbe(probes, Connected(true))
      case SystemError => LastProbe(probes, CommandBuilt(false)) || (log != [] && log[|log| - 1] == SpawnFailed)
      case _ => false
  }

  /** Nobody looked for a ready file. */
  ghost predicate NoLooks(log: seq<Event>, from: nat) { forall i :: from <= i < |log| ==> !log[i].ReadyProbe? }

  /** The coordinator accepted a connection. */
  ghost predicate Answered(probes: seq<Probe>, from: nat) {
    exists i :: from <= i < |probes| && probes[i] == Connected(true)
  }

  /** A sleep of a second, right after the coordinator was polled as running and refused a connection. */
  ghost predicate PatientNap(nap: Nap, log: seq<Event>, probes: seq<Probe>, pid: nat) {
    && nap.duration == Seconds(1) && 0 < nap.events <= |log| && 0 < nap.answers <= |probes|
    && log[nap.events - 1] == Polled(pid, false) && probes[nap.answers - 1] == Connected(false)
  }

  ghost predicate PatientNaps(naps: seq<Nap>, from: nat, log: seq<Event>, probes: seq<Probe>, pid: nat) {
    forall j :: from <= j < |naps| ==> PatientNap(naps[j], log, probes, pid)
  }

  lemma AnsweredNext(probes: seq<Probe>, from: nat, p: Probe)
    requires from <= |probes|
    ensures Answered(probes + [p], from) <==> Answered(probes, from) || p == Connected(true)
  {
    if Answered(probes, from) {
      var i :| from <= i < |probes| && probes[i] == Connected(true);
      assert (probes + [p])[i] == Connected(true);
    }
    assert (probes + [p])[|probes|] == p;
  }

  lemma PatientLater(naps: seq<Nap>, from: nat, log: seq<Event>, probes: seq<Probe>, pid: nat,
                     log': seq<Event>, probes': seq<Probe>)
    requires PatientNaps(naps, from, log, probes, pid) && log <= log' && probes <= probes'
    ensures PatientNaps(naps, from, log', probes', pid)
  {
    forall j | from <= j < |naps| ensures PatientNap(naps[j], log', probes', pid) {
      assert PatientNap(naps[j], log, probes, pid);
    }
  }

  /** One round of the wait; `NotReadyInTime` stands for "not yet". */
  method CoordinatorProbe(w: World, pid: nat, ghost from: nat) returns (o: Outcome)
    requires pid + 1 == |w.procs| && w.procs[pid].Running?
    requires from <= |w.probes| && !Answered(w.probes, from)
    modifies w`log, w`procs, w`history, w`probes
    ensures |w.procs| == |old(w.procs)| && w.procs[..pid] == old(w.procs)[..pid]
    ensures old(w.log) <= w.log && NoLooks(w.log, |old(w.log)|) && old(w.probes) <= w.probes
    ensures o.Started? <==> Answered(w.probes, from) && w.procs[pid].Running?
    ensures o == Failed(NotReadyInTime) ==>
              && !Answered(w.probes, from)
              && w.log == old(w.log) + [Polled(pid, false)] && w.probes == old(w.probes) + [Connected(false)]
    ensures o.Started? ==> o.pid == pid && w.procs == old(w.procs)
                           && w.log == old(w.log) + [Polled(pid, false), Polled(pid, false)]
                           && w.probes == old(w.probes) + [Connected(true)]
    ensures o == Failed(NotReadyInTime) ==> w.procs == old(w.procs)
    ensures o.Failed? && o.why != NotReadyInTime ==>
              && w.procs[pid].Exited?
              && (o.why == ExitedAbnormally(w.procs[pid].code)
                  || (o.why == SystemError && LastProbe(w.probes, OutputRead(pid, false))))
  {
    hide Answered;
    ghost var probes1 := w.probes;
    var code := w.Poll(pid);
    if code.None? {
      var connects := w.Connects();
      AnsweredNext(probes1, from, Connected(connects));
      if !connects {
        return Failed(NotReadyInTime);
      }
      code := w.Poll(pid);
      if code.None? {
        return Started(pid);
      }
    }
    ghost var probes2 := w.probes;
    var output := w.Communicate(pid);
    AnsweredNext(probes2, from, OutputRead(pid, output.Some?));
    return Failed(if output.None? then SystemError else ExitedAbnormally(code.value));
  }

  lemma OneMoreNap(naps: seq<Nap>, from: nat, log: seq<Event>, probes: seq<Probe>, pid: nat, nap: Nap)
    requires PatientNaps(naps, from, log, probes, pid) && PatientNap(nap, log, probes, pid)
    ensures PatientNaps(naps + [nap], from, log, probes, pid)
  {
  }

  /** Wait for the coordinator just spawned, one probe a second, and kill it when it is not ready in time. */
  method AwaitCoordinator(w: World, pid: nat, timeout: int) returns (o: Outcome)
    requires pid + 1 == |w.procs| && w.procs[pid].Running?
    modifies w
    ensures |w.procs| == |old(w.procs)| && w.procs[..pid] == old(w.procs)[..pid]
    ensures w.clock >= old(w.clock) && old(w.log) <= w.log && old(w.probes) <= w.probes && old(w.naps) <= w.naps
    ensures NoLooks(w.log, |old(w.log)|)
    ensures o.Started? <==> Answered(w.probes, |old(w.probes)|) && w.procs[pid].Running?
    ensures PatientNaps(w.naps, |old(w.naps)|, w.log, w.probes, pid)
    ensures o.Failed? && (o.why.NotReadyInTime? || o.why.KillRefused?) ==> |w.naps| == |old(w.naps)| + Max(0, timeout)
    ensures o.Started? ==> o.pid == pid && w.procs == old(w.procs)
                           && |w.log| > 0 && w.log[|w.log| - 1] == Polled(pid, false)
                           && LastProbe(w.probes, Connected(true))
                           && |w.log| - |old(w.log)| == |w.naps| - |old(w.naps)| + 2
                           && |w.probes| - |old(w.probes)| == |w.naps| - |old(w.naps)| + 1
    ensures o.Failed? ==> WaitCaused(o.why, pid, w.procs, w.log, w.probes)
    ensures o.Failed? && (o.why.NotReadyInTime? || o.why.KillRefused?) ==>
              w.clock >= old(w.clock) + Seconds(Max(0, timeout)) && |w.log| > |old(w.log)|
  {
    ghost var from := |w.probes|;
    assert !Answered(w.probes, from) && PatientNaps(w.naps, |w.naps|, w.log, w.probes, pid);
    hide Answered, PatientNaps;
    var i := 0;
    while i < timeout
      invariant 0 <= i <= Max(0, timeout)
      invariant w.procs == old(w.procs)
      invariant w.clock >= old(w.clock) + Seconds(i) && old(w.log) <= w.log && NoLooks(w.log, |old(w.log)|)
      invariant old(w.probes) <= w.probes && !Answered(w.probes, from)
      invariant old(w.naps) <= w.naps && |w.naps| == |old(w.naps)| + i
      invariant |w.log| == |old(w.log)| + i && |w.probes| == |old(w.probes)| + i
      invariant PatientNaps(w.naps, |old(w.naps)|, w.log, w.probes, pid)
    {
      ghost var log1, probes1, naps1 := w.log, w.probes, w.naps;
      o := CoordinatorProbe(w, pid, from);
      PatientLater(naps1, |old(w.naps)|, log1, probes1, pid, w.log, w.probes);
      if o.Started? || !o.why.NotReadyInTime? {
        return;
      }
      w.Sleep(Seconds(1));
      OneMoreNap(naps1, |old(w.naps)|, w.log, w.probes, pid, w.naps[|naps1|]);
      i := i + 1;
    }
    ghost var log2 := w.log;
    var result := w.Send(pid, Kill);
    PatientLater(w.naps, |old(w.naps)|, log2, w.probes, pid, w.log, w.probes);
    o := Failed(if result.Refused? then KillRefused(pid) else NotReadyInTime);
  }

  lemma AnsweredSince(probes: seq<Probe>, from: nat, later: nat)
    requires from <= later <= |probes| && forall i :: from <= i < later ==> probes[i] != Connected(true)
    ensures Answered(probes, from) <==> Answered(probes, later)
  {
  }

  /** The checks before the coordinator is spawned. */
  method CoordinatorPreflight(w: World, params: Params) returns (failure: Option<Failure>)
    modifies w`probes
    ensures failure.Some? ==>
      match failure.value
      case InvalidParams => Get(params, "coordinator_address") == "" || LastProbe(w.probes, AddressChecked(false))
      case AddressInUse => LastProbe(w.probes, Connected(true))
      case SystemError => LastProbe(w.probes, CommandBuilt(false))
      case _ => false
    ensures failure.None? ==>
              && Get(params, "coordinator_address") != ""
              && w.probes == old(w.probes) + [AddressChecked(true), Connected(false), CommandBuilt(true)]
  {
    if Get(params, "coordinator_address") == "" {
      return Some(InvalidParams);
    }
    var valid := w.AddressIsValid();
    if !valid {
      return Some(InvalidParams);
    }
    var inUse := w.Connects();
    if inUse {
      return Some(AddressInUse);
    }
    var built := w.CommandBuilds();
    return if built then None else Some(SystemError);
  }

  /** Start the coordinator and wait, one probe a second, until it accepts connections. */
  method StartCoordinator(w: World, params: Params, timeout: int) returns (o: Outcome)
    modifies w
    ensures old(w.procs) <= w.procs && |w.procs| <= |old(w.procs)| + 1
    ensures w.clock >= old(w.clock) && old(w.log) <= w.log && NoLooks(w.log, |old(w.log)|)
    ensures o.Failed? && o.why.KillRefused? ==> |w.log| > |old(w.log)|
    // success: it was polled as running, once in every round and once more after it accepted a connection
    ensures o.Started? ==> o.pid == |old(w.procs)| && w.procs == old(w.procs) + [Running]
                           && |w.log| > 0 && w.log[|w.log| - 1] == Polled(o.pid, false)
                           && LastProbe(w.probes, Connected(true))
                           && |w.log| - |old(w.log)| == |w.naps| - |old(w.naps)| + 3
                           && |w.probes| - |old(w.probes)| == |w.naps| - |old(w.naps)| + 4
    ensures o.Failed? ==> CoordinatorCaused(o.why, params, |old(w.procs)|, w.procs, w.log, w.probes)
    // failure: it has exited or was killed, unless the kill was refused
    ensures o.Failed? ==> FailureLeavesNothing(o.why, |old(w.procs)|, w.procs, w.log)
    // it is killed only after a full wait of one round per second, each of them with a refused connection
    ensures o.Failed? && (o.why.NotReadyInTime? || o.why.KillRefused?) ==>
              w.clock >= old(w.clock) + Seconds(Max(0, timeout)) && |w.naps| == |old(w.naps)| + Max(0, timeout)
    ensures PatientNaps(w.naps, |old(w.naps)|, w.log, w.probes, |old(w.procs)|)
    // it succeeds exactly when the spawned coordinator accepts a connection and runs on
    ensures o.Started? <==> |w.procs| > |old(w.procs)| && w.procs[|old(w.procs)|].Running?
                            && Answered(w.probes, |old(w.probes)|)
  {
    var failure := CoordinatorPreflight(w, params);
    if failure.Some? {
      return Failed(failure.value);
    }
    hide Get, Answered;
    ghost var probes1 := w.probes;
    var spawned := w.Spawn();
    if spawned.None? {
      return Failed(SystemError);
    }
    o := AwaitCoordinator(w, spawned.value, timeout);
    AnsweredSince(w.probes, |old(w.probes)|, |probes1|);
    assert w.procs[..|old(w.procs)|] == old(w.procs);
  }

  // ---------------------------------------------------------------- kill_started_process and run

  ghost predicate SomeRefused(log: seq<Event>, from: nat, pid: nat) {
    exists i :: from <= i < |log| && log[i].Signalled? && log[i].pid == pid && log[i].result == Refused
  }

  /** How the grace period after SIGTERM ends. */
  datatype Grace = Vanished | Expired | NotAllowed

  ghost predicate NullSignal(e: Event, pid: nat) { e.Signalled? && e.pid == pid && e.signal == Null }

  /** A short sleep, right after a null signal has shown that the process is still there. */
  ghost predicate GraceNap(nap: Nap, log: seq<Event>, pid: nat) {
    && nap.duration == CLEANUP_CHECK_INTERVAL && 0 < nap.events <= |log|
    && NullSignal(log[nap.events - 1], pid) && log[nap.events - 1].result == Delivered
  }

  ghost predicate GraceNaps(naps: seq<Nap>, from: nat, log: seq<Event>, pid: nat) {
    from <= |naps| && forall j :: from <= j < |naps| ==> GraceNap(naps[j], log, pid)
  }

  lemma GraceLater(naps: seq<Nap>, from: nat, log: seq<Event>, log': seq<Event>, pid: nat)
    requires GraceNaps(naps, from, log, pid) && log <= log'
    ensures GraceNaps(naps, from, log', pid)
  {
    forall j | from <= j < |naps| ensures GraceNap(naps[j], log', pid) {
      assert GraceNap(naps[j], log, pid);
    }
  }

  /** All null signals since position `n` are sent within less than the grace period. */
  ghost predicate PromptLooks(log: seq<Event>, n: nat, pid: nat) {
    forall i, j :: n <= i < j < |log| && NullSignal(log[i], pid) && NullSignal(log[j], pid) ==>
      log[j].at < log[i].at + CLEANUP_WAIT
  }

  lemma LooksInWindow(log: seq<Event>, n: nat, pid: nat, start: nat)
    requires forall i :: n <= i < |log| && NullSignal(log[i], pid) ==> start <= log[i].at < start + CLEANUP_WAIT
    ensures PromptLooks(log, n, pid)
  {
  }

  /** Probe the process with null signals until it is gone, a probe is refused or the grace period is over. */
  method GracePeriod(w: World, pid: nat) returns (g: Grace)
    requires pid < |w.procs|
    modifies w
    ensures |w.procs| == |old(w.procs)| && w.procs == old(w.procs)[pid := w.procs[pid]]
    ensures old(w.log) <= w.log && w.probes == old(w.probes) && w.clock >= old(w.clock)
    ensures forall i :: |old(w.log)| <= i < |w.log| ==> NullSignal(w.log[i], pid)
    ensures GraceNaps(w.naps, |old(w.naps)|, w.log, pid) && PromptLooks(w.log, |old(w.log)|, pid)
    ensures g.Vanished? ==> !w.procs[pid].Running?
    ensures g.Expired? ==> w.clock >= old(w.clock) + CLEANUP_WAIT
    ensures g.NotAllowed? ==> |w.log| > |old(w.log)| && NullSignal(w.log[|w.log| - 1], pid)
                              && w.log[|w.log| - 1].result == Refused
  {
    ghost var procs0, from := w.procs, |w.naps|;
    var start := w.Monotonic();
    var deadline := start + CLEANUP_WAIT;
    while true
      invariant w.clock >= start >= old(w.clock) && w.probes == old(w.probes)
      invariant |w.procs| == |procs0| && w.procs == procs0[pid := w.procs[pid]]
      invariant old(w.log) <= w.log && forall i :: |old(w.log)| <= i < |w.log| ==> NullSignal(w.log[i], pid)
      invariant GraceNaps(w.naps, from, w.log, pid)
      invariant forall i :: |old(w.log)| <= i < |w.log| && NullSignal(w.log[i], pid) ==> start <= w.log[i].at < deadline
      decreases Max(0, deadline - w.clock)
    {
      var now := w.Monotonic();
      LooksInWindow(w.log, |old(w.log)|, pid, start);
      if now >= deadline {
        return Expired;
      }
      ghost var log1 := w.log;
      var result := w.Send(pid, Null);
      GraceLater(w.naps, from, log1, w.log, pid);
      LooksInWindow(w.log, |old(w.log)|, pid, start);
      if result.NoSuchProcess? {
        return Vanished;
      }
      if result.Refused? {
        return NotAllowed;
      }
      w.Sleep(CLEANUP_CHECK_INTERVAL);
    }
  }

  /** SIGTERM first; SIGKILL, if at all, last, and only after the grace period or a refused probe. */
  ghost predicate CleanupProtocol(log: seq<Event>, n: nat, pid: nat) {
    && n < |log| && (forall i :: n <= i < |log| ==> log[i].Signalled? && log[i].pid == pid)
    && log[n].signal == Term
    && (forall i :: n < i < |log| - 1 ==> log[i].signal == Null)
    && (|log| > n + 1 && log[|log| - 1].signal == Kill ==>
          && log[n].result == Delivered
          && (log[|log| - 1].at >= log[n].at + CLEANUP_WAIT || log[|log| - 2].result == Refused))
    && (|log| > n + 1 && log[|log| - 1].signal != Kill ==> NullSignal(log[|log| - 1], pid))
  }

  lemma NoGraceYet(naps: seq<Nap>, log: seq<Event>, pid: nat)
    ensures GraceNaps(naps, |naps|, log, pid)
  {
  }

  /** Best-effort cleanup: SIGTERM, a grace period, SIGKILL. */
  method KillStartedProcess(w: World, pid: nat)
    requires pid < |w.procs|
    modifies w
    ensures |w.procs| == |old(w.procs)| && w.procs == old(w.procs)[pid := w.procs[pid]]
    ensures old(w.log) <= w.log && CleanupProtocol(w.log, |old(w.log)|, pid)
    ensures w.probes == old(w.probes) && w.clock >= old(w.clock)
    // unless a signal is refused, the process is gone afterwards
    ensures !w.procs[pid].Running? || SomeRefused(w.log, |old(w.log)|, pid)
    // it sleeps only for a short while, and only after it found the process still there, within the grace period
    ensures GraceNaps(w.naps, |old(w.naps)|, w.log, pid) && PromptLooks(w.log, |old(w.log)|, pid)
  {
    hide GraceNaps;
    ghost var n := |w.log|;
    NoGraceYet(w.naps, w.log, pid);
    var result := w.Send(pid, Term);
    NoGraceYet(w.naps, w.log, pid);
    if !result.Delivered? {
      assert result.Refused? ==> w.log[n].result == Refused && w.log[n].pid == pid;
      return;
    }
    var g := GracePeriod(w, pid);
    if g.Vanished? {
      return;
    }
    ghost var log1 := w.log;
    result := w.Send(pid, Kill);
    GraceLater(w.naps, |old(w.naps)|, log1, w.log, pid);
    assert result.Refused? ==> w.log[|w.log| - 1].result == Refused && w.log[|w.log| - 1].pid == pid;
  }

  lemma RefusedBefore(log: seq<Event>, from: nat, later: nat, pid: nat)
    requires from <= later && SomeRefused(log, later, pid)
    ensures SomeRefused(log, from, pid)
  {
  }

  lemma RefusedEarlier(log1: seq<Event>, log2: seq<Event>, log3: seq<Event>, from: nat, pid: nat)
    requires from <= |log1| < |log2| <= |log3| && log3[..|log2|] == log2 && KillWasRefused(log2, pid)
    ensures SomeRefused(log3, from, pid)
  {
    assert log3[|log2| - 1] == log2[|log2| - 1];
  }

  /** Every process from `base` on that runs has refused a signal since position `n`. */
  ghost predicate OnlyRefusersLive(procs: seq<Proc>, log: seq<Event>, base: nat, n: nat) {
    forall pid :: base <= pid < |procs| && procs[pid].Running? ==> SomeRefused(log, n, pid)
  }

  lemma CoordinatorFailed(why: Failure, procs: seq<Proc>, log: seq<Event>, base: nat, n: nat)
    requires base <= |procs| <= base + 1 && FailureLeavesNothing(why, base, procs, log)
    requires why.KillRefused? ==> |log| > n
    ensures OnlyRefusersLive(procs, log, base, n)
  {
    if why.KillRefused? {
      assert log[|log| - 1].result == Refused;
    }
  }

  lemma Survivors(why: Failure, c: nat, procs2: seq<Proc>, log1: seq<Event>, log2: seq<Event>,
                  procs: seq<Proc>, log: seq<Event>, base: nat, n: nat)
    requires c == base < |procs2| == |procs| && procs == procs2[c := procs[c]]
    requires FailureLeavesNothing(why, base + 1, procs2, log2)
    requires n <= |log1| <= |log2| < |log| && log[..|log2|] == log2
    requires why.KillRefused? ==> |log1| < |log2|
    requires !procs[c].Running? || SomeRefused(log, |log2|, c)
    ensures OnlyRefusersLive(procs, log, base, n)
  {
    forall pid | base <= pid < |procs| && procs[pid].Running? ensures SomeRefused(log, n, pid) {
      if pid == c {
        RefusedBefore(log, n, |log2|, pid);
      } else {
        assert why == KillRefused(pid);
        RefusedEarlier(log1, log2, log, n, pid);
      }
    }
  }

  /** What was seen up to event `n` made the worker fail; the coordinator is process `base`. */
  ghost predicate WorkerCaused(why: Failure, n: nat, base: nat, procs: seq<Proc>, log: seq<Event>, probes: seq<Probe>,
                               late: bool)
  {
    n <= |log| && Caused(why, base + 1, procs, log[..n], probes, late)
  }

  /** A failure to start both has a cause that was seen: the coordinator's, or the worker's before the cleanup. */
  ghost predicate BothCaused(coordinator: Params, worker: Params, base: nat, procs: seq<Proc>, log: seq<Event>,
                             probes: seq<Probe>, late: bool)
  {
    || (exists why :: CoordinatorCaused(why, coordinator, base, procs, log, probes))
    || (exists why :: PreflightFails(why, worker, probes))
    || (exists why, n :: WorkerCaused(why, n, base, procs, log, probes, late))
  }

  /** What made the worker fail is still there after the coordinator is gone. */
  lemma CauseStays(why: Failure, base: nat, procs: seq<Proc>, log: seq<Event>, probes: seq<Probe>, late: bool,
                   procs': seq<Proc>, late': bool)
    requires Caused(why, base + 1, procs, log, probes, late) && (late ==> late')
    requires base < |procs| == |procs'| && forall k :: 0 <= k < |procs| && k != base ==> procs'[k] == procs[k]
    ensures Caused(why, base + 1, procs', log, probes, late')
  {
    hide ExitExplains, KillSent, KillWasRefused;
  }

  lemma FileSeenOnce(log1: seq<Event>, log2: seq<Event>, from: nat)
    requires from <= |log1| && log1 <= log2 && NoLooks(log1, from)
    ensures SawFile(log2, from) <==> SawFile(log2, |log1|)
  {
    forall i | from <= i < |log1| ensures log2[i] != ReadyProbe(true) {
      assert log2[i] == log1[i];
    }
  }

  lemma NoFileWithoutLook(log: seq<Event>, from: nat)
    requires NoLooks(log, from)
    ensures !SawFile(log, from)
  {
  }

  lemma SignalsAreNoLooks(log1: seq<Event>, log2: seq<Event>, from: nat)
    requires from <= |log1| && log1 <= log2 && forall i :: |log1| <= i < |log2| ==> log2[i].Signalled?
    ensures SawFile(log2, from) <==> SawFile(log1, from)
  {
    if SawFile(log1, from) {
      var i :| from <= i < |log1| && log1[i] == ReadyProbe(true);
      assert log2[i] == log1[i];
    }
    if SawFile(log2, from) {
      var i :| from <= i < |log2| && log2[i] == ReadyProbe(true);
      assert log1[i] == log2[i];
    }
  }

  lemma GoodLogExtends(log0: seq<Event>, log: seq<Event>, probed: bool, procs: seq<Proc>)
    requires GoodLog(log0, log, probed, procs)
    ensures log0 <= log
  {
  }

  lemma CoordinatorsFault(why: Failure, coordinator: Params, worker: Params, base: nat, procs: seq<Proc>,
                          log: seq<Event>, probes: seq<Probe>, late: bool)
    requires CoordinatorCaused(why, coordinator, base, procs, log, probes)
    ensures BothCaused(coordinator, worker, base, procs, log, probes, late)
  {
  }

  lemma WorkersFault(why: Failure, coordinator: Params, worker: Params, base: nat, procs2: seq<Proc>, log2: seq<Event>,
                     procs: seq<Proc>, log: seq<Event>, probes: seq<Probe>, early: bool, late2: bool, late: bool)
    requires early ==> PreflightFails(why, worker, probes)
    requires !early ==> Caused(why, base + 1, procs2, log2, probes, late2)
    requires (late2 ==> late) && log2 <= log
    requires base < |procs2| == |procs| && procs == procs2[base := procs[base]]
    ensures BothCaused(coordinator, worker, base, procs, log, probes, late)
  {
    hide PreflightFails, CoordinatorCaused;
    if !early {
      CauseStays(why, base, procs2, log2, probes, late2, procs, late);
      assert log[..|log2|] == log2;
      assert WorkerCaused(why, |log2|, base, procs, log, probes, late);
    }
  }

  lemma CleanupIsSignals(log1: seq<Event>, log2: seq<Event>, from: nat, pid: nat)
    requires from <= |log1| && log1 <= log2 && CleanupProtocol(log2, |log1|, pid)
    ensures SawFile(log2, from) <==> SawFile(log1, from)
    ensures |log1| < |log2|
  {
    SignalsAreNoLooks(log1, log2, from);
  }

  lemma KilledLater(why: Failure, base: nat, procs: seq<Proc>, log1: seq<Event>, log2: seq<Event>)
    requires FailureLeavesNothing(why, base + 1, procs, log2) && log1 <= log2
    requires |log1| > 0 && log1[|log1| - 1].Polled?
    ensures why.KillRefused? ==> |log1| < |log2|
  {
    hide NoneAlive;
  }

  /** `dscli start` with a coordinator and a worker: all or nothing. */
  method StartBoth(w: World, coordinator: Params, worker: Params, timeout: int) returns (ok: bool)
    modifies w
    ensures old(w.procs) <= w.procs
    // success: the coordinator and the latest worker are up, every earlier worker is down
    ensures ok ==> |w.procs| >= |old(w.procs)| + 2 && w.procs[|old(w.procs)|].Running?
                   && w.procs[|w.procs| - 1].Running? && NoneAlive(w.procs[..|w.procs| - 1], |old(w.procs)| + 1)
    // it succeeds exactly when the worker's ready file is seen, and fails only for a cause that was seen
    ensures ok <==> SawFile(w.log, |old(w.log)|)
    ensures !ok ==> BothCaused(coordinator, worker, |old(w.procs)|, w.procs, w.log, w.probes,
                               w.clock >= old(w.clock) + Seconds(timeout))
    // failure: a process that was spawned is left alive only if the system refused a signal to it in this run
    ensures !ok ==> forall pid :: |old(w.procs)| <= pid < |w.procs| && w.procs[pid].Running? ==>
                      SomeRefused(w.log, |old(w.log)|, pid)
  {
    hide LoneWorkers, HonestReport, Attentive, Answered, PatientNaps, SawFile, Caused, CoordinatorCaused,
         PreflightFails, GoodLog, FailureLeavesNothing, CleanupProtocol, GraceNaps, SomeRefused, BothCaused, NoLooks,
         LastProbe, SawReady;
    ghost var base, n := |w.procs|, |w.log|;
    var c := StartCoordinator(w, coordinator, timeout);
    ghost var procs1, log1, clock1 := w.procs, w.log, w.clock;
    if c.Failed? {
      CoordinatorFailed(c.why, w.procs, w.log, base, n);
      NoFileWithoutLook(w.log, n);
      CoordinatorsFault(c.why, coordinator, worker, base, w.procs, w.log, w.probes,
                        w.clock >= old(w.clock) + Seconds(timeout));
      return false;
    }
    var o := StartWorker(w, worker, timeout);
    GoodLogExtends(log1, w.log, Get(worker, "rocksdb_store_dir") != "", w.procs);
    FileSeenOnce(log1, w.log, n);
    if o.Started? {
      return true;
    }
    ghost var procs2, log2, late2 := w.procs, w.log, w.clock >= clock1 + Seconds(timeout);
    ghost var early := log2 == log1 && PreflightFails(o.why, worker, w.probes);
    KillStartedProcess(w, c.pid);
    CleanupIsSignals(log2, w.log, n, c.pid);
    WorkersFault(o.why, coordinator, worker, base, procs2, log2, w.procs, w.log, w.probes, early, late2,
                 w.clock >= old(w.clock) + Seconds(timeout));
    KilledLater(o.why, base, procs2, log1, log2);
    Survivors(o.why, c.pid, procs2, log1, log2, w.procs, w.log, base, n);
    return false;
  }
}
