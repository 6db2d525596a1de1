/** `dscli stop`: SIGTERM, a wait bounded by a resolved timeout, then SIGKILL. */
module StopService {
  import opened Basics
  import opened ServiceWorld
  import CommandLine
  import ReadBack

  type Raw = Option<string>

  const BASE_TIMEOUT: real := 180.0
  const FORCE_KILL_WAIT: real := 10.0
  const CHECK_INTERVAL: nat := 200_000_000
  const SHARED_MEMORY_SIZE_MB: int := 1024
  const DATA_MIGRATE_RATE_LIMIT_MB: int := 40

  datatype Service = WorkerService | CoordinatorService

  /** A config entry is a plain value or an object with a value and a default. */
  datatype ConfigItem = Plain(value: Raw) | Entry(value: Raw, default: Raw)
  type Config = map<string, ConfigItem>

  predicate Missing(raw: Raw) { raw.None? || raw.value == "" }

  function ConfigValue(config: Config, key: string): Raw {
    if key !in config then None
    else
      match config[key]
      case Plain(v) => v
      case Entry(v, d) => if Missing(v) then d else v
  }

  /** A positive integer as it is written, or else the default. */
  function PositiveOr(raw: Raw, parse: string -> Option<int>, default: int): (r: int)
    requires default > 0
    ensures r > 0
  {
    if Missing(raw) then default
    else
      match parse(raw.value)
      case Some(n) => if n > 0 then n else default
      case None => default
  }

  /** Process command line first, then config; anything that is not a positive integer falls back to the default. */
  function PositiveInt(args: seq<string>, config: Config, parse: string -> Option<int>, key: string,
                       default: int): (r: int)
    requires default > 0
    ensures r > 0
  {
    var cmdline := CommandLine.FlagValue(args, key);
    PositiveOr(if Missing(cmdline) then ConfigValue(config, key) else cmdline, parse, default)
  }

  const SIZE_KEY := "shared_memory_size_mb"
  const RATE_KEY := "data_migrate_rate_limit_mb"

  /** The timeout in seconds `resolve_stop_timeout` settles on; `requested` is the command-line override. */
  function StopTimeout(service: Service, args: seq<string>, config: Config, parse: string -> Option<int>,
                       requested: Option<int>): (t: real)
    ensures t > 0.0
    ensures requested.Some? && requested.value > 0 ==> t == requested.value as real
    ensures requested.None? || requested.value <= 0 ==>
              (t >= BASE_TIMEOUT && (t == BASE_TIMEOUT <==> service.CoordinatorService?))
  {
    if requested.Some? && requested.value > 0 then requested.value as real
    else if service.WorkerService? then
      var size := PositiveInt(args, config, parse, SIZE_KEY, SHARED_MEMORY_SIZE_MB);
      var rate := PositiveInt(args, config, parse, RATE_KEY, DATA_MIGRATE_RATE_LIMIT_MB);
      BASE_TIMEOUT + size as real / rate as real
    else BASE_TIMEOUT
  }

  // ---------------------------------------------------------------- the timeout of a started worker

  /** What a worker was started with, or else what the config says. */
  function Configured(params: seq<CommandLine.Param>, config: Config, key: string): Raw {
    var printed := ReadBack.Printed(params, {}, key);
    if printed.Some? then printed else ConfigValue(config, key)
  }

  lemma PrintedNotMissing(params: seq<CommandLine.Param>, key: string)
    ensures ReadBack.Printed(params, {}, key).Some? ==> !Missing(ReadBack.Printed(params, {}, key))
  {
    ReadBack.PrintedIs(params, {}, key);
  }

  /** The stop command reads from the process what the start command was given. */
  lemma PositiveIntOfStarted(l: CommandLine.Launch, params: seq<CommandLine.Param>, config: Config,
                             parse: string -> Option<int>, key: string, default: int)
    requires default > 0 && ReadBack.GoodLaunch(l) && ReadBack.DistinctKeys(params)
    requires ReadBack.Undisturbed(params, {}, key) && ReadBack.CleanKey(key) && key !in CommandLine.NUMACTL_KEYS
    ensures PositiveInt(CommandLine.Command(l, params, {}), config, parse, key, default) ==
            PositiveOr(Configured(params, config, key), parse, default)
  {
    hide ReadBack.Undisturbed, ReadBack.DistinctKeys, ReadBack.GoodLaunch, ReadBack.CleanKey, ReadBack.Printed;
    hide CommandLine.Command, CommandLine.FlagValue, ConfigValue;
    ReadBack.CleanKeyReadsBack(l, params, {}, key);
    PrintedNotMissing(params, key);
  }

  lemma TimeoutKeysAreClean()
    ensures ReadBack.CleanKey(SIZE_KEY) && SIZE_KEY !in CommandLine.NUMACTL_KEYS
    ensures ReadBack.CleanKey(RATE_KEY) && RATE_KEY !in CommandLine.NUMACTL_KEYS
  {
  }

  /** A started worker is stopped with a timeout that gives it the time to migrate its data: 180 seconds and its memory
      size over its rate limit, both as it was started with, whatever launched it. */
  lemma TimeoutOfStartedWorker(l: CommandLine.Launch, params: seq<CommandLine.Param>, config: Config,
                               parse: string -> Option<int>, requested: Option<int>)
    requires ReadBack.GoodLaunch(l) && ReadBack.DistinctKeys(params)
    requires ReadBack.Undisturbed(params, {}, SIZE_KEY) && ReadBack.Undisturbed(params, {}, RATE_KEY)
    requires requested.None? || requested.value <= 0
    ensures var size := PositiveOr(Configured(params, config, SIZE_KEY), parse, SHARED_MEMORY_SIZE_MB);
            var rate := PositiveOr(Configured(params, config, RATE_KEY), parse, DATA_MIGRATE_RATE_LIMIT_MB);
            StopTimeout(WorkerService, CommandLine.Command(l, params, {}), config, parse, requested) ==
            BASE_TIMEOUT + size as real / rate as real
  {
    hide ReadBack.Undisturbed, ReadBack.DistinctKeys, ReadBack.GoodLaunch, ReadBack.CleanKey;
    hide CommandLine.Command, PositiveInt, PositiveOr, Configured;
    TimeoutKeysAreClean();
    PositiveIntOfStarted(l, params, config, parse, SIZE_KEY, SHARED_MEMORY_SIZE_MB);
    PositiveIntOfStarted(l, params, config, parse, RATE_KEY, DATA_MIGRATE_RATE_LIMIT_MB);
  }

  /** An object of the config without a value, but with this default. */
  predicate EntryDefault(item: ConfigItem, a: string) {
    item.Entry? && (item.value.None? || item.value.value == "") && item.default == Some(a)
  }

  /** Where a setting comes from: the value the worker was started with, even one that is no positive integer; without
      one, the config; without either, the default. */
  lemma SettingMeans(params: seq<CommandLine.Param>, config: Config, key: string, parse: string -> Option<int>,
                     default: int, a: string, n: int)
    requires default > 0 && a != "" && parse(a) == Some(n)
    ensures var setting, printed := PositiveOr(Configured(params, config, key), parse, default),
                                    ReadBack.Printed(params, {}, key);
      && (printed == Some(a) ==> setting == if n > 0 then n else default)
      && (printed.None? && key !in config ==> setting == default)
      && (printed.None? && key in config && config[key] == Plain(Some(a)) ==> setting == if n > 0 then n else default)
      && (printed.None? && key in config && config[key].Entry? && config[key].value == Some(a) ==>
            (setting == if n > 0 then n else default))
      && (printed.None? && key in config && EntryDefault(config[key], a) ==> setting == if n > 0 then n else default)
  {
    hide ReadBack.Printed;
  }

  /** With nothing said about either, a worker is stopped after 205.6 seconds. */
  lemma TimeoutByDefault(l: CommandLine.Launch, params: seq<CommandLine.Param>, parse: string -> Option<int>)
    requires ReadBack.GoodLaunch(l) && ReadBack.DistinctKeys(params)
    requires ReadBack.Undisturbed(params, {}, SIZE_KEY) && ReadBack.Undisturbed(params, {}, RATE_KEY)
    requires ReadBack.Printed(params, {}, SIZE_KEY).None? && ReadBack.Printed(params, {}, RATE_KEY).None?
    ensures StopTimeout(WorkerService, CommandLine.Command(l, params, {}), map[], parse, None) == 205.6
  {
    hide ReadBack.Undisturbed, ReadBack.DistinctKeys, ReadBack.GoodLaunch, ReadBack.Printed, CommandLine.Command;
    hide StopTimeout;
    TimeoutOfStartedWorker(l, params, map[], parse, None);
  }

  // ---------------------------------------------------------------- what the log of a stop can hold

  /** At least `seconds` lie between two clock readings. */
  ghost predicate Elapsed(from: nat, to: nat, seconds: real) {
    (to - from) as real >= seconds * 1_000_000_000.0
  }

  /** An observation that found the process still there. */
  ghost predicate StillThere(e: Event, pid: nat) {
    || e == StatRead(pid, Alive)
    || (e.Signalled? && e.pid == pid && e.signal == Null && e.result == Delivered)
  }

  /** An observation of the process; no signal that could affect it. */
  ghost predicate Watches(e: Event, pid: nat) {
    || (e.StatRead? && e.pid == pid)
    || (e.Signalled? && e.pid == pid && e.signal == Null)
  }

  ghost predicate OnlyWatches(log0: seq<Event>, log: seq<Event>, pid: nat) {
    |log0| <= |log| && log[..|log0|] == log0 && forall i :: |log0| <= i < |log| ==> Watches(log[i], pid)
  }

  ghost predicate AllStillThere(log: seq<Event>, from: nat, pid: nat) {
    forall i :: from <= i < |log| ==> StillThere(log[i], pid)
  }

  ghost predicate IsTerm(e: Event, pid: nat) { e.Signalled? && e.pid == pid && e.signal == Term }

  ghost predicate IsKill(e: Event) { e.Signalled? && e.signal == Kill }

  /** A short sleep, right after its state and a null signal have shown that the process is still there. */
  ghost predicate WatchfulNap(nap: Nap, log: seq<Event>, pid: nat) {
    && nap.duration == CHECK_INTERVAL && 2 <= nap.events <= |log|
    && log[nap.events - 2] == StatRead(pid, Alive)
    && log[nap.events - 1].Signalled? && StillThere(log[nap.events - 1], pid)
  }

  ghost predicate WatchfulNaps(naps: seq<Nap>, from: nat, log: seq<Event>, pid: nat) {
    from <= |naps| && forall j :: from <= j < |naps| ==> WatchfulNap(naps[j], log, pid)
  }

  lemma WatchfulLater(naps: seq<Nap>, from: nat, log: seq<Event>, log': seq<Event>, pid: nat)
    requires WatchfulNaps(naps, from, log, pid) && log <= log'
    ensures WatchfulNaps(naps, from, log', pid)
  {
    forall j | from <= j < |naps| ensures WatchfulNap(naps[j], log', pid) {
      assert WatchfulNap(naps[j], log, pid);
    }
  }

  lemma WatchfulMore(naps: seq<Nap>, from: nat, log: seq<Event>, pid: nat, nap: Nap)
    requires WatchfulNaps(naps, from, log, pid) && WatchfulNap(nap, log, pid)
    ensures WatchfulNaps(naps + [nap], from, log, pid)
  {
  }

  ghost predicate NullSignal(e: Event) { e.Signalled? && e.signal == Null }

  /** The null signals from position `lo` up to `hi` are sent within less than `seconds`. */
  ghost predicate Prompt(log: seq<Event>, lo: nat, hi: nat, seconds: real)
    requires hi <= |log|
  {
    forall i, j :: lo <= i < j < hi && NullSignal(log[i]) && NullSignal(log[j]) ==>
      (log[j].at - log[i].at) as real < seconds * 1_000_000_000.0
  }

  /** The null signals from `lo` on are sent in the `seconds` after `start`. */
  ghost predicate InWindow(log: seq<Event>, lo: nat, start: nat, seconds: real) {
    forall i :: lo <= i < |log| && NullSignal(log[i]) ==>
      start <= log[i].at && (log[i].at - start) as real < seconds * 1_000_000_000.0
  }

  lemma WindowIsPrompt(log: seq<Event>, lo: nat, start: nat, seconds: real)
    requires InWindow(log, lo, start, seconds)
    ensures Prompt(log, lo, |log|, seconds)
  {
  }

  lemma NothingSent(log: seq<Event>, start: nat, seconds: real)
    ensures InWindow(log, |log|, start, seconds) && Prompt(log, |log|, |log|, seconds)
  {
  }

  lemma WindowNext(log: seq<Event>, lo: nat, start: nat, seconds: real, e: Event)
    requires InWindow(log, lo, start, seconds) && lo <= |log|
    requires NullSignal(e) ==> start <= e.at && (e.at - start) as real < seconds * 1_000_000_000.0
    ensures InWindow(log + [e], lo, start, seconds) && Prompt(log + [e], lo, |log| + 1, seconds)
  {
    WindowIsPrompt(log + [e], lo, start, seconds);
  }

  /** What is sent to the process since position `n`: SIGTERM first; SIGKILL at most once, and only after
      the whole timeout has passed since SIGTERM with the process still there at every look. */
  ghost predicate StopProtocol(log: seq<Event>, n: nat, pid: nat, timeout: real) {
    && n < |log| && IsTerm(log[n], pid)
    && (forall i :: n < i < |log| ==> Watches(log[i], pid) || (log[i].Signalled? && log[i].signal == Kill))
    && (forall i, j :: n < i < j < |log| ==> !(IsKill(log[i]) && IsKill(log[j])))
    && (forall i :: n < i < |log| && IsKill(log[i]) ==>
          && log[n].result == Delivered && log[i].pid == pid
          && Elapsed(log[n].at, log[i].at, timeout)
          && AllStillThere(log[..i], n + 1, pid))
  }

  datatype WaitResult = Gone | TimedOut | WaitRaised

  datatype StopFailure = NotFound | TermFailed | LookFailed | KillFailed | StillAlive
  datatype StopOutcome = Stopped(forced: bool) | Raised(why: StopFailure)

  /** An observation that found the process gone or a zombie. */
  ghost predicate SeenGone(e: Event, pid: nat) {
    || e == StatRead(pid, Stat.Missing) || e == StatRead(pid, Zombie)
    || (e.Signalled? && e.pid == pid && e.signal == Null && e.result == NoSuchProcess)
  }

  /** A look at the process that raised an exception. */
  ghost predicate FailedLook(e: Event, pid: nat) {
    e == StatRead(pid, Unreadable) || (e.Signalled? && e.pid == pid && e.signal == Null && e.result == Refused)
  }

  ghost predicate HasKill(log: seq<Event>, n: nat) { exists i :: n < i < |log| && IsKill(log[i]) }

  /** The wait after SIGKILL. */
  function ForcedWait(timeout: real): real { if timeout <= FORCE_KILL_WAIT then timeout else FORCE_KILL_WAIT }

  /** No wait looks for longer than it should: the one after SIGTERM for the timeout, the one after SIGKILL for the
      forced wait. */
  ghost predicate PromptWaits(log: seq<Event>, n: nat, timeout: real) {
    && (!HasKill(log, n) ==> Prompt(log, n + 1, |log|, timeout))
    && forall k :: n < k < |log| && IsKill(log[k]) ==>
         Prompt(log, n + 1, k, timeout) && Prompt(log, k + 1, |log|, ForcedWait(timeout))
  }

  lemma NoKillIsPrompt(log1: seq<Event>, log2: seq<Event>, n: nat, pid: nat, timeout: real)
    requires |log1| == n + 1 && OnlyWatches(log1, log2, pid) && Prompt(log2, n + 1, |log2|, timeout)
    ensures PromptWaits(log2, n, timeout)
  {
    assert forall k :: n < k < |log2| ==> Watches(log2[k], pid);
  }

  lemma KillIsPrompt(log2: seq<Event>, log3: seq<Event>, log4: seq<Event>, n: nat, pid: nat, timeout: real)
    requires n < |log2| && Prompt(log2, n + 1, |log2|, timeout)
    requires forall k :: n < k < |log2| ==> !IsKill(log2[k])
    requires |log3| == |log2| + 1 && log2 <= log3 && IsKill(log3[|log2|]) && OnlyWatches(log3, log4, pid)
    requires Prompt(log4, |log3|, |log4|, ForcedWait(timeout))
    ensures PromptWaits(log4, n, timeout)
  {
    assert forall k :: 0 <= k < |log3| ==> log4[k] == log3[k];
    assert forall k :: |log3| <= k < |log4| ==> Watches(log4[k], pid);
    forall k | n < k < |log4| && IsKill(log4[k]) ensures k == |log2| {
    }
    hide ForcedWait;
  }

  /** How the operation can end, in terms of what was seen since position `n`. */
  ghost predicate Ends(o: StopOutcome, log: seq<Event>, n: nat, pid: nat, timeout: real, now: nat) {
    n < |log| &&
    var last := log[|log| - 1];
    match o
    case Stopped(forced) => SeenGone(last, pid) && (forced <==> HasKill(log, n))
    case Raised(NotFound) => false
    case Raised(TermFailed) => |log| == n + 1 && last.Signalled? && last.signal == Term && last.result != Delivered
    case Raised(LookFailed) => FailedLook(last, pid)
    case Raised(KillFailed) => IsKill(last) && last.result != Delivered
    case Raised(StillAlive) =>
      exists i :: n < i < |log| && IsKill(log[i]) && log[i].result == Delivered
                  && AllStillThere(log, i + 1, pid) && Elapsed(log[i].at, now, ForcedWait(timeout))
  }

  /** SIGTERM or SIGKILL that found no process. */
  ghost predicate SentToNobody(e: Event, pid: nat) {
    (IsTerm(e, pid) || IsKill(e)) && e.result == NoSuchProcess
  }

  ghost predicate KillDelivered(log: seq<Event>, n: nat) {
    exists i :: n < i < |log| && IsKill(log[i]) && log[i].result == Delivered
  }

  /** A signal has ended the process or found none: the failures that come although the process is gone. */
  ghost predicate GoneBySignal(log: seq<Event>, n: nat, pid: nat) {
    |log| > 0 && (SentToNobody(log[|log| - 1], pid) || KillDelivered(log, n))
  }

  /** The last event alone decides how the operation ended. */
  ghost predicate EndsBy(o: StopOutcome, last: Event, pid: nat) {
    && (o.Stopped? <==> SeenGone(last, pid))
    && (o == Raised(TermFailed) <==> IsTerm(last, pid) && last.result != Delivered)
    && (o == Raised(LookFailed) <==> FailedLook(last, pid))
    && (o == Raised(KillFailed) <==> IsKill(last) && last.result != Delivered)
    && (o == Raised(StillAlive) <==> StillThere(last, pid) || (IsKill(last) && last.result == Delivered))
  }

  lemma EndingsExact(o: StopOutcome, log: seq<Event>, n: nat, pid: nat, timeout: real, now: nat)
    requires StopProtocol(log, n, pid, timeout) && Ends(o, log, n, pid, timeout, now)
    ensures EndsBy(o, log[|log| - 1], pid)
    // after a delivered SIGKILL only the wait can fail, and only after one can the process be reported alive
    ensures o.Raised? && KillDelivered(log, n) ==> o.why.LookFailed? || o.why.StillAlive?
    ensures o == Raised(StillAlive) ==> KillDelivered(log, n)
  {
    var last := log[|log| - 1];
    assert |log| > n + 1 ==> Watches(last, pid) || IsKill(last);
    assert o == Raised(StillAlive) ==> StillThere(last, pid) || (IsKill(last) && last.result == Delivered);
    if o == Raised(KillFailed) {
      assert forall i :: n < i < |log| - 1 ==> !IsKill(log[i]);
    }
  }

  lemma TermEnds(log: seq<Event>, n: nat, pid: nat, timeout: real, now: nat)
    requires |log| == n + 1 && IsTerm(log[n], pid) && log[n].result != Delivered
    ensures StopProtocol(log, n, pid, timeout) && Ends(Raised(TermFailed), log, n, pid, timeout, now)
  {
  }

  lemma WatchEnds(o: StopOutcome, log1: seq<Event>, log2: seq<Event>, n: nat, pid: nat, timeout: real, now: nat)
    requires |log1| == n + 1 && IsTerm(log1[n], pid) && OnlyWatches(log1, log2, pid) && |log2| > |log1|
    requires var last := log2[|log2| - 1];
             || (o == Stopped(false) && SeenGone(last, pid))
             || (o == Raised(LookFailed) && FailedLook(last, pid))
    ensures StopProtocol(log2, n, pid, timeout) && Ends(o, log2, n, pid, timeout, now)
  {
    assert log2[n] == log1[n];
    assert forall i :: n < i < |log2| ==> Watches(log2[i], pid) && !IsKill(log2[i]);
  }

  lemma KillAfterWait(log1: seq<Event>, log2: seq<Event>, log3: seq<Event>, n: nat, pid: nat, timeout: real)
    requires |log1| == n + 1 && IsTerm(log1[n], pid) && log1[n].result == Delivered
    requires OnlyWatches(log1, log2, pid) && AllStillThere(log2, n + 1, pid)
    requires |log3| == |log2| + 1 && log3[..|log2|] == log2
    requires IsKill(log3[|log2|]) && log3[|log2|].pid == pid && Elapsed(log1[n].at, log3[|log2|].at, timeout)
    ensures StopProtocol(log3, n, pid, timeout)
  {
    assert forall i :: 0 <= i < |log2| ==> log3[i] == log2[i];
    assert forall i :: 0 <= i < |log1| ==> log2[i] == log1[i];
  }

  lemma WatchAfterKill(log3: seq<Event>, log4: seq<Event>, n: nat, pid: nat, timeout: real)
    requires StopProtocol(log3, n, pid, timeout) && OnlyWatches(log3, log4, pid)
    ensures StopProtocol(log4, n, pid, timeout)
  {
    assert forall i :: 0 <= i < |log3| ==> log4[i] == log3[i];
    forall i | n < i < |log4| && IsKill(log4[i]) ensures AllStillThere(log4[..i], n + 1, pid) {
      assert i < |log3|;
      assert log4[..i] == log3[..i];
    }
  }

  class StopCommand {
    var timeout: real

    constructor ()
      ensures timeout == BASE_TIMEOUT
    {
      timeout := BASE_TIMEOUT;
    }

    /** Poll until the process is gone or the timeout field has elapsed. */
    method WaitExit(w: World, pid: nat, ghost from: nat) returns (r: WaitResult)
      requires pid < |w.procs| && WatchfulNaps(w.naps, from, w.log, pid)
      modifies w
      ensures WatchfulNaps(w.naps, from, w.log, pid)
      ensures |w.procs| == |old(w.procs)| && w.clock >= old(w.clock)
      ensures OnlyWatches(old(w.log), w.log, pid) && Prompt(w.log, |old(w.log)|, |w.log|, timeout)
      ensures r.Gone? ==> !w.procs[pid].Running? && |w.log| > |old(w.log)| && SeenGone(w.log[|w.log| - 1], pid)
      ensures r.WaitRaised? ==> |w.log| > |old(w.log)| && FailedLook(w.log[|w.log| - 1], pid)
      ensures r.TimedOut? ==> Elapsed(old(w.clock), w.clock, timeout) && AllStillThere(w.log, |old(w.log)|, pid)
      ensures !r.Gone? ==> w.procs == old(w.procs)
    {
      hide WatchfulNaps, Prompt, InWindow;
      var start := w.Monotonic();
      NothingSent(w.log, start, timeout);
      while true
        invariant InWindow(w.log, |old(w.log)|, start, timeout) && Prompt(w.log, |old(w.log)|, |w.log|, timeout)
        invariant WatchfulNaps(w.naps, from, w.log, pid)
        invariant w.clock >= start >= old(w.clock) && w.procs == old(w.procs)
        invariant OnlyWatches(old(w.log), w.log, pid) && AllStillThere(w.log, |old(w.log)|, pid)
        decreases (timeout * 1_000_000_000.0).Floor + 1 - (w.clock - start)
      {
        var now := w.Monotonic();
        if (now - start) as real >= timeout * 1_000_000_000.0 {
          break;
        }
        ghost var log1, naps1 := w.log, w.naps;
        var stat := w.ReadStat(pid);
        WatchfulLater(naps1, from, log1, w.log, pid);
        WindowNext(log1, |old(w.log)|, start, timeout, StatRead(pid, stat));
        if stat.Zombie? || stat.Missing? {
          return Gone;
        }
        if stat.Unreadable? {
          return WaitRaised;
        }
        ghost var log2 := w.log;
        var result := w.Send(pid, Null);
        WatchfulLater(naps1, from, log1, w.log, pid);
        WindowNext(log2, |old(w.log)|, start, timeout, w.log[|log2|]);
        if result.NoSuchProcess? {
          return Gone;
        }
        if result.Refused? {
          return WaitRaised;
        }
        w.Sleep(CHECK_INTERVAL);
        WatchfulMore(naps1, from, w.log, pid, w.naps[|naps1|]);
      }
      return TimedOut;
    }

    /** SIGKILL and a shorter wait, after which the timeout field is restored. */
    method ForceStop(w: World, pid: nat, ghost log1: seq<Event>, ghost n: nat, ghost from: nat) returns (o: StopOutcome)
      requires pid < |w.procs| && WatchfulNaps(w.naps, from, w.log, pid)
      requires |log1| == n + 1 && IsTerm(log1[n], pid) && log1[n].result == Delivered
      requires OnlyWatches(log1, w.log, pid) && AllStillThere(w.log, n + 1, pid)
      requires Elapsed(log1[n].at, w.clock, timeout) && Prompt(w.log, n + 1, |w.log|, timeout)
      modifies this, w
      ensures PromptWaits(w.log, n, timeout)
      ensures WatchfulNaps(w.naps, from, w.log, pid)
      ensures timeout == old(timeout) && |w.procs| == |old(w.procs)|
      ensures |old(w.log)| <= |w.log| && w.log[..|old(w.log)|] == old(w.log)
      ensures StopProtocol(w.log, n, pid, timeout) && Ends(o, w.log, n, pid, timeout, w.clock)
      ensures o.Stopped? ==> !w.procs[pid].Running?
      ensures old(w.procs[pid]).Running? && o.Raised? ==> (!w.procs[pid].Running? <==> GoneBySignal(w.log, n, pid))
    {
      hide WatchfulNaps, Prompt, PromptWaits;
      ghost var log2 := w.log;
      assert forall k :: n < k < |log2| ==> Watches(log2[k], pid);
      var killed := w.Send(pid, Kill);
      ghost var log3 := w.log;
      WatchfulLater(w.naps, from, log2, log3, pid);
      KillAfterWait(log1, log2, log3, n, pid, timeout);
      hide StopProtocol;
      if !killed.Delivered? {
        assert !KillDelivered(log3, n);
        NothingSent(log3, 0, ForcedWait(timeout));
        KillIsPrompt(log2, log3, log3, n, pid, timeout);
        return Raised(KillFailed);
      }
      var original := timeout;
      timeout := ForcedWait(timeout);
      var r := WaitExit(w, pid, from);
      timeout := original;
      WatchAfterKill(log3, w.log, n, pid, timeout);
      KillIsPrompt(log2, log3, w.log, n, pid, timeout);
      assert w.log[|log2|] == log3[|log2|] && IsKill(w.log[|log2|]);
      o := if r.Gone? then Stopped(true) else if r.WaitRaised? then Raised(LookFailed) else Raised(StillAlive);
    }

    /** SIGTERM, the wait, and SIGKILL when that was not enough. */
    method Terminate(w: World, pid: nat) returns (o: StopOutcome)
      requires pid < |w.procs|
      modifies this, w
      ensures WatchfulNaps(w.naps, |old(w.naps)|, w.log, pid)
      ensures timeout == old(timeout) && |w.procs| == |old(w.procs)|
      ensures |w.log| > |old(w.log)| && w.log[..|old(w.log)|] == old(w.log)
      ensures StopProtocol(w.log, |old(w.log)|, pid, timeout) && PromptWaits(w.log, |old(w.log)|, timeout)
      ensures Ends(o, w.log, |old(w.log)|, pid, timeout, w.clock)
      ensures o.Stopped? ==> !w.procs[pid].Running?
      ensures old(w.procs[pid]).Running? && o.Raised? ==>
                (!w.procs[pid].Running? <==> GoneBySignal(w.log, |old(w.log)|, pid))
    {
      hide StopProtocol, Ends, Prompt, PromptWaits;
      ghost var n, from := |w.log|, |w.naps|;
      var term := w.Send(pid, Term);
      if !term.Delivered? {
        TermEnds(w.log, n, pid, timeout, w.clock);
        NothingSent(w.log, 0, timeout);
        NoKillIsPrompt(w.log, w.log, n, pid, timeout);
        return Raised(TermFailed);
      }
      ghost var log1 := w.log;
      var r := WaitExit(w, pid, from);
      if !r.TimedOut? {
        o := if r.Gone? then Stopped(false) else Raised(LookFailed);
        WatchEnds(o, log1, w.log, n, pid, timeout, w.clock);
        NoKillIsPrompt(log1, w.log, n, pid, timeout);
        return;
      }
      o := ForceStop(w, pid, log1, n, from);
    }

    /** Stop one service; `found` is the unique process serving the address, if there is one. */
    method Stop(w: World, found: Option<nat>, service: Service, args: seq<string>, config: Config,
                parse: string -> Option<int>, requested: Option<int>)
      returns (o: StopOutcome)
      requires found.Some? ==> found.value < |w.procs|
      modifies this, w
      ensures found.None? ==> o == Raised(NotFound) && timeout == old(timeout) && w.log == old(w.log)
      // the timeout field holds the resolved value on every exit, also after the shorter forced wait
      ensures found.Some? ==> timeout == StopTimeout(service, args, config, parse, requested)
      ensures found.Some? ==> |w.log| > |old(w.log)| && w.log[..|old(w.log)|] == old(w.log)
      ensures found.Some? ==> StopProtocol(w.log, |old(w.log)|, found.value, timeout)
      // no wait looks for longer than it should
      ensures found.Some? ==> PromptWaits(w.log, |old(w.log)|, timeout)
      // it sleeps only for a short while, and only after both looks found the process still there
      ensures found.Some? ==> WatchfulNaps(w.naps, |old(w.naps)|, w.log, found.value)
      // every ending has a cause that was seen
      ensures found.Some? ==> Ends(o, w.log, |old(w.log)|, found.value, timeout, w.clock)
      ensures found.Some? ==> EndsBy(o, w.log[|w.log| - 1], found.value)
      // a failing stop of a running process leaves it gone exactly when SIGTERM or SIGKILL finds no process, or SIGKILL
      // is delivered and the wait after it does not see the process gone
      ensures found.Some? ==> |w.procs| == |old(w.procs)|
      ensures found.Some? && old(w.procs[found.value]).Running? && o.Raised? ==>
                (!w.procs[found.value].Running? <==> GoneBySignal(w.log, |old(w.log)|, found.value))
      // a normal return means that the process was observed gone or a zombie
      ensures o.Stopped? ==> found.Some? && !w.procs[found.value].Running?
    {
      if found.None? {
        return Raised(NotFound);
      }
      timeout := StopTimeout(service, args, config, parse, requested);
      hide StopTimeout, StopProtocol, Ends, EndsBy, GoneBySignal, KillDelivered, WatchfulNaps,
           PromptWaits;
      o := Terminate(w, found.value);
      EndingsExact(o, w.log, |old(w.log)|, found.value, timeout, w.clock);
    }
  }
}
