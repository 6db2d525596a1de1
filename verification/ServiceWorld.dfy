/** The operating system as the start and stop commands see it.

    Every method stands for one system call.  Its outcome is arbitrary within
    what the operating system guarantees: the clock never goes back, a sleep
    lasts at least as long as asked, an exited process stays exited.  What a
    command does to this world is therefore proved for every environment. */
module ServiceWorld {
  import opened Basics

  /** A number of seconds in nanoseconds. */
  function Seconds(n: int): int { n * 1_000_000_000 }

  /** `Running` means not known to be dead. */
  datatype Proc = Running | Exited(code: int, output: string) | Killed

  datatype Signal = Term | Kill | Null
  datatype SignalResult = Delivered | NoSuchProcess | Refused

  /** What `/proc/<pid>/stat` shows. */
  datatype Stat = Missing | Zombie | Alive | Unreadable

  datatype Event =
    | LockProbe(busy: bool)
    | SpawnFailed
    | Spawned(pid: nat)
    | Polled(pid: nat, exited: bool)
    | ReadyProbe(seen: bool)
    | LockConflictExit(pid: nat)
    | Signalled(pid: nat, signal: Signal, result: SignalResult, at: nat)
    | StatRead(pid: nat, stat: Stat)

  /** Questions that leave no trace in the process table. */
  datatype Probe =
    | AddressChecked(ok: bool)
    | Connected(ok: bool)
    | CommandBuilt(ok: bool)
    | FileRemoved(ok: bool)
    | OutputRead(pid: nat, ok: bool)

  /** A sleep that was asked for, how many events and answers there were before it, and when it began. */
  datatype Nap = Nap(duration: nat, events: nat, answers: nat, at: nat)

  /** Among the processes numbered from `base` on, no two may be alive. */
  ghost predicate OneAlive(procs: seq<Proc>, base: nat) {
    forall i, j :: base <= i < j < |procs| ==> !(procs[i].Running? && procs[j].Running?)
  }

  ghost predicate NoneAlive(procs: seq<Proc>, base: nat) {
    forall i :: base <= i < |procs| ==> !procs[i].Running?
  }

  class World {
    /** Monotonic clock, in nanoseconds. */
    var clock: nat
    /** All processes ever seen; the process id is the index. */
    var procs: seq<Proc>
    /** What the command observed and did, in order. */
    ghost var log: seq<Event>
    /** Other answers the command got, in order. */
    ghost var probes: seq<Probe>
    /** Every sleep, in order. */
    ghost var naps: seq<Nap>
    /** The process table after every step that can change it. */
    ghost var history: seq<seq<Proc>>

    method Monotonic() returns (now: nat)
      modifies this`clock
      ensures old(clock) <= clock && now == clock
    {
      var elapsed: int :| 0 <= elapsed;
      clock := clock + elapsed;
      now := clock;
    }

    method Sleep(duration: nat)
      modifies this`clock, this`naps
      ensures old(clock) + duration <= clock
      ensures naps == old(naps) + [Nap(duration, |log|, |probes|, old(clock))]
    {
      var extra: int :| 0 <= extra;
      naps := naps + [Nap(duration, |log|, |probes|, clock)];
      clock := clock + duration + extra;
    }

    method ProbeLock() returns (busy: bool)
      modifies this`log
      ensures log == old(log) + [LockProbe(busy)]
    {
      busy := *;
      log := log + [LockProbe(busy)];
    }

    method ReadyFileExists() returns (seen: bool)
      modifies this`log
      ensures log == old(log) + [ReadyProbe(seen)]
    {
      seen := *;
      log := log + [ReadyProbe(seen)];
    }

    /** Whether an address has the form that is asked for. */
    method AddressIsValid() returns (ok: bool)
      modifies this`probes
      ensures probes == old(probes) + [AddressChecked(ok)]
    {
      ok := *;
      probes := probes + [AddressChecked(ok)];
    }

    /** Whether the command line can be built: the programs are installed and no value is rejected. */
    method CommandBuilds() returns (ok: bool)
      modifies this`probes
      ensures probes == old(probes) + [CommandBuilt(ok)]
    {
      ok := *;
      probes := probes + [CommandBuilt(ok)];
    }

    /** Whether an address accepts a connection. */
    method Connects() returns (ok: bool)
      modifies this`probes
      ensures probes == old(probes) + [Connected(ok)]
    {
      ok := *;
      probes := probes + [Connected(ok)];
    }

    /** Checks the path of a file and removes the file when it exists; false when that raises. */
    method RemoveFile() returns (ok: bool)
      modifies this`probes
      ensures probes == old(probes) + [FileRemoved(ok)]
    {
      ok := *;
      probes := probes + [FileRemoved(ok)];
    }

    method Spawn() returns (pid: Option<nat>)
      modifies this`log, this`procs, this`history
      ensures history == old(history) + [procs]
      ensures pid.None? ==> procs == old(procs) && log == old(log) + [SpawnFailed]
      ensures pid.Some? ==> pid.value == |old(procs)| && procs == old(procs) + [Running]
                            && log == old(log) + [Spawned(pid.value)]
    {
      var ok: bool := *;
      if ok {
        pid := Some(|procs|);
        procs := procs + [Running];
        log := log + [Spawned(pid.value)];
      } else {
        pid := None;
        log := log + [SpawnFailed];
      }
      history := history + [procs];
    }

    /** `Popen.poll`: the exit code once the process has exited. */
    method Poll(pid: nat) returns (code: Option<int>)
      requires pid < |procs| && !procs[pid].Killed?
      modifies this`log, this`procs, this`history
      ensures history == old(history) + [procs]
      ensures log == old(log) + [Polled(pid, code.Some?)]
      ensures |procs| == |old(procs)| && procs == old(procs)[pid := procs[pid]]
      ensures old(procs)[pid].Exited? ==> procs == old(procs)
      ensures code.None? ==> procs[pid].Running?
      ensures code.Some? ==> procs[pid].Exited? && procs[pid].code == code.value
    {
      var exits: bool := *;
      if procs[pid].Running? && exits {
        var c: int := *;
        var output: string := *;
        procs := procs[pid := Exited(c, output)];
      }
      code := if procs[pid].Exited? then Some(procs[pid].code) else None;
      log := log + [Polled(pid, code.Some?)];
      history := history + [procs];
    }

    /** `Popen.communicate` with a time limit; nothing when the limit passes. */
    method Communicate(pid: nat) returns (output: Option<string>)
      requires pid < |procs| && procs[pid].Exited?
      modifies this`probes
      ensures output.Some? ==> output.value == procs[pid].output
      ensures probes == old(probes) + [OutputRead(pid, output.Some?)]
    {
      var inTime: bool := *;
      output := if inTime then Some(procs[pid].output) else None;
      probes := probes + [OutputRead(pid, inTime)];
    }

    /** `os.kill`.  SIGKILL that is delivered is final; a missing process has exited. */
    method Send(pid: nat, signal: Signal) returns (result: SignalResult)
      requires pid < |procs|
      modifies this`log, this`procs, this`history
      ensures history == old(history) + [procs]
      ensures log == old(log) + [Signalled(pid, signal, result, clock)]
      ensures |procs| == |old(procs)| && procs == old(procs)[pid := procs[pid]]
      ensures !old(procs)[pid].Running? ==> procs == old(procs)
      ensures result.NoSuchProcess? ==> !procs[pid].Running?
      ensures result.Delivered? && signal.Kill? ==> !procs[pid].Running?
      ensures !result.NoSuchProcess? && !(result.Delivered? && signal.Kill?) ==> procs == old(procs)
    {
      result := *;
      if procs[pid].Running? {
        if result.NoSuchProcess? {
          var c: int := *;
          var output: string := *;
          procs := procs[pid := Exited(c, output)];
        } else if result.Delivered? && signal.Kill? {
          procs := procs[pid := Killed];
        }
      }
      log := log + [Signalled(pid, signal, result, clock)];
      history := history + [procs];
    }

    /** Reads the state of a process; a missing or zombie process has exited. */
    method ReadStat(pid: nat) returns (stat: Stat)
      requires pid < |procs|
      modifies this`log, this`procs, this`history
      ensures history == old(history) + [procs]
      ensures log == old(log) + [StatRead(pid, stat)]
      ensures |procs| == |old(procs)| && procs == old(procs)[pid := procs[pid]]
      ensures !old(procs)[pid].Running? ==> procs == old(procs)
      ensures stat.Missing? || stat.Zombie? ==> !procs[pid].Running?
      ensures stat.Alive? || stat.Unreadable? ==> procs == old(procs)
    {
      stat := *;
      if procs[pid].Running? && (stat.Missing? || stat.Zombie?) {
        var c: int := *;
        var output: string := *;
        procs := procs[pid := Exited(c, output)];
      }
      log := log + [StatRead(pid, stat)];
      history := history + [procs];
    }
  }
}
