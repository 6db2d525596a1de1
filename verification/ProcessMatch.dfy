/** Which processes `dscli stop` takes for the service it looks for. */
module ProcessMatch {
  import opened Basics
  import opened CommandLine
  import opened ReadBack

  /** `os.path.basename`. */
  function Basename(path: string): string {
    if path == "" || path[|path| - 1] == '/' then "" else Basename(path[..|path| - 1]) + [path[|path| - 1]]
  }

  lemma BasenameSnoc(path: string, c: char)
    ensures Basename(path + [c]) == if c == '/' then "" else Basename(path) + [c]
  {
    assert (path + [c])[..|path|] == path;
  }

  /** `prefix` ends in a separator or is empty, and `name` has none. */
  lemma {:induction false} BasenameAfter(prefix: string, name: string)
    requires '/' !in name && Basename(prefix) == ""
    ensures Basename(prefix + name) == name
  {
    hide Basename;
    if name == "" {
      assert prefix + name == prefix;
    } else {
      var init, last := name[..|name| - 1], name[|name| - 1];
      assert last in name && forall c :: c in init ==> c in name;
      BasenameAfter(prefix, init);
      BasenameSnoc(prefix + init, last);
      assert prefix + name == (prefix + init) + [last];
      assert name == init + [last];
    }
  }

  lemma BasenameOfJoin(dir: string, name: string)
    requires '/' !in name
    ensures Basename(dir + "/" + name) == name
    ensures Basename(name) == name
  {
    BasenameSnoc(dir, '/');
    BasenameAfter(dir + "/", name);
    assert "" + name == name;
    BasenameAfter("", name);
  }

  /** Some argument has this base name. */
  predicate Names(args: seq<string>, name: string) { exists i :: 0 <= i < |args| && Basename(args[i]) == name }

  /** `is_expected_process` on the argument list of a candidate process. */
  predicate IsExpectedProcess(args: seq<string>, flag: string, address: string, binary: string) {
    args != [] && Basename(args[0]) != "dscli" && Names(args, binary) && FlagValue(args, flag) == Some(address)
  }

  /** `dscli` itself is never taken for a service, whatever its arguments. */
  lemma DscliIsSkipped(dir: string, rest: seq<string>, flag: string, address: string, binary: string)
    ensures !IsExpectedProcess([dir + "/" + "dscli"] + rest, flag, address, binary)
    ensures !IsExpectedProcess(["dscli"] + rest, flag, address, binary)
  {
    hide Names, FlagValue, Basename;
    BasenameOfJoin(dir, "dscli");
  }

  const WORKER_ADDRESS := "worker_address"
  const WORKER_BINARY := "datasystem_worker"
  const COORDINATOR_ADDRESS := "coordinator_address"
  const COORDINATOR_BINARY := "datasystem_coordinator"
  const COORDINATOR_FILTERED := {SERVICE_TYPE, WORKER_ADDRESS}

  /** A launch of `dir/binary`, possibly through `ums_run` and numactl. */
  ghost predicate LaunchOf(l: Launch, dir: string, binary: string) {
    && GoodLaunch(l) && l.binary == dir + "/" + binary
    && (l.umsRun.Some? ==> exists d :: l.umsRun.value == d + "/" + "ums_run")
  }

  lemma AddressesAreClean()
    ensures CleanKey(WORKER_ADDRESS) && WORKER_ADDRESS !in NUMACTL_KEYS
    ensures CleanKey(COORDINATOR_ADDRESS) && COORDINATOR_ADDRESS !in NUMACTL_KEYS
  {
  }

  /** The launched command starts with a program that is not dscli, and names the binary. */
  lemma LaunchNamesBinary(l: Launch, dir: string, binary: string)
    requires LaunchOf(l, dir, binary) && '/' !in binary && binary != "dscli"
    ensures LaunchArgs(l) != [] && Basename(LaunchArgs(l)[0]) != "dscli"
    ensures Basename(LaunchArgs(l)[|LaunchArgs(l)| - 1]) == binary
  {
    BasenameOfJoin(dir, binary);
    BasenameOfJoin("", "numactl");
    if l.umsRun.Some? {
      var d :| l.umsRun.value == d + "/" + "ums_run";
      BasenameOfJoin(d, "ums_run");
    }
    var first := LaunchArgs(l)[0];
    assert first == if l.umsRun.Some? then l.umsRun.value else if l.numactl.Some? then "numactl" else l.binary;
    hide LaunchArgs, Basename;
    assert Basename(first) in {"ums_run", "numactl", binary};
  }

  /** A started process is accepted under its own binary exactly for the address it was given. */
  lemma StopFindsStarted(l: Launch, dir: string, params: seq<Param>, excluded: set<string>, flag: string,
                         address: string, binary: string)
    requires LaunchOf(l, dir, binary) && '/' !in binary && binary != "dscli"
    requires CleanKey(flag) && flag !in NUMACTL_KEYS && DistinctKeys(params) && Undisturbed(params, excluded, flag)
    ensures IsExpectedProcess(Command(l, params, excluded), flag, address, binary) <==>
            Printed(params, excluded, flag) == Some(address)
  {
    var args := Command(l, params, excluded);
    hide CleanKey, Extends;
    CleanKeyReadsBack(l, params, excluded, flag);
    LaunchNamesBinary(l, dir, binary);
    hide FlagValue, Flags, LaunchArgs, Basename, Printed, LaunchOf, Undisturbed, DistinctKeys;
    var n := |LaunchArgs(l)| - 1;
    assert args[n] == LaunchArgs(l)[n] && args[0] == LaunchArgs(l)[0];
  }

  /** `dscli stop` accepts the process of a started worker exactly for the address the worker was given. */
  lemma StopFindsStartedWorker(l: Launch, dir: string, params: seq<Param>, address: string)
    requires LaunchOf(l, dir, WORKER_BINARY) && DistinctKeys(params) && Undisturbed(params, {}, WORKER_ADDRESS)
    ensures IsExpectedProcess(Command(l, params, {}), WORKER_ADDRESS, address, WORKER_BINARY) <==>
            Printed(params, {}, WORKER_ADDRESS) == Some(address)
  {
    hide CleanKey, LaunchOf, DistinctKeys, Undisturbed, IsExpectedProcess, Command, Printed;
    AddressesAreClean();
    StopFindsStarted(l, dir, params, {}, WORKER_ADDRESS, address, WORKER_BINARY);
  }

  /** `dscli stop` accepts the process of a started coordinator exactly for the address the coordinator was given. */
  lemma StopFindsStartedCoordinator(l: Launch, dir: string, params: seq<Param>, address: string)
    requires LaunchOf(l, dir, COORDINATOR_BINARY) && DistinctKeys(params)
    requires Undisturbed(params, COORDINATOR_FILTERED, COORDINATOR_ADDRESS)
    ensures IsExpectedProcess(Command(l, params, COORDINATOR_FILTERED), COORDINATOR_ADDRESS, address,
                              COORDINATOR_BINARY) <==>
            Printed(params, COORDINATOR_FILTERED, COORDINATOR_ADDRESS) == Some(address)
  {
    hide CleanKey, LaunchOf, DistinctKeys, Undisturbed, IsExpectedProcess, Command, Printed;
    AddressesAreClean();
    StopFindsStarted(l, dir, params, COORDINATOR_FILTERED, COORDINATOR_ADDRESS, address, COORDINATOR_BINARY);
  }

  /** `dscli stop` never takes a coordinator for a worker: the coordinator is started without a worker address. */
  lemma StopSkipsCoordinator(l: Launch, params: seq<Param>, address: string, binary: string)
    requires GoodLaunch(l) && DistinctKeys(params) && Undisturbed(params, COORDINATOR_FILTERED, WORKER_ADDRESS)
    ensures !IsExpectedProcess(Command(l, params, COORDINATOR_FILTERED), WORKER_ADDRESS, address, binary)
  {
    hide CleanKey, Extends, FlagValue, Command;
    AddressesAreClean();
    CleanKeyReadsBack(l, params, COORDINATOR_FILTERED, WORKER_ADDRESS);
    PrintedIs(params, COORDINATOR_FILTERED, WORKER_ADDRESS);
    hide Printed, Names;
  }

  // ---------------------------------------------------------------- a worker taken for a coordinator

  /** `v` is a path to something called `name`. */
  predicate PathTo(v: string, name: string) { '/' in v && Basename(v) == name }

  lemma {:induction false} BasenameOfTail(prefix: string, v: string)
    ensures Basename(prefix + v) == if '/' in v then Basename(v) else Basename(prefix) + v
  {
    hide Basename;
    if v == "" {
      assert prefix + v == prefix && Basename(prefix) + v == Basename(prefix);
    } else {
      var init, last := v[..|v| - 1], v[|v| - 1];
      assert v == init + [last] && prefix + v == (prefix + init) + [last];
      BasenameOfTail(prefix, init);
      BasenameSnoc(prefix + init, last);
      BasenameSnoc(init, last);
      if '/' in v && last != '/' {
        assert '/' in init;
      }
      assert Basename(prefix) + init + [last] == Basename(prefix) + v;
    }
  }

  /** A printed flag has the base name of a program only through a path in its value. */
  lemma FlagNames(k: string, v: string, name: string)
    requires '=' !in name
    ensures Basename(Flag(k, v)) == name <==> PathTo(v, name)
  {
    hide Basename;
    var prefix := "--" + k + "=";
    assert Flag(k, v) == prefix + v;
    BasenameOfTail(prefix, v);
    BasenameSnoc("--" + k, '=');
    assert "--" + k + ['='] == prefix;
    if '/' !in v {
      var b := Basename("--" + k);
      assert (b + ['='] + v)[|b|] == '=';
    }
  }

  lemma NamesAppend(a: seq<string>, b: seq<string>, name: string)
    ensures Names(a + b, name) <==> Names(a, name) || Names(b, name)
  {
    hide Basename;
    if i :| 0 <= i < |b| && Basename(b[i]) == name {
      assert (a + b)[|a| + i] == b[i];
    }
    if i :| 0 <= i < |a| && Basename(a[i]) == name {
      assert (a + b)[i] == a[i];
    }
  }

  ghost predicate OptPathTo(value: Option<string>, name: string) { value.Some? && PathTo(value.value, name) }

  lemma OptNames(k: string, value: Option<string>, name: string)
    requires '=' !in name
    ensures Names(Opt(k, value), name) <==> OptPathTo(value, name)
  {
    if value.Some? {
      FlagNames(k, value.value, name);
      assert Opt(k, value)[0] == Flag(k, value.value);
    }
  }

  /** A numactl option whose value is a path to something called `name`. */
  ghost predicate NumactlPathTo(o: Numactl, name: string) {
    || OptPathTo(o.cpunodebind, name) || OptPathTo(o.physcpubind, name) || OptPathTo(o.interleave, name)
    || OptPathTo(o.preferred, name) || OptPathTo(o.membind, name)
  }

  lemma NumactlNames(o: Numactl, name: string)
    requires '=' !in name && name != "numactl" && name != "--localalloc"
    ensures Names(NumactlArgs(o), name) <==> NumactlPathTo(o, name)
  {
    BasenameOfJoin("", "numactl");
    BasenameOfJoin("", "--localalloc");
    OptNames("cpunodebind", o.cpunodebind, name);
    OptNames("physcpubind", o.physcpubind, name);
    OptNames("interleave", o.interleave, name);
    OptNames("preferred", o.preferred, name);
    OptNames("membind", o.membind, name);
    hide Opt, Basename, OptPathTo;
    var a := ["numactl"] + Opt("cpunodebind", o.cpunodebind);
    var b := a + Opt("physcpubind", o.physcpubind);
    var c := b + Opt("interleave", o.interleave);
    var d := c + Opt("preferred", o.preferred);
    var e := d + Opt("membind", o.membind);
    var f := if o.localalloc then ["--localalloc"] else [];
    NamesAppend(["numactl"], Opt("cpunodebind", o.cpunodebind), name);
    NamesAppend(a, Opt("physcpubind", o.physcpubind), name);
    NamesAppend(b, Opt("interleave", o.interleave), name);
    NamesAppend(c, Opt("preferred", o.preferred), name);
    NamesAppend(d, Opt("membind", o.membind), name);
    NamesAppend(e, f, name);
    assert NumactlArgs(o) == e + f;
  }

  ghost predicate SomePathTo(params: seq<Param>, excluded: set<string>, name: string) {
    exists i :: 0 <= i < |params| && Emitted(params[i], excluded) && PathTo(params[i].value, name)
  }

  lemma {:induction false} FlagsName(params: seq<Param>, excluded: set<string>, name: string)
    requires '=' !in name
    ensures Names(Flags(params, excluded), name) <==> SomePathTo(params, excluded, name)
  {
    if params != [] {
      hide Basename, Flag, Emitted, PathTo;
      var init, p := params[..|params| - 1], params[|params| - 1];
      var last := if Emitted(p, excluded) then [Flag(p.key, p.value)] else [];
      FlagsName(init, excluded, name);
      FlagNames(p.key, p.value, name);
      NamesAppend(Flags(init, excluded), last, name);
      assert Names(last, name) <==> Emitted(p, excluded) && PathTo(p.value, name) by {
        assert Emitted(p, excluded) ==> last[0] == Flag(p.key, p.value);
      }
      if SomePathTo(params, excluded, name) && !(Emitted(p, excluded) && PathTo(p.value, name)) {
        var i :| 0 <= i < |params| && Emitted(params[i], excluded) && PathTo(params[i].value, name);
        assert init[i] == params[i];
      }
    }
  }

  /** Not a name that the launcher itself brings in. */
  ghost predicate ForeignName(name: string) {
    '=' !in name && name != "ums_run" && name != "numactl" && name != "--localalloc"
  }

  lemma UmsRunNames(l: Launch, dir: string, binary: string, name: string)
    requires LaunchOf(l, dir, binary) && ForeignName(name)
    ensures l.umsRun.Some? ==> Basename(l.umsRun.value) != name
  {
    if l.umsRun.Some? {
      var d :| l.umsRun.value == d + "/" + "ums_run";
      BasenameOfJoin(d, "ums_run");
    }
  }

  lemma LaunchNames(l: Launch, dir: string, binary: string, name: string)
    requires LaunchOf(l, dir, binary) && '/' !in binary && binary != name && ForeignName(name)
    ensures Names(LaunchArgs(l), name) <==> l.numactl.Some? && NumactlPathTo(l.numactl.value, name)
  {
    BasenameOfJoin(dir, binary);
    hide Basename, NumactlArgs, NumactlPathTo;
    var ums := if l.umsRun.Some? then [l.umsRun.value] else [];
    var numa := if l.numactl.Some? then NumactlArgs(l.numactl.value) else [];
    UmsRunNames(l, dir, binary, name);
    if l.numactl.Some? {
      NumactlNames(l.numactl.value, name);
    }
    assert LaunchArgs(l) == (ums + numa) + [l.binary];
    hide LaunchArgs, ForeignName;
    NamesAppend(ums, numa, name);
    NamesAppend(ums + numa, [l.binary], name);
  }

  /** A process is accepted under the name of another binary exactly when a value on its command line is a path to
      something of that name. */
  lemma TakenFor(l: Launch, dir: string, binary: string, params: seq<Param>, flag: string, address: string,
                 name: string)
    requires LaunchOf(l, dir, binary) && '/' !in binary && binary != "dscli" && binary != name && ForeignName(name)
    requires CleanKey(flag) && flag !in NUMACTL_KEYS && DistinctKeys(params) && Undisturbed(params, {}, flag)
    ensures IsExpectedProcess(Command(l, params, {}), flag, address, name) <==>
            && Printed(params, {}, flag) == Some(address)
            && (SomePathTo(params, {}, name) || (l.numactl.Some? && NumactlPathTo(l.numactl.value, name)))
  {
    var args := Command(l, params, {});
    hide CleanKey, Extends, Basename, Flags, LaunchArgs, Printed, FlagValue, SomePathTo, NumactlPathTo, Names;
    LaunchNamesBinary(l, dir, binary);
    LaunchNames(l, dir, binary, name);
    FlagsName(params, {}, name);
    CleanKeyReadsBack(l, params, {}, flag);
    NamesAppend(LaunchArgs(l), Flags(params, {}), name);
    assert args[0] == LaunchArgs(l)[0];
  }

  lemma BinariesDiffer()
    ensures '/' !in WORKER_BINARY && WORKER_BINARY != "dscli" && WORKER_BINARY != COORDINATOR_BINARY
    ensures '/' !in COORDINATOR_BINARY && ForeignName(COORDINATOR_BINARY)
  {
  }

  /** `dscli stop` takes a worker for the coordinator that the worker uses exactly when a value on the worker's command
      line is a path to something called like the coordinator binary. */
  lemma WorkerTakenForCoordinator(l: Launch, dir: string, params: seq<Param>, address: string)
    requires LaunchOf(l, dir, WORKER_BINARY) && DistinctKeys(params) && Undisturbed(params, {}, COORDINATOR_ADDRESS)
    ensures IsExpectedProcess(Command(l, params, {}), COORDINATOR_ADDRESS, address, COORDINATOR_BINARY) <==>
            && Printed(params, {}, COORDINATOR_ADDRESS) == Some(address)
            && (SomePathTo(params, {}, COORDINATOR_BINARY)
                || (l.numactl.Some? && NumactlPathTo(l.numactl.value, COORDINATOR_BINARY)))
  {
    AddressesAreClean();
    BinariesDiffer();
    hide *;
    TakenFor(l, dir, WORKER_BINARY, params, COORDINATOR_ADDRESS, address, COORDINATOR_BINARY);
  }

  lemma LogDirParams(address: string, path: string)
    requires !IsBlank(address) && !IsBlank(path) && PathTo(path, COORDINATOR_BINARY)
    ensures var params := [Param(COORDINATOR_ADDRESS, address), Param("log_dir", path)];
            && DistinctKeys(params) && Undisturbed(params, {}, COORDINATOR_ADDRESS)
            && Printed(params, {}, COORDINATOR_ADDRESS) == Some(address) && SomePathTo(params, {}, COORDINATOR_BINARY)
  {
    hide IsBlank, PathTo;
    var p, q := Param(COORDINATOR_ADDRESS, address), Param("log_dir", path);
    assert '=' !in p.key && '=' !in q.key && |p.key| != |q.key|;
    AddressesAreClean();
    CleanKeyClashes(p.key, COORDINATOR_ADDRESS);
    CleanKeyClashes(q.key, COORDINATOR_ADDRESS);
    ExtendsHasEquals(p.key, COORDINATOR_ADDRESS);
    ExtendsHasEquals(q.key, COORDINATOR_ADDRESS);
    assert Emitted(p, {}) && Emitted(q, {});
    hide Extends, Clash, Emitted;
    var params := [p, q];
    assert params[..1] == [p] && params[0] == p && params[1] == q;
  }

  /** For example, when its log directory is called so. */
  lemma LogDirMakesACoordinator(l: Launch, dir: string, address: string)
    requires LaunchOf(l, dir, WORKER_BINARY) && !IsBlank(address)
    ensures var params := [Param(COORDINATOR_ADDRESS, address), Param("log_dir", "/x" + "/" + COORDINATOR_BINARY)];
            IsExpectedProcess(Command(l, params, {}), COORDINATOR_ADDRESS, address, COORDINATOR_BINARY)
  {
    hide Basename;
    var path := "/x" + "/" + COORDINATOR_BINARY;
    assert !IsBlank(path) && '/' in path by {
      assert path[0] == '/' && !IsSpace(path[0]);
    }
    BinariesDiffer();
    BasenameOfJoin("/x", COORDINATOR_BINARY);
    LogDirParams(address, path);
    hide *;
    var params := [Param(COORDINATOR_ADDRESS, address), Param("log_dir", path)];
    WorkerTakenForCoordinator(l, dir, params, address);
  }
}
