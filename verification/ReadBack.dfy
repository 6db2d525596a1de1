/** Round trip of a command line: what `dscli start` prints and what `dscli stop`
    reads back from it, and exactly when they agree. */
module ReadBack {
  import opened Basics
  import opened CommandLine
  import opened Tally

  /** `s` is `t`, an '=' and anything. */
  predicate Extends(s: string, t: string) { StartsWith(s, t + "=") }

  /** A parameter `k` can be printed so that it says something about the other key `key`. */
  predicate Clash(k: string, key: string) {
    && k != key
    && (key == "-" + k || Extends(k, key) || Extends(key, k) || Extends("-" + k, key) || Extends(key, "-" + k))
  }

  lemma PrefixCases(k: string, v: string, key: string)
    requires Extends(k + "=" + v, key)
    ensures k == key || Extends(k, key) || Extends(key, k)
  {
    var t := k + "=" + v;
    if |key| < |k| {
      assert t[..|key| + 1] == k[..|key| + 1];
    } else {
      assert t[..|k| + 1] == k + "=";
      assert key == t[..|key|] by {
        assert t[..|key| + 1][..|key|] == key;
      }
      if |k| < |key| {
        assert key[..|k| + 1] == t[..|k| + 1];
      } else {
        assert t[..|k|] == k;
      }
    }
  }

  /** `arg` says nothing about `key`. */
  ghost predicate Silent(arg: string, key: string) {
    AssignedValue(arg, key).None? && !IsOption(arg, key)
  }

  ghost predicate AllSilent(args: seq<string>, key: string) {
    forall i :: 0 <= i < |args| ==> Silent(args[i], key)
  }

  lemma TailStarts(head: string, s: string, t: string)
    ensures StartsWith(head + s, head + t) <==> StartsWith(s, t)
  {
    var n := |head|;
    if |t| <= |s| {
      assert (head + s)[..n + |t|] == head + s[..|t|];
      assert (head + s[..|t|])[n..] == s[..|t|] && (head + t)[n..] == t;
    }
  }

  /** Where a printed flag starts with one or the other form of `key`. */
  lemma FlagForms(k: string, v: string, key: string)
    ensures StartsWith(Flag(k, v), "--" + key + "=") <==> Extends(k + "=" + v, key)
    ensures StartsWith(Flag(k, v), "-" + key + "=") <==> Extends(("-" + k) + "=" + v, key)
  {
    var arg, t, u := Flag(k, v), k + "=" + v, ("-" + k) + "=" + v;
    assert arg == "--" + t == "-" + u;
    TailStarts("--", t, key + "=");
    TailStarts("-", u, key + "=");
    assert "--" + key + "=" == "--" + (key + "=") && "-" + key + "=" == "-" + (key + "=");
  }

  lemma OwnFlagReads(key: string, v: string)
    ensures AssignedValue(Flag(key, v), key) == Some(v)
  {
    assert Flag(key, v)[..|key| + 3] == "--" + key + "=";
  }

  lemma OptionExtends(k: string, v: string, key: string)
    requires IsOption(Flag(k, v), key)
    ensures Extends(key, k) || Extends(key, "-" + k)
  {
    var arg, t, u := Flag(k, v), k + "=" + v, ("-" + k) + "=" + v;
    assert arg == "--" + t == "-" + u;
    if arg == "--" + key {
      assert key == arg[2..] == t;
      assert t[..|k| + 1] == k + "=";
    } else {
      assert key == arg[1..] == u;
      assert u[..|k| + 2] == ("-" + k) + "=";
    }
  }

  lemma NoClashIsSilent(k: string, v: string, key: string)
    requires k != key && !Clash(k, key)
    ensures Silent(Flag(k, v), key)
  {
    FlagForms(k, v, key);
    if Extends(k + "=" + v, key) {
      PrefixCases(k, v, key);
    }
    if Extends(("-" + k) + "=" + v, key) {
      PrefixCases("-" + k, v, key);
    }
    assert Flag(k, v) == "--" + (k + "=" + v) == "-" + (("-" + k) + "=" + v);
    if IsOption(Flag(k, v), key) {
      OptionExtends(k, v, key);
    }
  }

  /** A clash shows with some value, one that is printed. */
  lemma ClashCaptures(k: string, key: string) returns (v: string)
    requires Clash(k, key)
    ensures !IsBlank(v) && AssignedValue(Flag(k, v), key).Some?
  {
    v := "x";
    if Extends(key, k) {
      v := key[|k| + 1..] + "=x";
      assert k + "=" + v == key + "=x";
    } else if Extends(key, "-" + k) {
      v := key[|k| + 2..] + "=x";
      assert ("-" + k) + "=" + v == key + "=x";
    } else if key == "-" + k {
      assert ("-" + k) + "=" + v == key + "=" + v;
    } else if Extends(k, key) {
      assert (k + "=" + v)[..|key| + 1] == k[..|key| + 1];
    } else {
      assert (("-" + k) + "=" + v)[..|key| + 1] == ("-" + k)[..|key| + 1];
    }
    assert !IsSpace('x') && v[|v| - 1] == 'x';
    assert (key + "=x")[..|key| + 1] == key + "=";
    FlagForms(k, v, key);
  }

  lemma PlainIsSilent(arg: string, key: string)
    requires arg != "" && arg[0] != '-'
    ensures Silent(arg, key)
  {
    assert ("--" + key + "=")[0] == '-' && ("-" + key + "=")[0] == '-';
    assert ("--" + key)[0] == '-' && ("-" + key)[0] == '-';
  }

  /** Paths of the programs that are launched are absolute. */
  ghost predicate GoodLaunch(l: Launch) {
    && |l.binary| > 0 && l.binary[0] == '/'
    && (l.umsRun.Some? ==> |l.umsRun.value| > 0 && l.umsRun.value[0] == '/')
  }

  /** Nothing in `args` is read as a value of `key`; bare options do not matter for a key that is printed. */
  ghost predicate Unclaimed(args: seq<string>, key: string, printed: bool) {
    forall i :: 0 <= i < |args| ==> AssignedValue(args[i], key).None? && (printed || !IsOption(args[i], key))
  }

  lemma {:induction false} SkipUnassigned(a: seq<string>, b: seq<string>, key: string)
    requires forall i :: 0 <= i < |a| ==> AssignedValue(a[i], key).None?
    ensures FirstAssigned(a + b, key) == FirstAssigned(b, key)
  {
    if a == [] {
      assert a + b == b;
    } else {
      assert (a + b)[1..] == a[1..] + b;
      SkipUnassigned(a[1..], b, key);
    }
  }

  lemma {:induction false} NoOption(args: seq<string>, key: string)
    requires forall i :: 0 <= i < |args| ==> !IsOption(args[i], key)
    ensures FirstOption(args, key).None?
  {
    if |args| >= 2 {
      NoOption(args[1..], key);
    }
  }

  lemma {:induction false} SomeOption(args: seq<string>, key: string, i: nat)
    requires i + 1 < |args| && IsOption(args[i], key)
    ensures FirstOption(args, key).Some?
  {
    if i > 0 {
      SomeOption(args[1..], key, i - 1);
    }
  }

  lemma {:induction false} SomeAssigned(args: seq<string>, key: string, i: nat)
    requires i < |args| && AssignedValue(args[i], key).Some?
    ensures FirstAssigned(args, key).Some?
  {
    if i > 0 {
      SomeAssigned(args[1..], key, i - 1);
    }
  }

  lemma {:induction false} AssignedAppend(a: seq<string>, b: seq<string>, key: string)
    ensures FirstAssigned(a + b, key) ==
              if FirstAssigned(a, key).Some? then FirstAssigned(a, key) else FirstAssigned(b, key)
  {
    if a == [] {
      assert a + b == b;
    } else {
      assert (a + b)[1..] == a[1..] + b;
      AssignedAppend(a[1..], b, key);
    }
  }

  ghost predicate DistinctKeys(params: seq<Param>) {
    forall i, j :: 0 <= i < j < |params| ==> params[i].key != params[j].key
  }

  /** The value a key is printed with, if it is printed at all. */
  function Printed(params: seq<Param>, excluded: set<string>, key: string): Option<string> {
    if params == [] then None
    else
      var p := params[|params| - 1];
      if p.key == key && Emitted(p, excluded) then Some(p.value)
      else Printed(params[..|params| - 1], excluded, key)
  }

  lemma {:induction false} PrintedIs(params: seq<Param>, excluded: set<string>, key: string)
    ensures Printed(params, excluded, key).Some? <==>
              exists i :: 0 <= i < |params| && params[i].key == key && Emitted(params[i], excluded)
    ensures Printed(params, excluded, key).Some? ==> Param(key, Printed(params, excluded, key).value) in params
  {
    if params != [] {
      var init := params[..|params| - 1];
      PrintedIs(init, excluded, key);
      assert forall i :: 0 <= i < |init| ==> init[i] == params[i];
    }
  }

  /** A parameter is printed exactly when it is given, neither excluded nor the service type, and not all blank. */
  lemma PrintedMeans(params: seq<Param>, excluded: set<string>, key: string, v: string)
    requires DistinctKeys(params)
    ensures Printed(params, excluded, key) == Some(v) <==>
            && Param(key, v) in params && key !in excluded && key != "service_type"
            && exists i :: 0 <= i < |v| && !IsSpace(v[i])
  {
    PrintedIs(params, excluded, key);
    hide Printed;
    if Param(key, v) in params {
      var i :| 0 <= i < |params| && params[i] == Param(key, v);
      assert Emitted(params[i], excluded) <==> Printable(key, excluded) && !IsBlank(v);
    }
  }

  /** A parameter that clashes with `key` is printed only after `key` itself. */
  ghost predicate Undisturbed(params: seq<Param>, excluded: set<string>, key: string) {
    forall i :: 0 <= i < |params| && Emitted(params[i], excluded) && Clash(params[i].key, key) ==>
      Printed(params[..i], excluded, key).Some?
  }

  lemma UndisturbedInit(params: seq<Param>, excluded: set<string>, key: string)
    requires params != [] && DistinctKeys(params) && Undisturbed(params, excluded, key)
    ensures var init := params[..|params| - 1]; DistinctKeys(init) && Undisturbed(init, excluded, key)
  {
    hide Clash, Emitted, Printed;
    var init := params[..|params| - 1];
    forall i | 0 <= i < |init| && Emitted(init[i], excluded) && Clash(init[i].key, key)
      ensures Printed(init[..i], excluded, key).Some?
    {
      assert init[..i] == params[..i];
    }
  }

  /** Reading an undisturbed key from the printed flags gives the value it was printed with. */
  lemma {:induction false} FlagsRead(params: seq<Param>, excluded: set<string>, key: string)
    requires DistinctKeys(params) && Undisturbed(params, excluded, key)
    ensures FirstAssigned(Flags(params, excluded), key) == Printed(params, excluded, key)
    ensures Printed(params, excluded, key).None? ==> AllSilent(Flags(params, excluded), key)
  {
    if params != [] {
      var init, p := params[..|params| - 1], params[|params| - 1];
      var rest, arg := Flags(init, excluded), Flag(p.key, p.value);
      assert rest + [] == rest;
      UndisturbedInit(params, excluded, key);
      assert Flags(params, excluded) == if Emitted(p, excluded) then rest + [arg] else rest;
      assert Printed(params, excluded, key) ==
        if p.key == key && Emitted(p, excluded) then Some(p.value) else Printed(init, excluded, key);
      hide Flags, Printed, Flag, IsOption, AssignedValue, Emitted, Clash;
      FlagsRead(init, excluded, key);
      AssignedAppend(rest, [arg], key);
      assert FirstAssigned([arg], key) == AssignedValue(arg, key);
      if p.key == key {
        OwnFlagReads(key, p.value);
        PrintedIs(init, excluded, key);
        assert Printed(init, excluded, key).None?;
      } else if !Clash(p.key, key) {
        NoClashIsSilent(p.key, p.value, key);
      }
    }
  }

  /** What is read back from the command line is what was printed. */
  ghost predicate ReadsBack(l: Launch, params: seq<Param>, excluded: set<string>, key: string) {
    FlagValue(Command(l, params, excluded), key) == Printed(params, excluded, key)
  }

  /** Print and read back: every printed key reads as its value, every other key as absent. */
  lemma CommandReadsBack(l: Launch, params: seq<Param>, excluded: set<string>, key: string)
    requires DistinctKeys(params) && Undisturbed(params, excluded, key)
    requires Unclaimed(LaunchArgs(l), key, Printed(params, excluded, key).Some?)
    ensures ReadsBack(l, params, excluded, key)
  {
    FlagsRead(params, excluded, key);
    hide LaunchArgs, Flags, IsOption, AssignedValue, Clash, Printed, FirstOption, FirstAssigned;
    SkipUnassigned(LaunchArgs(l), Flags(params, excluded), key);
    if Printed(params, excluded, key).None? {
      NoOption(Command(l, params, excluded), key);
    }
  }

  /** Print and read back through the kernel's NUL-separated form, for arguments the kernel accepts. */
  lemma CmdlineReadsBack(l: Launch, params: seq<Param>, excluded: set<string>, key: string)
    requires DistinctKeys(params) && Undisturbed(params, excluded, key)
    requires Unclaimed(LaunchArgs(l), key, Printed(params, excluded, key).Some?)
    requires CleanArgs(Command(l, params, excluded))
    ensures FlagValue(Split(Join(Command(l, params, excluded)), ""), key) == Printed(params, excluded, key)
  {
    SplitJoin(Command(l, params, excluded));
    CommandReadsBack(l, params, excluded, key);
  }

  // ---------------------------------------------------------------- exactly when every choice of values reads back

  function With(keys: seq<string>, values: seq<string>): seq<Param>
    requires |keys| == |values|
  {
    seq(|keys|, i requires 0 <= i < |keys| => Param(keys[i], values[i]))
  }

  /** Values for the keys, none of them blank. */
  ghost predicate Shown(keys: seq<string>, values: seq<string>) {
    |values| == |keys| && forall i :: 0 <= i < |values| ==> !IsBlank(values[i])
  }

  ghost predicate AlwaysReadsBack(l: Launch, keys: seq<string>, excluded: set<string>, key: string) {
    forall values :: Shown(keys, values) ==> ReadsBack(l, With(keys, values), excluded, key)
  }

  /** `key` is one of the printed keys. */
  predicate Shows(keys: seq<string>, excluded: set<string>, key: string) { key in keys && Printable(key, excluded) }

  /** A printed key that clashes with `key` comes only after `key` itself. */
  ghost predicate NoClash(keys: seq<string>, excluded: set<string>, key: string) {
    forall i :: 0 <= i < |keys| && Printable(keys[i], excluded) && Clash(keys[i], key) ==>
      Shows(keys[..i], excluded, key)
  }

  lemma PrintedShows(keys: seq<string>, values: seq<string>, excluded: set<string>, key: string, n: nat)
    requires Shown(keys, values) && n <= |keys|
    ensures Printed(With(keys, values)[..n], excluded, key).Some? <==> Shows(keys[..n], excluded, key)
  {
    var params := With(keys, values)[..n];
    PrintedIs(params, excluded, key);
    hide Printed, IsBlank;
    assert forall i :: 0 <= i < n ==> params[i] == Param(keys[i], values[i]) && keys[..n][i] == keys[i];
  }

  lemma NoClashUndisturbed(keys: seq<string>, values: seq<string>, excluded: set<string>, key: string, n: nat)
    requires Shown(keys, values) && n <= |keys| && Distinct(keys)
    requires forall i :: 0 <= i < n && Printable(keys[i], excluded) && Clash(keys[i], key) ==>
               Shows(keys[..i], excluded, key)
    ensures var params := With(keys, values)[..n]; DistinctKeys(params) && Undisturbed(params, excluded, key)
  {
    hide Clash, IsBlank, Shows, Printed;
    var params := With(keys, values)[..n];
    forall i | 0 <= i < |params| && Emitted(params[i], excluded) && Clash(params[i].key, key)
      ensures Printed(params[..i], excluded, key).Some?
    {
      PrintedShows(keys, values, excluded, key, i);
      assert params[..i] == With(keys, values)[..i];
    }
  }

  lemma NoClashReadsBack(l: Launch, keys: seq<string>, values: seq<string>, excluded: set<string>, key: string)
    requires Shown(keys, values) && Distinct(keys)
    requires Unclaimed(LaunchArgs(l), key, Shows(keys, excluded, key)) && NoClash(keys, excluded, key)
    ensures ReadsBack(l, With(keys, values), excluded, key)
  {
    var params := With(keys, values);
    assert params[..|keys|] == params && keys[..|keys|] == keys;
    PrintedShows(keys, values, excluded, key, |keys|);
    NoClashUndisturbed(keys, values, excluded, key, |keys|);
    hide *;
    CommandReadsBack(l, params, excluded, key);
  }

  /** All parameters printed as `c`. */
  function Same(n: nat, c: string): seq<string> { seq(n, _ => c) }

  /** A one-letter value other than `w`. */
  function Other(w: string): string { if w == "x" then "y" else "x" }

  lemma OtherIsShown(w: string)
    ensures !IsBlank(Other(w)) && Other(w) != w
  {
    assert !IsSpace("x"[0]) && !IsSpace("y"[0]);
  }

  lemma LauncherMisread(l: Launch, keys: seq<string>, excluded: set<string>, key: string, i: nat)
    returns (values: seq<string>)
    requires i < |LaunchArgs(l)| && AssignedValue(LaunchArgs(l)[i], key).Some?
    ensures Shown(keys, values) && !ReadsBack(l, With(keys, values), excluded, key)
  {
    hide IsBlank, AssignedValue, LaunchArgs, Other, FirstOption, Flags;
    SomeAssigned(LaunchArgs(l), key, i);
    var w := FirstAssigned(LaunchArgs(l), key).value;
    OtherIsShown(w);
    values := Same(|keys|, Other(w));
    var params := With(keys, values);
    AssignedAppend(LaunchArgs(l), Flags(params, excluded), key);
    PrintedIs(params, excluded, key);
  }

  lemma {:induction false} FirstClash(keys: seq<string>, excluded: set<string>, key: string) returns (i: nat)
    requires !NoClash(keys, excluded, key)
    ensures i < |keys| && Printable(keys[i], excluded) && Clash(keys[i], key) && !Shows(keys[..i], excluded, key)
    ensures NoClash(keys[..i], excluded, key)
  {
    hide Clash;
    var init := keys[..|keys| - 1];
    if NoClash(init, excluded, key) {
      i := |keys| - 1;
      forall j | 0 <= j < i && Printable(keys[j], excluded) && Clash(keys[j], key)
        ensures Shows(keys[..j], excluded, key)
      {
        assert init[j] == keys[j] && init[..j] == keys[..j];
      }
    } else {
      i := FirstClash(init, excluded, key);
      assert init[..i] == keys[..i];
    }
  }

  /** The first clash is what is read. */
  lemma FlagsUpTo(keys: seq<string>, values: seq<string>, excluded: set<string>, key: string, i: nat)
    requires Shown(keys, values) && i < |keys| && Distinct(keys) && Printable(keys[i], excluded)
    requires !Shows(keys[..i], excluded, key) && NoClash(keys[..i], excluded, key)
    requires AssignedValue(Flag(keys[i], values[i]), key).Some?
    ensures FirstAssigned(Flags(With(keys, values)[..i + 1], excluded), key) ==
              AssignedValue(Flag(keys[i], values[i]), key)
  {
    hide Clash, AssignedValue, IsBlank, Flag, Shows;
    var params := With(keys, values);
    forall j | 0 <= j < i && Printable(keys[j], excluded) && Clash(keys[j], key)
      ensures Shows(keys[..j], excluded, key)
    {
      assert keys[..i][j] == keys[j] && keys[..i][..j] == keys[..j];
    }
    NoClashUndisturbed(keys, values, excluded, key, i);
    PrintedShows(keys, values, excluded, key, i);
    FlagsRead(params[..i], excluded, key);
    var flag := Flag(keys[i], values[i]);
    assert params[..i + 1][..i] == params[..i] && params[i] == Param(keys[i], values[i]);
    assert Flags(params[..i + 1], excluded) == Flags(params[..i], excluded) + [flag];
    AssignedAppend(Flags(params[..i], excluded), [flag], key);
    assert FirstAssigned([flag], key) == AssignedValue(flag, key);
  }

  /** What a prefix of the parameters determines, later parameters do not change. */
  lemma {:induction false} AssignedPrefix(params: seq<Param>, excluded: set<string>, key: string, n: nat)
    requires n <= |params| && FirstAssigned(Flags(params[..n], excluded), key).Some?
    ensures FirstAssigned(Flags(params, excluded), key) == FirstAssigned(Flags(params[..n], excluded), key)
  {
    if n == |params| {
      assert params[..n] == params;
    } else {
      var init, p := params[..|params| - 1], params[|params| - 1];
      assert init[..n] == params[..n];
      AssignedPrefix(init, excluded, key, n);
      AssignedAppend(Flags(init, excluded), if Emitted(p, excluded) then [Flag(p.key, p.value)] else [], key);
    }
  }

  lemma ClashMisread(l: Launch, keys: seq<string>, excluded: set<string>, key: string, i: nat)
    returns (values: seq<string>)
    requires forall j :: 0 <= j < |LaunchArgs(l)| ==> AssignedValue(LaunchArgs(l)[j], key).None?
    requires i < |keys| && Printable(keys[i], excluded) && Clash(keys[i], key) && Distinct(keys)
    requires !Shows(keys[..i], excluded, key) && NoClash(keys[..i], excluded, key)
    ensures Shown(keys, values) && !ReadsBack(l, With(keys, values), excluded, key)
  {
    var v := ClashCaptures(keys[i], key);
    assert keys[i] != key;
    hide IsBlank, AssignedValue, LaunchArgs, Other, FirstOption, Clash, Flag;
    var w := AssignedValue(Flag(keys[i], v), key).value;
    OtherIsShown(w);
    values := Same(|keys|, Other(w))[i := v];
    var params := With(keys, values);
    FlagsUpTo(keys, values, excluded, key, i);
    AssignedPrefix(params, excluded, key, i + 1);
    SkipUnassigned(LaunchArgs(l), Flags(params, excluded), key);
    PrintedIs(params, excluded, key);
  }

  lemma OptionMisread(l: Launch, keys: seq<string>, excluded: set<string>, key: string)
    returns (values: seq<string>)
    requires GoodLaunch(l) && Distinct(keys) && NoClash(keys, excluded, key)
    requires forall j :: 0 <= j < |LaunchArgs(l)| ==> AssignedValue(LaunchArgs(l)[j], key).None?
    requires !Unclaimed(LaunchArgs(l), key, Shows(keys, excluded, key))
    ensures Shown(keys, values) && !ReadsBack(l, With(keys, values), excluded, key)
  {
    var launch := LaunchArgs(l);
    var i :| 0 <= i < |launch| && IsOption(launch[i], key);
    assert launch[|launch| - 1] == l.binary;
    PlainIsSilent(l.binary, key);
    assert i + 1 < |launch|;
    hide IsBlank, AssignedValue, LaunchArgs, Other, IsOption, FirstOption, Clash, Flags;
    OtherIsShown("");
    values := Same(|keys|, Other(""));
    var params := With(keys, values);
    assert params[..|keys|] == params && keys[..|keys|] == keys;
    PrintedShows(keys, values, excluded, key, |keys|);
    NoClashUndisturbed(keys, values, excluded, key, |keys|);
    FlagsRead(params, excluded, key);
    SkipUnassigned(launch, Flags(params, excluded), key);
    SomeOption(Command(l, params, excluded), key, i);
  }

  /** Whenever the condition fails, some values are misread. */
  lemma Misread(l: Launch, keys: seq<string>, excluded: set<string>, key: string) returns (values: seq<string>)
    requires GoodLaunch(l) && Distinct(keys)
    requires !(Unclaimed(LaunchArgs(l), key, Shows(keys, excluded, key)) && NoClash(keys, excluded, key))
    ensures Shown(keys, values) && !ReadsBack(l, With(keys, values), excluded, key)
  {
    if i :| 0 <= i < |LaunchArgs(l)| && AssignedValue(LaunchArgs(l)[i], key).Some? {
      values := LauncherMisread(l, keys, excluded, key, i);
    } else if !NoClash(keys, excluded, key) {
      var i := FirstClash(keys, excluded, key);
      values := ClashMisread(l, keys, excluded, key, i);
    } else {
      values := OptionMisread(l, keys, excluded, key);
    }
  }

  /** Every choice of values reads back exactly when no launcher argument and no earlier key gets in the way. */
  lemma ReadsBackExactly(l: Launch, keys: seq<string>, excluded: set<string>, key: string)
    requires GoodLaunch(l) && Distinct(keys)
    ensures AlwaysReadsBack(l, keys, excluded, key) <==>
              Unclaimed(LaunchArgs(l), key, Shows(keys, excluded, key)) && NoClash(keys, excluded, key)
  {
    hide ReadsBack, NoClash, Unclaimed, Distinct;
    if Unclaimed(LaunchArgs(l), key, Shows(keys, excluded, key)) && NoClash(keys, excluded, key) {
      forall values | Shown(keys, values) ensures ReadsBack(l, With(keys, values), excluded, key) {
        NoClashReadsBack(l, keys, values, excluded, key);
      }
    } else if AlwaysReadsBack(l, keys, excluded, key) {
      var values := Misread(l, keys, excluded, key);
      assert false;
    }
  }

  // ---------------------------------------------------------------- clean keys

  /** No '=' in the key and no leading '-'. */
  ghost predicate CleanKey(key: string) { '=' !in key && (key == "" || key[0] != '-') }

  lemma ExtendsHasEquals(s: string, t: string)
    ensures Extends(s, t) ==> '=' in s
  {
    if Extends(s, t) {
      assert s[|t|] == (t + "=")[|t|];
    }
  }

  lemma CleanKeysDoNotClash(k: string, key: string)
    requires CleanKey(k) && CleanKey(key)
    ensures !Clash(k, key)
  {
    ExtendsHasEquals(k, key);
    ExtendsHasEquals(key, k);
    ExtendsHasEquals("-" + k, key);
    ExtendsHasEquals(key, "-" + k);
    assert ("-" + k)[0] == '-';
  }

  lemma LocalallocIsSilent(key: string)
    requires CleanKey(key) && key != "localalloc"
    ensures Silent("--localalloc", key)
  {
    var arg := "--localalloc";
    assert '=' !in arg;
    ExtendsHasEquals(arg, "--" + key);
    ExtendsHasEquals(arg, "-" + key);
    assert arg[2..] == "localalloc" && ("--" + key)[2..] == key;
    assert arg[1] == '-' && (key != "" ==> ("-" + key)[1] == key[0]);
  }

  lemma OptIsSilent(k: string, value: Option<string>, key: string)
    requires CleanKey(k) && CleanKey(key) && k != key
    ensures AllSilent(Opt(k, value), key)
  {
    if value.Some? {
      CleanKeysDoNotClash(k, key);
      NoClashIsSilent(k, value.value, key);
    }
  }

  lemma NumactlIsSilent(o: Numactl, key: string)
    requires CleanKey(key) && key !in NUMACTL_KEYS
    ensures AllSilent(NumactlArgs(o), key)
  {
    PlainIsSilent("numactl", key);
    OptIsSilent("cpunodebind", o.cpunodebind, key);
    OptIsSilent("physcpubind", o.physcpubind, key);
    OptIsSilent("interleave", o.interleave, key);
    OptIsSilent("preferred", o.preferred, key);
    OptIsSilent("membind", o.membind, key);
    LocalallocIsSilent(key);
  }

  lemma OptReads(k: string, value: Option<string>, key: string)
    requires CleanKey(k) && CleanKey(key)
    ensures FirstAssigned(Opt(k, value), key) == if k == key then value else None
  {
    if value.Some? {
      OwnFlagReads(k, value.value);
      if k != key {
        OptIsSilent(k, value, key);
        assert Silent(Opt(k, value)[0], key);
      }
    }
  }

  lemma NumactlWords(key: string)
    requires CleanKey(key) && key != "localalloc"
    ensures FirstAssigned(["numactl"], key) == None && FirstAssigned(["--localalloc"], key) == None
  {
    PlainIsSilent("numactl", key);
    LocalallocIsSilent(key);
  }

  /** The numactl options on the command line read back as they were given. */
  lemma NumactlReadsBack(o: Numactl, key: string)
    requires CleanKey(key) && key != "localalloc"
    ensures FirstAssigned(NumactlArgs(o), key) ==
            if key == "cpunodebind" then o.cpunodebind
            else if key == "physcpubind" then o.physcpubind
            else if key == "interleave" then o.interleave
            else if key == "preferred" then o.preferred
            else if key == "membind" then o.membind
            else None
  {
    NumactlWords(key);
    OptReads("cpunodebind", o.cpunodebind, key);
    OptReads("physcpubind", o.physcpubind, key);
    OptReads("interleave", o.interleave, key);
    OptReads("preferred", o.preferred, key);
    OptReads("membind", o.membind, key);
    hide Opt, FirstAssigned, CleanKey;
    var a := ["numactl"] + Opt("cpunodebind", o.cpunodebind);
    var b := a + Opt("physcpubind", o.physcpubind);
    var c := b + Opt("interleave", o.interleave);
    var d := c + Opt("preferred", o.preferred);
    var e := d + Opt("membind", o.membind);
    AssignedAppend(["numactl"], Opt("cpunodebind", o.cpunodebind), key);
    AssignedAppend(a, Opt("physcpubind", o.physcpubind), key);
    AssignedAppend(b, Opt("interleave", o.interleave), key);
    AssignedAppend(c, Opt("preferred", o.preferred), key);
    AssignedAppend(d, Opt("membind", o.membind), key);
    if o.localalloc {
      AssignedAppend(e, ["--localalloc"], key);
    } else {
      assert e + [] == e;
    }
  }

  lemma LaunchIsSilent(l: Launch, key: string)
    requires GoodLaunch(l) && CleanKey(key) && (l.numactl.Some? ==> key !in NUMACTL_KEYS)
    ensures AllSilent(LaunchArgs(l), key)
  {
    PlainIsSilent(l.binary, key);
    if l.umsRun.Some? {
      PlainIsSilent(l.umsRun.value, key);
    }
    if l.numactl.Some? {
      NumactlIsSilent(l.numactl.value, key);
    }
    hide NumactlArgs, Silent;
  }

  /** A clean key that numactl does not use reads back unless a key that clashes with it is printed before it. */
  lemma CleanKeyReadsBack(l: Launch, params: seq<Param>, excluded: set<string>, key: string)
    requires GoodLaunch(l) && CleanKey(key) && (l.numactl.Some? ==> key !in NUMACTL_KEYS)
    requires DistinctKeys(params) && Undisturbed(params, excluded, key)
    ensures ReadsBack(l, params, excluded, key)
  {
    LaunchIsSilent(l, key);
    hide LaunchArgs, Clash, Printed, IsOption, AssignedValue;
    CommandReadsBack(l, params, excluded, key);
  }

  /** Only its own extensions clash with a clean key. */
  lemma CleanKeyClashes(k: string, key: string)
    requires CleanKey(key)
    ensures Clash(k, key) <==> Extends(k, key)
  {
    ExtendsHasEquals(key, k);
    ExtendsHasEquals(key, "-" + k);
    assert ("-" + k)[0] == '-' && (key + "=")[0] != '-';
  }

  /** With two parameters, an assignment by the first one is what is read. */
  lemma FirstIsRead(l: Launch, p: Param, q: Param, key: string)
    requires GoodLaunch(l) && l.numactl.None? && Emitted(p, {}) && AssignedValue(Flag(p.key, p.value), key).Some?
    ensures FlagValue(Command(l, [p, q], {}), key) == AssignedValue(Flag(p.key, p.value), key)
  {
    var params, flag := [p, q], Flag(p.key, p.value);
    forall i | 0 <= i < |LaunchArgs(l)| ensures Silent(LaunchArgs(l)[i], key) {
      PlainIsSilent(LaunchArgs(l)[i], key);
    }
    hide AssignedValue, IsOption, Flag, LaunchArgs;
    assert params[..1] == [p] && [p][..0] == [];
    assert Flags([p], {}) == [] + [flag] == [flag];
    assert FirstAssigned([flag], key) == AssignedValue(flag, key);
    AssignedPrefix(params, {}, key, 1);
    SkipUnassigned(LaunchArgs(l), Flags(params, {}), key);
  }

  lemma SecondIsPrinted(p: Param, q: Param)
    requires Emitted(q, {})
    ensures Printed([p, q], {}, q.key) == Some(q.value)
  {
  }

  /** A key with '=' in it can read as the value of the parameter before it. */
  lemma KeyWithEqualsMisread(l: Launch)
    requires GoodLaunch(l) && l.numactl.None?
    ensures var params := [Param("a", "b=c"), Param("a=b", "d")];
            Printed(params, {}, "a=b") == Some("d") && FlagValue(Command(l, params, {}), "a=b") == Some("c")
  {
    var p, q := Param("a", "b=c"), Param("a=b", "d");
    assert Emitted(p, {}) && Emitted(q, {}) by {
      assert !IsSpace(p.value[0]) && !IsSpace(q.value[0]);
    }
    assert AssignedValue(Flag("a", "b=c"), "a=b") == Some("c") by {
      assert Flag("a", "b=c") == "--a=b=c" && "--" + "a=b" + "=" == "--a=b=";
      assert "--a=b=c"[..6] == "--a=b=" && "--a=b=c"[6..] == "c";
    }
    hide *;
    SecondIsPrinted(p, q);
    FirstIsRead(l, p, q, "a=b");
  }

  /** A key with a leading '-' reads as the value of the key without it. */
  lemma KeyWithDashMisread(l: Launch)
    requires GoodLaunch(l) && l.numactl.None?
    ensures var params := [Param("x", "1"), Param("-x", "2")];
            Printed(params, {}, "-x") == Some("2") && FlagValue(Command(l, params, {}), "-x") == Some("1")
  {
    var p, q := Param("x", "1"), Param("-x", "2");
    assert Emitted(p, {}) && Emitted(q, {}) by {
      assert !IsSpace(p.value[0]) && !IsSpace(q.value[0]);
    }
    assert AssignedValue(Flag("x", "1"), "-x") == Some("1") by {
      assert Flag("x", "1") == "--x=1" && "--" + "-x" + "=" == "---x=" && "-" + "-x" + "=" == "--x=";
      assert "--x=1"[..4] == "--x=" && "--x=1"[4..] == "1" && "---x="[2] != "--x=1"[2];
    }
    hide *;
    SecondIsPrinted(p, q);
    FirstIsRead(l, p, q, "-x");
  }
}
