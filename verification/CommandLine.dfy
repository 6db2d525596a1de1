/** Command lines on both sides: `dscli start` parses its arguments and prints a
    command line for the service; `dscli stop` reads values back from it. */
module CommandLine {
  import opened Basics

  predicate StartsWith(s: string, prefix: string) {
    |prefix| <= |s| && s[..|prefix|] == prefix
  }

  // ---------------------------------------------------------------- parse_cli_args

  /** What an argument list is made of: pairs, and bare "--" tokens between them. */
  datatype Item = Bare | Pair(key: string, value: string)

  predicate GoodItem(item: Item) {
    item.Pair? ==> item.key != "" && !StartsWith(item.value, "--")
  }

  ghost predicate GoodItems(items: seq<Item>) {
    forall i :: 0 <= i < |items| ==> GoodItem(items[i])
  }

  function Dashed(flag: string): string { "--" + flag }

  function Tokens(item: Item): seq<string> {
    match item
    case Bare => ["--"]
    case Pair(k, v) => [Dashed(k), v]
  }

  function Flatten(items: seq<Item>): seq<string> {
    if items == [] then [] else Tokens(items[0]) + Flatten(items[1..])
  }

  /** The dict built from the pairs, later duplicates winning. */
  function ParamsOf(items: seq<Item>): map<string, string> {
    if items == [] then map[]
    else
      var last := items[|items| - 1];
      var m := ParamsOf(items[..|items| - 1]);
      if last.Bare? then m else m[last.key := last.value]
  }

  datatype ParseResult = Parsed(params: map<string, string>) | MissingValue(flag: string) | NoParameterName(arg: string)

  ghost function Prepend(done: seq<Item>, rest: Option<seq<Item>>): Option<seq<Item>> {
    if rest.None? then None else Some(done + rest.value)
  }

  /** The items an argument list stands for, if it is one. */
  ghost function Decode(args: seq<string>): Option<seq<Item>>
    decreases |args|
  {
    if args == [] then Some([])
    else if args[0] == "--" then Prepend([Bare], Decode(args[1..]))
    else if StartsWith(args[0], "--") && |args| >= 2 && !StartsWith(args[1], "--") then
      Prepend([Pair(args[0][2..], args[1])], Decode(args[2..]))
    else None
  }

  lemma DecodeBare(rest: seq<string>)
    ensures Decode(["--"] + rest) == Prepend([Bare], Decode(rest))
  {
    assert (["--"] + rest)[1..] == rest;
  }

  lemma DecodePair(flag: string, value: string, rest: seq<string>)
    requires flag != "" && !StartsWith(value, "--")
    ensures Decode([Dashed(flag)] + ([value] + rest)) == Prepend([Pair(flag, value)], Decode(rest))
  {
    var args := [Dashed(flag)] + ([value] + rest);
    assert |args[0]| > 2 && args[0][2..] == flag && args[1] == value && args[2..] == rest;
  }

  lemma DecodeMissing(flag: string, rest: seq<string>)
    requires flag != "" && (rest == [] || StartsWith(rest[0], "--"))
    ensures Decode([Dashed(flag)] + rest).None?
  {
    var args := [Dashed(flag)] + rest;
    assert |args[0]| > 2;
    assert |args| >= 2 ==> args[1] == rest[0];
  }

  lemma DecodeStray(value: string, rest: seq<string>)
    requires !StartsWith(value, "--")
    ensures Decode([value] + rest).None?
  {
    assert ([value] + rest)[0] == value;
  }

  lemma ParamsOfAppend(items: seq<Item>, item: Item)
    ensures ParamsOf(items + [item]) ==
              if item.Bare? then ParamsOf(items) else ParamsOf(items)[item.key := item.value]
  {
    assert (items + [item])[..|items|] == items;
  }

  lemma PrependNothing(items: seq<Item>, rest: Option<seq<Item>>)
    ensures Prepend([], rest) == rest
    ensures Prepend(items, Some([])) == Some(items)
    ensures Prepend(items, None) == None
  {
    assert items + [] == items;
    if rest.Some? {
      assert [] + rest.value == rest.value;
    }
  }

  /** A flag at the end of the list or directly before another flag. */
  ghost predicate DanglingFlag(args: seq<string>, i: nat, flag: string) {
    i < |args| && flag != "" && args[i] == Dashed(flag) && (i + 1 < |args| ==> StartsWith(args[i + 1], "--"))
  }

  ghost predicate FollowsNoFlag(args: seq<string>, i: nat)
    requires i <= |args|
  {
    i > 0 ==> args[i - 1] == "--" || !StartsWith(args[i - 1], "--")
  }

  /** A value that follows no flag. */
  ghost predicate StrayValue(args: seq<string>, i: nat, value: string) {
    i < |args| && args[i] == value && !StartsWith(value, "--") && FollowsNoFlag(args, i)
  }

  /** A flag that is waiting for its value; a bare "--" waits for nothing. */
  predicate Waiting(flag: Option<string>) { flag.Some? && flag.value != "" }

  ghost function Pending(flag: Option<string>): seq<string> {
    if flag.None? || flag.value == "" then [] else [Dashed(flag.value)]
  }

  /** What has been read so far, and what the rest of the list must still be. */
  ghost predicate Progress(args: seq<string>, i: nat, done: seq<Item>, flag: Option<string>,
                           params: map<string, string>)
    requires i <= |args|
  {
    && params == ParamsOf(done)
    && (if Waiting(flag) then i > 0 && args[i - 1] == Dashed(flag.value) else FollowsNoFlag(args, i))
    && Decode(args) == Prepend(done, Decode(Pending(flag) + args[i..]))
  }

  lemma ProgressStart(args: seq<string>)
    ensures Progress(args, 0, [], None, map[])
  {
    assert Pending(None) + args[0..] == args;
    PrependNothing([], Decode(args));
  }

  lemma ProgressEnd(args: seq<string>, done: seq<Item>, flag: Option<string>, params: map<string, string>)
    requires Progress(args, |args|, done, flag, params) && !Waiting(flag)
    ensures Decode(args) == Some(done) && params == ParamsOf(done)
  {
    assert Pending(flag) + args[|args|..] == [];
    PrependNothing(done, None);
  }

  lemma ProgressDangling(args: seq<string>, i: nat, done: seq<Item>, flag: Option<string>, params: map<string, string>)
    requires i <= |args| && Progress(args, i, done, flag, params) && Waiting(flag)
    requires i < |args| ==> StartsWith(args[i], "--")
    ensures Decode(args).None? && i > 0 && DanglingFlag(args, i - 1, flag.value)
  {
    hide Decode, ParamsOf, StartsWith, Dashed;
    DecodeMissing(flag.value, args[i..]);
  }

  lemma ProgressStray(args: seq<string>, i: nat, done: seq<Item>, flag: Option<string>, params: map<string, string>)
    requires i < |args| && Progress(args, i, done, flag, params) && !Waiting(flag) && !StartsWith(args[i], "--")
    ensures Decode(args).None? && StrayValue(args, i, args[i])
  {
    hide Decode, ParamsOf, StartsWith, FollowsNoFlag;
    assert Pending(flag) + args[i..] == [args[i]] + args[i + 1..];
    DecodeStray(args[i], args[i + 1..]);
  }

  lemma DashesSplit(arg: string)
    requires StartsWith(arg, "--")
    ensures |arg| >= 2 && arg == Dashed(arg[2..]) && (arg == "--" <==> arg[2..] == "")
  {
  }

  lemma PrependTwice(a: seq<Item>, b: seq<Item>, rest: Option<seq<Item>>)
    ensures Prepend(a, Prepend(b, rest)) == Prepend(a + b, rest)
  {
    if rest.Some? {
      assert a + (b + rest.value) == (a + b) + rest.value;
    }
  }

  lemma ProgressFlag(args: seq<string>, i: nat, done: seq<Item>, flag: Option<string>, params: map<string, string>)
    requires i < |args| && Progress(args, i, done, flag, params) && !Waiting(flag) && StartsWith(args[i], "--")
    ensures |args[i]| >= 2
    ensures Progress(args, i + 1, if args[i] == "--" then done + [Bare] else done, Some(args[i][2..]), params)
  {
    hide Decode, ParamsOf, Prepend;
    var arg, rest := args[i], args[i + 1..];
    DashesSplit(arg);
    assert Pending(flag) + args[i..] == [arg] + rest;
    if arg == "--" {
      DecodeBare(rest);
      PrependTwice(done, [Bare], Decode(rest));
      ParamsOfAppend(done, Bare);
      assert Pending(Some(arg[2..])) + rest == rest;
    }
  }

  lemma ProgressValue(args: seq<string>, i: nat, done: seq<Item>, flag: Option<string>, params: map<string, string>)
    requires i < |args| && Progress(args, i, done, flag, params) && Waiting(flag) && !StartsWith(args[i], "--")
    ensures Progress(args, i + 1, done + [Pair(flag.value, args[i])], None, params[flag.value := args[i]])
  {
    hide Decode, ParamsOf, Prepend, StartsWith, Dashed;
    var item, rest := Pair(flag.value, args[i]), args[i + 1..];
    assert args[i..] == [args[i]] + rest;
    DecodePair(flag.value, args[i], rest);
    PrependTwice(done, [item], Decode(rest));
    ParamsOfAppend(done, item);
    assert Pending(None) + rest == rest;
  }

  method ParseCliArgs(args: seq<string>) returns (r: ParseResult)
    ensures r.Parsed? <==> Decode(args).Some?
    ensures r.Parsed? ==> r.params == ParamsOf(Decode(args).value)
    ensures r.MissingValue? ==> exists i :: DanglingFlag(args, i, r.flag)
    ensures r.NoParameterName? ==> exists i :: StrayValue(args, i, r.arg)
  {
    var params: map<string, string> := map[];
    var currentFlag: Option<string> := None;
    ghost var done: seq<Item> := [];
    ProgressStart(args);
    hide Decode, ParamsOf, StartsWith, DanglingFlag, StrayValue, Progress;
    for i := 0 to |args|
      invariant Progress(args, i, done, currentFlag, params)
    {
      var arg := args[i];
      if StartsWith(arg, "--") {
        if Waiting(currentFlag) {
          ProgressDangling(args, i, done, currentFlag, params);
          return MissingValue(currentFlag.value);
        }
        ProgressFlag(args, i, done, currentFlag, params);
        done := if arg == "--" then done + [Bare] else done;
        currentFlag := Some(arg[2..]);
      } else {
        if !Waiting(currentFlag) {
          ProgressStray(args, i, done, currentFlag, params);
          return NoParameterName(arg);
        }
        ProgressValue(args, i, done, currentFlag, params);
        done := done + [Pair(currentFlag.value, arg)];
        params := params[currentFlag.value := arg];
        currentFlag := None;
      }
    }
    if Waiting(currentFlag) {
      ProgressDangling(args, |args|, done, currentFlag, params);
      return MissingValue(currentFlag.value);
    }
    ProgressEnd(args, done, currentFlag, params);
    return Parsed(params);
  }

  /** Parsing undoes flattening. */
  lemma {:induction false} DecodeFlatten(items: seq<Item>)
    requires GoodItems(items)
    ensures Decode(Flatten(items)) == Some(items)
  {
    if items != [] {
      DecodeFlatten(items[1..]);
      var args := Flatten(items);
      assert items == [items[0]] + items[1..];
      match items[0]
      case Bare =>
        assert args[1..] == Flatten(items[1..]);
      case Pair(k, v) =>
        assert GoodItem(items[0]);
        assert args[0] == "--" + k && |args[0]| > 2 && args[0][2..] == k;
        assert args[2..] == Flatten(items[1..]);
    }
  }

  /** Whatever parses is the flattening of pairs with bare "--" tokens only between them. */
  lemma {:induction false} DecodeSound(args: seq<string>)
    requires Decode(args).Some?
    ensures GoodItems(Decode(args).value) && Flatten(Decode(args).value) == args
    decreases |args|
  {
    if args != [] {
      var rest := if args[0] == "--" then args[1..] else args[2..];
      var head := if args[0] == "--" then Bare else Pair(args[0][2..], args[1]);
      DecodeSound(rest);
      var items := Decode(args).value;
      assert items == [head] + Decode(rest).value;
      assert items[1..] == Decode(rest).value;
      assert head.Pair? ==> args[0] == "--" + head.key;
      assert GoodItem(head);
      assert Tokens(head) + rest == args;
    }
  }

  /** The accepted argument lists, exactly. */
  lemma AcceptedArguments(args: seq<string>)
    ensures Decode(args).Some? <==> exists items :: GoodItems(items) && Flatten(items) == args
  {
    if Decode(args).Some? {
      DecodeSound(args);
    }
    forall items | GoodItems(items) && Flatten(items) == args ensures Decode(args).Some? {
      DecodeFlatten(items);
    }
  }

  lemma {:induction false} PairIsParam(items: seq<Item>, i: nat)
    requires i < |items| && items[i].Pair?
    ensures items[i].key in ParamsOf(items)
  {
    var n := |items| - 1;
    if i < n {
      PairIsParam(items[..n], i);
    }
  }

  /** The parameters of an argument list: a key has the value of the last pair with it. */
  lemma {:induction false} LastPairWins(items: seq<Item>, key: string) returns (i: nat)
    requires key in ParamsOf(items)
    ensures i < |items| && items[i] == Pair(key, ParamsOf(items)[key])
    ensures forall j :: i < j < |items| ==> items[j].Bare? || items[j].key != key
  {
    var n := |items| - 1;
    if items[n].Pair? && items[n].key == key {
      i := n;
    } else {
      i := LastPairWins(items[..n], key);
      assert items[i] == items[..n][i];
      assert forall j :: i < j < n ==> items[j] == items[..n][j];
    }
  }

  // ---------------------------------------------------------------- fill_params

  datatype Default = Default(key: string, value: string)

  const SERVICE_TYPE := "service_type"

  /** Defaults fill the gaps: a supplied key keeps its value, "./" paths are relocated. */
  method FillParams(params: map<string, string>, defaults: seq<Default>, relocate: string -> string)
    returns (filled: map<string, string>)
    requires forall i, j :: 0 <= i < j < |defaults| ==> defaults[i].key != defaults[j].key
    ensures forall k :: k in params ==> k in filled && filled[k] == params[k]
    ensures forall d :: d in defaults && d.key != SERVICE_TYPE && d.key !in params ==>
              d.key in filled && filled[d.key] == if StartsWith(d.value, "./") then relocate(d.value) else d.value
    ensures forall k :: k in filled ==> k in params || exists d :: d in defaults && d.key == k && k != SERVICE_TYPE
  {
    filled := params;
    for i := 0 to |defaults|
      invariant forall k :: k in params ==> k in filled && filled[k] == params[k]
      invariant forall j :: 0 <= j < i && defaults[j].key != SERVICE_TYPE && defaults[j].key !in params ==>
                  && defaults[j].key in filled
                  && filled[defaults[j].key] ==
                       if StartsWith(defaults[j].value, "./") then relocate(defaults[j].value) else defaults[j].value
      invariant forall k :: k in filled ==>
                  k in params || exists j :: 0 <= j < i && defaults[j].key == k && k != SERVICE_TYPE
    {
      var d := defaults[i];
      if d.key != SERVICE_TYPE && d.key !in filled {
        filled := filled[d.key := if StartsWith(d.value, "./") then relocate(d.value) else d.value];
      }
    }
  }

  // ---------------------------------------------------------------- build_command

  datatype Param = Param(key: string, value: string)

  /** numactl options; `None` when not given. */
  datatype Numactl = Numactl(cpunodebind: Option<string>, physcpubind: Option<string>, interleave: Option<string>,
                             preferred: Option<string>, membind: Option<string>, localalloc: bool)

  const NUMACTL_KEYS := {"cpunodebind", "physcpubind", "interleave", "preferred", "membind", "localalloc"}

  /** Python's `str.isspace` on one character. */
  predicate IsSpace(c: char) {
    || '\U{0009}' <= c <= '\U{000D}' || '\U{001C}' <= c <= '\U{0020}'
    || c == '\U{0085}' || c == '\U{00A0}' || c == '\U{1680}' || '\U{2000}' <= c <= '\U{200A}'
    || c == '\U{2028}' || c == '\U{2029}' || c == '\U{202F}' || c == '\U{205F}' || c == '\U{3000}'
  }

  predicate IsBlank(s: string) { forall i :: 0 <= i < |s| ==> IsSpace(s[i]) }

  predicate Printable(key: string, excluded: set<string>) { key !in excluded && key != SERVICE_TYPE }

  predicate Emitted(p: Param, excluded: set<string>) { Printable(p.key, excluded) && !IsBlank(p.value) }

  function Flag(key: string, value: string): string { "--" + key + "=" + value }

  function Flags(params: seq<Param>, excluded: set<string>): seq<string> {
    if params == [] then []
    else
      var p := params[|params| - 1];
      Flags(params[..|params| - 1], excluded) + if Emitted(p, excluded) then [Flag(p.key, p.value)] else []
  }

  function Opt(key: string, value: Option<string>): seq<string> {
    if value.None? then [] else [Flag(key, value.value)]
  }

  function NumactlArgs(o: Numactl): seq<string> {
    ["numactl"]
    + Opt("cpunodebind", o.cpunodebind) + Opt("physcpubind", o.physcpubind) + Opt("interleave", o.interleave)
    + Opt("preferred", o.preferred) + Opt("membind", o.membind)
    + if o.localalloc then ["--localalloc"] else []
  }

  /** How a service is launched: optional `ums_run` path, optional numactl, the binary. */
  datatype Launch = Launch(umsRun: Option<string>, numactl: Option<Numactl>, binary: string)

  function LaunchArgs(l: Launch): seq<string> {
    (if l.umsRun.Some? then [l.umsRun.value] else [])
    + (if l.numactl.Some? then NumactlArgs(l.numactl.value) else [])
    + [l.binary]
  }

  /** The command line handed to the operating system. */
  function Command(l: Launch, params: seq<Param>, excluded: set<string>): seq<string> {
    LaunchArgs(l) + Flags(params, excluded)
  }

  method BuildCommand(l: Launch, params: seq<Param>, excluded: set<string>) returns (cmd: seq<string>)
    ensures cmd == Command(l, params, excluded)
  {
    hide NumactlArgs;
    cmd := [];
    if l.umsRun.Some? {
      cmd := cmd + [l.umsRun.value];
    }
    if l.numactl.Some? {
      cmd := cmd + NumactlArgs(l.numactl.value);
    }
    cmd := cmd + [l.binary];
    assert cmd == LaunchArgs(l) + Flags(params[..0], excluded);
    hide LaunchArgs, Flag, Emitted;
    for i := 0 to |params|
      invariant cmd == LaunchArgs(l) + Flags(params[..i], excluded)
    {
      assert params[..i + 1][..i] == params[..i];
      if Emitted(params[i], excluded) {
        cmd := cmd + [Flag(params[i].key, params[i].value)];
      }
    }
    assert params[..|params|] == params;
  }

  // ---------------------------------------------------------------- reading a flag back

  /** `/proc/<pid>/cmdline`: every argument followed by NUL. */
  function Join(args: seq<string>): string {
    if args == [] then "" else args[0] + ['\U{0000}'] + Join(args[1..])
  }

  /** Split on NUL, dropping empty pieces; `piece` is the piece being read. */
  function Split(raw: string, piece: string): seq<string>
    decreases |raw|
  {
    if raw == "" then (if piece == "" then [] else [piece])
    else if raw[0] == '\U{0000}' then (if piece == "" then [] else [piece]) + Split(raw[1..], "")
    else Split(raw[1..], piece + [raw[0]])
  }

  ghost predicate CleanArg(arg: string) { arg != "" && '\U{0000}' !in arg }

  ghost predicate CleanArgs(args: seq<string>) { forall i :: 0 <= i < |args| ==> CleanArg(args[i]) }

  lemma {:induction false} SplitPiece(arg: string, raw: string, piece: string)
    requires '\U{0000}' !in arg
    ensures Split(arg + raw, piece) == Split(raw, piece + arg)
  {
    if arg == "" {
      assert arg + raw == raw && piece + arg == piece;
    } else {
      assert (arg + raw)[1..] == arg[1..] + raw;
      assert (piece + [arg[0]]) + arg[1..] == piece + arg;
      assert forall c :: c in arg[1..] ==> c in arg;
      assert arg[0] in arg;
      SplitPiece(arg[1..], raw, piece + [arg[0]]);
    }
  }

  /** The kernel's encoding of an argument list is read back unchanged. */
  lemma {:induction false} SplitJoin(args: seq<string>)
    requires CleanArgs(args)
    ensures Split(Join(args), "") == args
  {
    if args != [] {
      assert CleanArg(args[0]);
      var rest := ['\U{0000}'] + Join(args[1..]);
      assert Join(args) == args[0] + rest;
      SplitPiece(args[0], rest, "");
      assert "" + args[0] == args[0];
      assert rest[1..] == Join(args[1..]);
      SplitJoin(args[1..]);
      assert args == [args[0]] + args[1..];
    }
  }

  /** The value of `arg` as an assignment to `key`, if it is one. */
  function AssignedValue(arg: string, key: string): Option<string> {
    var long, short := "--" + key + "=", "-" + key + "=";
    if StartsWith(arg, long) then Some(arg[|long|..])
    else if StartsWith(arg, short) then Some(arg[|short|..])
    else None
  }

  predicate IsOption(arg: string, key: string) { arg == "--" + key || arg == "-" + key }

  function FirstAssigned(args: seq<string>, key: string): Option<string> {
    if args == [] then None
    else if AssignedValue(args[0], key).Some? then AssignedValue(args[0], key)
    else FirstAssigned(args[1..], key)
  }

  function FirstOption(args: seq<string>, key: string): Option<string> {
    if |args| < 2 then None
    else if IsOption(args[0], key) then Some(args[1])
    else FirstOption(args[1..], key)
  }

  function FlagValue(args: seq<string>, key: string): Option<string> {
    var v := FirstAssigned(args, key);
    if v.Some? then v else FirstOption(args, key)
  }

  /** `get_value_from_process_cmdline` on the raw contents of the cmdline file. */
  method ReadFlag(raw: string, key: string) returns (value: Option<string>)
    ensures value == FlagValue(Split(raw, ""), key)
  {
    if raw == "" {
      return None;
    }
    var args := Split(raw, "");
    var i := 0;
    assert args[0..] == args;
    hide Split, AssignedValue, IsOption;
    while i < |args|
      invariant 0 <= i <= |args|
      invariant FirstAssigned(args, key) == FirstAssigned(args[i..], key)
    {
      var v := AssignedValue(args[i], key);
      if v.Some? {
        return v;
      }
      assert args[i..][1..] == args[i + 1..];
      i := i + 1;
    }
    i := 0;
    while i < |args| - 1
      invariant 0 <= i <= |args|
      invariant FirstOption(args, key) == FirstOption(args[i..], key)
    {
      if IsOption(args[i], key) {
        return Some(args[i + 1]);
      }
      assert args[i..][1..] == args[i + 1..];
      i := i + 1;
    }
    return None;
  }
}
