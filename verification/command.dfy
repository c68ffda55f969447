/** The single-level dispatcher of command.go: a process-wide registry of
    subcommands, `Parse` choosing one of them from the command line, and `Run`
    invoking it.  The package globals (`cmds`, `matchingCmd`, `args`,
    `flagHelp`, `definedHelp`) become the `State` record threaded through the
    operations; printing and `os.Exit` become the outcome values. */
module Command {
  import opened Wrappers
  import opened Sorting
  import opened Flags

  /** A registered `Cmd`.  Its `Flags` method declares `flags` on the flag set
      it is handed and returns that same set, and when `setsUsage` it also
      installs a usage function of its own as `fs.Usage`; its `Run` is named
      by `id`. */
  datatype Handler = Handler(id: nat, flags: set<string>, setsUsage: bool)

  /** `cmdCont`: one registry entry. */
  datatype Cont = Cont(name: string, desc: string, command: Handler, requiredFlags: seq<string>)

  type Registry = map<string, Cont>

  /** Every entry is stored under its own name; `On` keeps this true. */
  ghost predicate Consistent(cmds: Registry)
  {
    forall k :: k in cmds ==> cmds[k].name == k
  }

  /** What `Parse` leaves for `Run`: `matchingCmd`, `args` and `*flagHelp`. */
  datatype Match = Match(cont: Cont, args: seq<string>, help: bool)

  /** The package globals.  `globals` are the flags declared on the command
      line's own flag set (`flag.CommandLine`). */
  datatype State = State(
    globals: set<string>,
    cmds: Registry,
    definedHelp: Option<Handler>,
    matching: Option<Match>)

  /** The globals as the package initialises them, with the program's own
      command-line flags already declared. */
  function Initial(globals: set<string>): State
  {
    State(globals, map[], None, None)
  }

  /** What gets printed before the process stops or `Run` returns. */
  datatype Display =
    | FlagDefaults(setName: string)
      // "Usage of <set>:" and that flag set's defaults: the flag package's
      // own usage, and `Usage` when nothing is registered
    | Listing(program: string, cmds: Registry, globalFlags: bool)
      // `Usage` with commands: the sorted command table, then the global
      // flags when there are any
    | SubcommandUsage(program: string, cont: Cont)
      // `subcommandUsage`: the command's flags and its required flags
    | HelpCommandRan(help: Handler, args: seq<string>)
      // the help command installed as `flag.Usage`, run on `os.Args[2:]`
    | HandlerUsage(handler: Handler, setName: string)
      // the usage function `handler`'s own `Flags` installed on its flag set

  datatype ParseOutcome =
    | Continue(st: State)                 // `Parse` returns normally
    | Exit(code: int, shown: Display)     // `os.Exit(code)` after `shown`
    | FlagFailure(shown: Display)         // the flag package shows `shown` and exits
    | HelpFlagRedefined                   // `fs.Bool("h", ..)` panics: the command declared -h itself

  datatype RunOutcome =
    | Idle                                // no command matched: `Run` returns silently
    | ShowedUsage(shown: Display)         // -h was given
    | Ran(handler: Handler, args: seq<string>)

  /** `On`: registers `command` under `name`, replacing any earlier entry. */
  function On(st: State, name: string, desc: string, command: Handler, requiredFlags: seq<string>): (r: State)
    ensures r.cmds.Keys == st.cmds.Keys + {name}
    ensures r.cmds[name] == Cont(name, desc, command, requiredFlags)
    ensures forall k :: k in st.cmds && k != name ==> r.cmds[k] == st.cmds[k]
    ensures r.globals == st.globals && r.definedHelp == st.definedHelp && r.matching == st.matching
    ensures Consistent(st.cmds) ==> Consistent(r.cmds)
  {
    st.(cmds := st.cmds[name := Cont(name, desc, command, requiredFlags)])
  }

  /** `DefineHelp`: `help` becomes the help command, replacing any earlier
      one; the registry is untouched. */
  function DefineHelp(st: State, help: Handler): (r: State)
    ensures r.definedHelp == Some(help)
    ensures r.globals == st.globals && r.cmds == st.cmds && r.matching == st.matching
  {
    st.(definedHelp := Some(help))
  }

  /** The help command `Parse` installs as `flag.Usage`, if any: the one given
      to `DefineHelp` wins; failing that, the command registered as "help". */
  function HelpCommand(st: State): (r: Option<Handler>)
    ensures st.definedHelp.Some? ==> r == st.definedHelp
    ensures st.definedHelp.None? ==> (r.Some? <==> "help" in st.cmds)
    ensures st.definedHelp.None? && "help" in st.cmds ==> r == Some(st.cmds["help"].command)
  {
    if st.definedHelp.Some? then st.definedHelp
    else if "help" in st.cmds then Some(st.cmds["help"].command)
    else None
  }

  /** `numOfGlobalFlags`: `flag.VisitAll` visits each declared flag once. */
  function NumOfGlobalFlags(st: State): (count: nat)
    ensures count == 0 <==> st.globals == {}
  {
    |st.globals|
  }

  /** `Usage`. */
  function Usage(st: State, program: string): (d: Display)
    ensures |st.cmds| == 0 ==> d == FlagDefaults(program)
    ensures |st.cmds| > 0 ==> d.Listing? && d.cmds == st.cmds && d.program == program
    ensures d.Listing? ==> (d.globalFlags <==> st.globals != {})
  {
    if |st.cmds| == 0 then FlagDefaults(program)
    else Listing(program, st.cmds, NumOfGlobalFlags(st) > 0)
  }

  /** The required flags the caller did not supply. */
  function MissingFlags(required: seq<string>, visited: set<string>): (missing: set<string>)
    ensures forall f :: f in missing ==> f in required && f !in visited
    ensures missing == {} <==> forall i :: 0 <= i < |required| ==> required[i] in visited
  {
    var missing := set f | f in required && f !in visited;
    assert forall i :: 0 <= i < |required| && required[i] !in visited ==> required[i] in missing;
    missing
  }

  /** The check at command.go:172-182 as written: fill a map with the
      required names, then delete every flag `fs.Visit` reports. */
  method CheckRequired(required: seq<string>, visited: seq<string>) returns (missing: set<string>)
    ensures missing == MissingFlags(required, set v | v in visited)
  {
    var flagMap: map<string, bool> := map[];
    var i := 0;
    while i < |required|
      invariant 0 <= i <= |required|
      invariant flagMap.Keys == set k | k in required[..i]
    {
      flagMap := flagMap[required[i] := true];
      i := i + 1;
    }
    assert required[..i] == required;
    var j := 0;
    while j < |visited|
      invariant 0 <= j <= |visited|
      invariant flagMap.Keys == (set k | k in required) - (set v | v in visited[..j])
    {
      flagMap := flagMap - {visited[j]};
      j := j + 1;
    }
    assert visited[..j] == visited;
    missing := flagMap.Keys;
  }

  /** What `flag.Usage` does when the command line's own flags fail to parse:
      the help command, run on the tokens after the first argument, or else
      the flag package's default usage. */
  function GlobalFlagFailure(st: State, argv: seq<string>): (d: Display)
    requires |argv| >= 2
    ensures d.HelpCommandRan? <==> HelpCommand(st).Some?
    ensures d.HelpCommandRan? ==> d.help == HelpCommand(st).value && d.args == argv[2..]
    ensures !d.HelpCommandRan? ==> d == FlagDefaults(argv[0])
  {
    match HelpCommand(st)
    case Some(help) => HelpCommandRan(help, argv[2..])
    case None => FlagDefaults(argv[0])
  }

  /** What a subcommand's flag set shows when its flags fail to parse: the
      usage its `Flags` installed, or else the flag package's default. */
  function SubcommandFlagUsage(command: Handler, setName: string): (d: Display)
    ensures command.setsUsage ==> d == HandlerUsage(command, setName)
    ensures !command.setsUsage ==> d == FlagDefaults(setName)
  {
    if command.setsUsage then HandlerUsage(command, setName) else FlagDefaults(setName)
  }

  /** Command.go's `Parse`: `argv` is `os.Args`, with the program name first;
      `parse` is the flag package. */
  function Parse(st: State, argv: seq<string>, parse: Parser): (r: ParseOutcome)
    requires |argv| >= 1
    requires QuietOnEmpty(parse)
    ensures r.Continue? ==> r.st.cmds == st.cmds && r.st.globals == st.globals
                            && r.st.definedHelp == st.definedHelp
  {
    var program := argv[0];
    match parse(st.globals, argv[1..])
    case Malformed =>
      assert argv[1..] != [] by { assert parse(st.globals, []).Parsed?; }
      FlagFailure(GlobalFlagFailure(st, argv))
    case Parsed(_, _, positional) =>
      if |st.cmds| < 1 then Continue(st)
      else if |positional| < 1 then Exit(1, Usage(st, program))
      else if positional[0] !in st.cmds then Exit(1, Usage(st, program))
      else
        var name := positional[0];
        var cont := st.cmds[name];
        if "h" in cont.command.flags then HelpFlagRedefined
        else
          match parse(cont.command.flags + {"h"}, positional[1..])
          case Malformed => FlagFailure(SubcommandFlagUsage(cont.command, name))
          case Parsed(visited, trueBools, rest) =>
            if MissingFlags(cont.requiredFlags, visited) != {} then
              Exit(1, SubcommandUsage(program, cont))
            else
              Continue(st.(matching := Some(Match(cont, rest, "h" in trueBools))))
  }

  /** Command.go's `Run`. */
  function Run(st: State, program: string): (r: RunOutcome)
    ensures r.Idle? <==> st.matching.None?
    ensures r.Ran? <==> st.matching.Some? && !st.matching.value.help
    ensures r.Ran? ==> r.handler == st.matching.value.cont.command && r.args == st.matching.value.args
    ensures r.ShowedUsage? ==> r.shown == SubcommandUsage(program, st.matching.value.cont)
  {
    match st.matching
    case None => Idle
    case Some(m) =>
      if m.help then ShowedUsage(SubcommandUsage(program, m.cont))
      else Ran(m.cont.command, m.args)
  }

  datatype Session =
    | Stopped(parsed: ParseOutcome)       // `Parse` ended the process
    | Finished(st: State, run: RunOutcome)

  /** `ParseAndRun`. */
  function ParseAndRun(st: State, argv: seq<string>, parse: Parser): (r: Session)
    requires |argv| >= 1
    requires QuietOnEmpty(parse)
    ensures r.Stopped? <==> !Parse(st, argv, parse).Continue?
    ensures r.Stopped? ==> r.parsed == Parse(st, argv, parse)
    ensures r.Finished? ==> Parse(st, argv, parse) == Continue(r.st)
    ensures r.Finished? ==> r.run == Run(r.st, argv[0])
  {
    match Parse(st, argv, parse)
    case Continue(st') => Finished(st', Run(st', argv[0]))
    case other => Stopped(other)
  }

  datatype Line = Line(name: string, desc: string)

  /** `printUsageSorted`: one line per registered name, ascending. */
  method PrintUsageSorted(cmds: Registry) returns (lines: seq<Line>)
    ensures |lines| == |cmds|
    ensures forall i :: 0 <= i < |lines| ==> lines[i].name in cmds && lines[i].desc == cmds[lines[i].name].desc
    ensures forall k :: k in cmds ==> exists i :: 0 <= i < |lines| && lines[i].name == k
    ensures forall i, j :: 0 <= i < j < |lines| ==> Less(lines[i].name, lines[j].name)
  {
    var sorted := SortedKeys(cmds);
    lines := [];
    var i := 0;
    while i < |sorted|
      invariant 0 <= i <= |sorted|
      invariant |lines| == i
      invariant forall p :: 0 <= p < i ==> lines[p] == Line(sorted[p], cmds[sorted[p]].desc)
    {
      lines := lines + [Line(sorted[i], cmds[sorted[i]].desc)];
      i := i + 1;
    }
    forall k | k in cmds
      ensures exists p :: 0 <= p < |lines| && lines[p].name == k
    {
      var p :| 0 <= p < |sorted| && sorted[p] == k;
      assert lines[p].name == k;
    }
  }
}
