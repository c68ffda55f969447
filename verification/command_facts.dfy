/** Properties of command.go's dispatcher that relate several operations, or
    an operation and an independent description of its result. */
module CommandFacts {
  import opened Wrappers
  import opened Sorting
  import opened Flags
  import opened Command

  /** Registering twice under one name leaves only the second registration. */
  lemma OnLastWriteWins(st: State, name: string,
                        d1: string, c1: Handler, r1: seq<string>,
                        d2: string, c2: Handler, r2: seq<string>)
    ensures On(On(st, name, d1, c1, r1), name, d2, c2, r2) == On(st, name, d2, c2, r2)
  {
  }

  /** Registrations under different names do not interfere. */
  lemma OnDistinctNamesCommute(st: State, n1: string, d1: string, c1: Handler, r1: seq<string>,
                               n2: string, d2: string, c2: Handler, r2: seq<string>)
    requires n1 != n2
    ensures On(On(st, n1, d1, c1, r1), n2, d2, c2, r2) == On(On(st, n2, d2, c2, r2), n1, d1, c1, r1)
  {
  }

  /** A handler given to `DefineHelp` is the help command whatever is
      registered, including a command named "help". */
  lemma DefinedHelpTakesPrecedence(st: State, help: Handler, desc: string, command: Handler, req: seq<string>)
    ensures HelpCommand(DefineHelp(st, help)) == Some(help)
    ensures HelpCommand(On(DefineHelp(st, help), "help", desc, command, req)) == Some(help)
  {
  }

  /** Without `DefineHelp`, registering "help" is what enables the help
      command, and it is the handler registered last under that name. */
  lemma RegisteredHelpEnables(st: State, desc: string, command: Handler, req: seq<string>)
    requires st.definedHelp.None?
    ensures HelpCommand(On(st, "help", desc, command, req)) == Some(command)
  {
  }

  /** With nothing registered, `Parse` returns once the command line's own
      flags are parsed and selects no command, so that the following `Run`
      does nothing, whether or not a help command was defined. */
  lemma EmptyRegistryIsNoOp(st: State, argv: seq<string>, parse: Parser)
    requires |argv| >= 1 && QuietOnEmpty(parse)
    requires st.cmds == map[] && st.matching.None?
    requires parse(st.globals, argv[1..]).Parsed?
    ensures Parse(st, argv, parse) == Continue(st)
    ensures ParseAndRun(st, argv, parse) == Finished(st, Idle)
  {
  }

  /** With commands registered, a command line without a positional argument,
      or whose first positional argument is not a registered name (matched
      exactly), prints the command table and exits with status 1. */
  lemma NoCommandSelected(st: State, argv: seq<string>, parse: Parser)
    requires |argv| >= 1 && QuietOnEmpty(parse)
    requires |st.cmds| > 0
    requires parse(st.globals, argv[1..]).Parsed?
    requires var positional := parse(st.globals, argv[1..]).residual;
             |positional| == 0 || positional[0] !in st.cmds
    ensures Parse(st, argv, parse) == Exit(1, Listing(argv[0], st.cmds, st.globals != {}))
  {
  }

  /** When `Parse` selects `m`, independently of how it is computed: the
      command line's flags parse, a first positional argument names a
      registered command that does not declare -h itself, the rest parses
      against that command's flags plus -h, every required flag was
      supplied, the stored arguments are that parse's residual, and the help
      flag is what the parse made of -h. */
  ghost predicate Selects(st: State, argv: seq<string>, parse: Parser, m: Match)
    requires |argv| >= 1
  {
    var global := parse(st.globals, argv[1..]);
    && global.Parsed?
    && |global.residual| > 0
    && global.residual[0] in st.cmds
    && m.cont == st.cmds[global.residual[0]]
    && "h" !in m.cont.command.flags
    && var sub := parse(m.cont.command.flags + {"h"}, global.residual[1..]);
       && sub.Parsed?
       && (forall f :: f in m.cont.requiredFlags ==> f in sub.visited)
       && m.args == sub.residual
       && m.help == ("h" in sub.trueBools)
  }

  /** `Parse` records a match exactly when `Selects` holds of it, and a
      registry with commands never lets `Parse` return without one. */
  lemma ParseSelectsExactly(st: State, argv: seq<string>, parse: Parser, m: Match)
    requires |argv| >= 1 && QuietOnEmpty(parse)
    requires |st.cmds| > 0
    ensures Parse(st, argv, parse) == Continue(st.(matching := Some(m))) <==> Selects(st, argv, parse, m)
    ensures Parse(st, argv, parse).Continue? ==> Parse(st, argv, parse).st.matching.Some?
  {
  }

  /** `Parse` never runs the command it selects.  The only handler it can run
      is the help command, as the usage hook of the command line's flag set
      when those flags fail to parse. */
  lemma ParseRunsOnlyTheHelpHook(st: State, argv: seq<string>, parse: Parser)
    requires |argv| >= 1 && QuietOnEmpty(parse)
    ensures var r := Parse(st, argv, parse);
            (r.Exit? || r.FlagFailure?) && r.shown.HelpCommandRan? ==>
              && r.FlagFailure?
              && parse(st.globals, argv[1..]).Malformed?
              && HelpCommand(st) == Some(r.shown.help)
              && r.shown.args == argv[2..]
  {
  }

  /** In a registry keyed by name, the selected command is the one the first
      positional argument names, so its usage is shown under that name. */
  lemma SelectedCommandIsNamed(st: State, argv: seq<string>, parse: Parser)
    requires |argv| >= 1 && QuietOnEmpty(parse)
    requires Consistent(st.cmds) && |st.cmds| > 0
    requires Parse(st, argv, parse).Continue?
    ensures Parse(st, argv, parse).st.matching.Some?
    ensures Parse(st, argv, parse).st.matching.value.cont.name
            == parse(st.globals, argv[1..]).residual[0]
  {
  }

  /** A missing required flag shows the command's usage and exits with
      status 1, whether or not -h was given: the check runs before -h is
      looked at. */
  lemma RequiredFlagsCheckedBeforeHelp(st: State, argv: seq<string>, parse: Parser)
    requires |argv| >= 1 && QuietOnEmpty(parse)
    requires |st.cmds| > 0
    requires parse(st.globals, argv[1..]).Parsed?
    requires var positional := parse(st.globals, argv[1..]).residual;
             && |positional| > 0 && positional[0] in st.cmds
             && var cont := st.cmds[positional[0]];
                && "h" !in cont.command.flags
                && var sub := parse(cont.command.flags + {"h"}, positional[1..]);
                   && sub.Parsed?
                   && exists f :: f in cont.requiredFlags && f !in sub.visited
    ensures Parse(st, argv, parse).Exit?
    ensures Parse(st, argv, parse).code == 1
    ensures Parse(st, argv, parse).shown
            == SubcommandUsage(argv[0], st.cmds[parse(st.globals, argv[1..]).residual[0]])
  {
  }

  /** When the command line's own flags fail to parse, the flag package runs
      `flag.Usage` and ends the process: the help command on the arguments
      after the first when there is one, else its default usage. */
  lemma GlobalFlagFailureRunsHelpHook(st: State, argv: seq<string>, parse: Parser)
    requires |argv| >= 1 && QuietOnEmpty(parse)
    requires parse(st.globals, argv[1..]).Malformed?
    ensures |argv| >= 2
    ensures Parse(st, argv, parse) == FlagFailure(GlobalFlagFailure(st, argv))
    ensures HelpCommand(st).Some? ==>
              Parse(st, argv, parse).shown == HelpCommandRan(HelpCommand(st).value, argv[2..])
    ensures HelpCommand(st).None? ==> Parse(st, argv, parse).shown == FlagDefaults(argv[0])
  {
    assert argv[1..] != [] by { assert parse(st.globals, []).Parsed?; }
  }

  /** When the selected command's own flags fail to parse, its flag set's
      usage is shown: the one its `Flags` installed, or the default for a set
      named after the command. */
  lemma SubcommandFlagFailure(st: State, argv: seq<string>, parse: Parser)
    requires |argv| >= 1 && QuietOnEmpty(parse)
    requires |st.cmds| > 0
    requires parse(st.globals, argv[1..]).Parsed?
    requires var positional := parse(st.globals, argv[1..]).residual;
             && |positional| > 0 && positional[0] in st.cmds
             && var cont := st.cmds[positional[0]];
                && "h" !in cont.command.flags
                && parse(cont.command.flags + {"h"}, positional[1..]).Malformed?
    ensures var name := parse(st.globals, argv[1..]).residual[0];
            var command := st.cmds[name].command;
            && (command.setsUsage ==> Parse(st, argv, parse) == FlagFailure(HandlerUsage(command, name)))
            && (!command.setsUsage ==> Parse(st, argv, parse) == FlagFailure(FlagDefaults(name)))
  {
  }

  /** Whether the required-flag check passes depends only on which names are
      required and which were supplied, not on the order of either. */
  lemma RequiredFlagsOrderIrrelevant(r1: seq<string>, r2: seq<string>, visited: set<string>)
    requires forall f :: f in r1 <==> f in r2
    ensures MissingFlags(r1, visited) == MissingFlags(r2, visited)
  {
  }

  /** Required flags {A, B}: the check passes exactly when both were given. */
  lemma RequiredBothFlags(visited: set<string>)
    ensures MissingFlags(["A", "B"], visited) == {} <==> "A" in visited && "B" in visited
  {
  }

  /** After a successful `Parse`, `Run` runs the selected handler on the
      stored arguments, or shows that command's usage when -h was given; the
      handler that runs is the one registered under the first positional
      argument. */
  lemma ParseThenRun(st: State, argv: seq<string>, parse: Parser, m: Match)
    requires |argv| >= 1 && QuietOnEmpty(parse)
    requires |st.cmds| > 0
    requires Selects(st, argv, parse, m)
    ensures ParseAndRun(st, argv, parse)
            == Finished(st.(matching := Some(m)),
                        if m.help then ShowedUsage(SubcommandUsage(argv[0], m.cont))
                        else Ran(m.cont.command, m.args))
  {
    ParseSelectsExactly(st, argv, parse, m);
  }

  /** Two registered commands, the second one named on the command line and
      declaring no -h of its own: only the second runs, with no arguments left
      over. */
  lemma SecondOfTwoCommandsRuns(c1: Handler, c2: Handler)
    requires "h" !in c2.flags
    ensures var st := On(On(Initial({}), "command1", "", c1, []), "command2", "", c2, []);
            ParseAndRun(st, ["cmd", "command2"], Passthrough).Finished?
            && ParseAndRun(st, ["cmd", "command2"], Passthrough).run == Ran(c2, [])
  {
    var st := On(On(Initial({}), "command1", "", c1, []), "command2", "", c2, []);
    assert Passthrough({}, ["command2"]).residual == ["command2"];
    assert ["command2"][1..] == [];
    assert Selects(st, ["cmd", "command2"], Passthrough, Match(st.cmds["command2"], [], false));
    ParseThenRun(st, ["cmd", "command2"], Passthrough, Match(st.cmds["command2"], [], false));
  }

  /** The lines of `printUsageSorted` are determined by the registry alone:
      any two sequences meeting its postcondition are equal, so Go's map
      iteration order never shows. */
  lemma UsageListingDeterminate(cmds: Registry, l1: seq<Line>, l2: seq<Line>)
    requires forall i :: 0 <= i < |l1| ==> l1[i].name in cmds && l1[i].desc == cmds[l1[i].name].desc
    requires forall i :: 0 <= i < |l2| ==> l2[i].name in cmds && l2[i].desc == cmds[l2[i].name].desc
    requires forall k :: k in cmds ==> exists i :: 0 <= i < |l1| && l1[i].name == k
    requires forall k :: k in cmds ==> exists i :: 0 <= i < |l2| && l2[i].name == k
    requires forall i, j :: 0 <= i < j < |l1| ==> Less(l1[i].name, l1[j].name)
    requires forall i, j :: 0 <= i < j < |l2| ==> Less(l2[i].name, l2[j].name)
    ensures l1 == l2
  {
    var key := (l: Line) => l.name;
    assert StrictlySortedBy(l1, key) && StrictlySortedBy(l2, key);
    forall l
      ensures l in l1 <==> l in l2
    {
      if l in l1 {
        var i :| 0 <= i < |l1| && l1[i] == l;
        var j :| 0 <= j < |l2| && l2[j].name == l.name;
        assert l2[j] == l;
      }
      if l in l2 {
        var j :| 0 <= j < |l2| && l2[j] == l;
        var i :| 0 <= i < |l1| && l1[i].name == l.name;
        assert l1[i] == l;
      }
    }
    StrictlySortedUnique(l1, l2, key);
  }
}
