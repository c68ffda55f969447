/** The recursive dispatcher of commander.go.  A `Commander` owns a registry
    of named sub-commands; running it consumes one token to choose a record,
    prepares that record's handler (its path, flags and completion surface,
    each only when the handler supports it), parses the remaining tokens and
    runs the handler, which may itself be a Commander one level down.
    Completion walks the same tree.  `fmt`, `tabwriter` and `os.Exit` become
    outcome values; the flag package is the `Parser` oracle. */
module Commander {
  import opened Wrappers
  import opened Sorting
  import opened Flags

  /** A handler, by the optional interfaces it satisfies.
      - `Leaf`: a plain `Cmd`; it is a `Flagger` exactly when `flagger` holds
        the flags its `Flags` declares, and a `Completer` when `completer`.
        `setsUsage` says that its `Flags`, when it has one, also installs a
        usage function of its own as `fs.Usage`.
      - `Node`: the library's `commander` (used directly or embedded), which
        satisfies `Commander`, hence `Flagger` and `Completer` too.  `name` is
        what its last `Path` call stored; `flags` are the flags declared on
        its flag set besides the usage hook its `Flags` installs. */
  datatype Handler =
    | Leaf(id: nat, flagger: Option<set<string>>, completer: bool, setsUsage: bool)
    | Node(name: string, cmds: Registry, flags: set<string>)

  /** `cmdCont`: one registry entry. */
  datatype Cont = Cont(name: string, syntax: string, description: string, command: Handler)

  type Registry = map<string, Cont>

  predicate IsCommander(h: Handler) { h.Node? }

  predicate IsFlagger(h: Handler) { h.Node? || h.flagger.Some? }

  predicate IsCompleter(h: Handler) { h.Node? || h.completer }

  /** The flags a handler's `Flags` declares; none when it has no `Flags`. */
  function DeclaredFlags(h: Handler): (decls: set<string>)
    ensures !IsFlagger(h) ==> decls == {}
  {
    match h
    case Leaf(_, flagger, _, _) => if flagger.Some? then flagger.value else {}
    case Node(_, _, flags) => flags
  }

  /** Every entry is stored under its own name, at every level of the tree;
      `On` keeps this true. */
  ghost predicate WellFormed(h: Handler)
    decreases h
  {
    h.Node? ==>
      forall k :: k in h.cmds ==>
        && h.cmds[k].name == k
        && (assert h.cmds[k] in h.cmds.Values; WellFormed(h.cmds[k].command))
  }

  /** `commander.On`: registers `command` under `name`, replacing any earlier
      entry of that name. */
  function On(c: Handler, name: string, syntax: string, description: string, command: Handler): (r: Handler)
    requires c.Node?
    ensures r.Node? && r.name == c.name && r.flags == c.flags
    ensures r.cmds.Keys == c.cmds.Keys + {name}
    ensures r.cmds[name] == Cont(name, syntax, description, command)
    ensures forall k :: k in c.cmds && k != name ==> r.cmds[k] == c.cmds[k]
    ensures WellFormed(c) && WellFormed(command) ==> WellFormed(r)
  {
    c.(cmds := c.cmds[name := Cont(name, syntax, description, command)])
  }

  /** `getContainer`: the record registered under the first token, matched
      exactly; nothing when there is no token. */
  function GetContainer(cmds: Registry, args: seq<string>): (r: Option<Cont>)
    ensures r.None? <==> |args| == 0 || args[0] !in cmds
    ensures r.Some? ==> r.value == cmds[args[0]] && r.value in cmds.Values
  {
    if |args| >= 1 && args[0] in cmds then Some(cmds[args[0]]) else None
  }

  /** What gets printed before the process stops. */
  datatype Display =
    | CommanderUsage(path: string, cmds: Registry, flagCount: nat)
      // `commander.Usage`: a header naming `path`, the records sorted by
      // name, the flag defaults when `flagCount > 0`, the -h hint
    | FlagDefaults(setName: string)
      // the flag package's own usage for a flag set
    | HandlerUsage(id: nat, setName: string)
      // the usage function leaf `id`'s own `Flags` installed on the flag set

  /** `numOfGlobalFlags`: the flags declared on a flag set, none for nil. */
  function NumOfGlobalFlags(fs: Option<FlagSet>): (count: nat)
    ensures fs.None? ==> count == 0
    ensures count == 0 <==> fs.None? || fs.value.decls == {}
  {
    if fs.None? then 0 else |fs.value.decls|
  }

  /** `commander.Usage(fs)`, as data. */
  function Usage(path: string, cmds: Registry, fs: Option<FlagSet>): (d: Display)
    ensures d.CommanderUsage? && d.path == path && d.cmds == cmds
    ensures d.flagCount > 0 <==> fs.Some? && fs.value.decls != {}
  {
    CommanderUsage(path, cmds, NumOfGlobalFlags(fs))
  }

  /** A flag set made by `prepare`: its name, the flags declared on it, and
      what its `Usage` hook shows. */
  datatype FlagSet = FlagSet(name: string, decls: set<string>, usage: Display)

  /** The nested commander a terminator completes positional arguments with. */
  datatype Nested = Nested(path: string, node: Handler)

  /** A completion terminator made by `prepare`: the flag set it completes,
      the positional-argument generator registered on it (`term.Argsgen`), and
      the leaf handler whose `Compgens` registered flag strategies on it. */
  datatype Term = Term(fs: FlagSet, argsgen: Option<Nested>, strategiesOf: Option<nat>)

  /** The optional-interface calls `prepare` makes, in the order made. */
  datatype Call = PathCall(qname: string) | FlagsCall | CompgensCall

  function Rank(call: Call): nat
  {
    match call
    case PathCall(_) => 0
    case FlagsCall => 1
    case CompgensCall => 2
  }

  datatype Prepared = Prepared(fs: FlagSet, term: Term, calls: seq<Call>)

  /** `prepare`: a fresh flag set and terminator named `name`, configured by
      `Path`, then `Flags`, then `Compgens`, each called only when the
      handler implements it. */
  function Prepare(h: Handler, name: string): (p: Prepared)
    ensures PathCall(name) in p.calls <==> IsCommander(h)
    ensures FlagsCall in p.calls <==> IsFlagger(h)
    ensures CompgensCall in p.calls <==> IsCompleter(h)
    ensures forall i :: 0 <= i < |p.calls| ==> p.calls[i].PathCall? ==> p.calls[i].qname == name
    ensures forall i, j :: 0 <= i < j < |p.calls| ==> Rank(p.calls[i]) < Rank(p.calls[j])
    ensures p.fs.name == name && p.fs.decls == DeclaredFlags(h) && p.term.fs == p.fs
    ensures h.Node? ==> p.fs.usage == Usage(name, h.cmds, Some(p.fs))
    ensures h.Leaf? && IsFlagger(h) && h.setsUsage ==> p.fs.usage == HandlerUsage(h.id, name)
    ensures h.Leaf? && !(IsFlagger(h) && h.setsUsage) ==> p.fs.usage == FlagDefaults(name)
    ensures p.term.argsgen.Some? <==> IsCommander(h)
    ensures p.term.argsgen.Some? ==> p.term.argsgen.value == Nested(name, h)
    ensures p.term.strategiesOf.Some? <==> h.Leaf? && h.completer
  {
    var calls :=
      (if IsCommander(h) then [PathCall(name)] else [])
      + (if IsFlagger(h) then [FlagsCall] else [])
      + (if IsCompleter(h) then [CompgensCall] else []);
    var decls := DeclaredFlags(h);
    var fs := FlagSet(name, decls,
                      if h.Node? then Usage(name, h.cmds, Some(FlagSet(name, decls, FlagDefaults(name))))
                      else if IsFlagger(h) && h.setsUsage then HandlerUsage(h.id, name)
                      else FlagDefaults(name));
    var term := Term(fs,
                     if h.Node? then Some(Nested(name, h)) else None,
                     if h.Leaf? && h.completer then Some(h.id) else None);
    Prepared(fs, term, calls)
  }

  /** How a dispatch ends. */
  datatype Outcome =
    | Ran(id: nat, args: seq<string>)     // a leaf handler's `Run`
    | UsageExit(shown: Display)           // `Usage(nil)` then `os.Exit(1)`
    | FlagFailure(shown: Display)         // the flag package shows `shown` and exits

  /** `Launch(cmd, name, args)`: prepare `h` as `name`, parse `args[1:]`
      against its flags and run it on what is left. */
  function Launch(h: Handler, name: string, args: seq<string>, parse: Parser): (r: Outcome)
    requires |args| >= 1
    decreases h, 1
    ensures parse(DeclaredFlags(h), args[1..]).Malformed? ==> r == FlagFailure(Prepare(h, name).fs.usage)
    ensures parse(DeclaredFlags(h), args[1..]).Parsed? && h.Leaf? ==>
              r == Ran(h.id, parse(DeclaredFlags(h), args[1..]).residual)
    ensures parse(DeclaredFlags(h), args[1..]).Parsed? && h.Node? ==>
              r == RunAt(name, h, parse(DeclaredFlags(h), args[1..]).residual, parse)
  {
    var p := Prepare(h, name);
    match parse(p.fs.decls, args[1..])
    case Malformed => FlagFailure(p.fs.usage)
    case Parsed(_, _, rest) =>
      match h
      case Leaf(id, _, _, _) => Ran(id, rest)
      case Node(_, _, _) => RunAt(name, h, rest, parse)
  }

  /** `commander.Run(args)` on `node` whose `Path` stored `path`. */
  function RunAt(path: string, node: Handler, args: seq<string>, parse: Parser): (r: Outcome)
    requires node.Node?
    decreases node, 0
    ensures GetContainer(node.cmds, args).None? ==> r == UsageExit(Usage(path, node.cmds, None))
    ensures GetContainer(node.cmds, args).Some? ==>
              r == Launch(node.cmds[args[0]].command, path + " " + node.cmds[args[0]].name, args, parse)
  {
    match GetContainer(node.cmds, args)
    case None => UsageExit(Usage(path, node.cmds, None))
    case Some(cont) => Launch(cont.command, path + " " + cont.name, args, parse)
  }

  /** `commander.Run(args)`. */
  function Run(c: Handler, args: seq<string>, parse: Parser): (r: Outcome)
    requires c.Node?
    ensures GetContainer(c.cmds, args).None? ==> r == UsageExit(Usage(c.name, c.cmds, None))
    ensures GetContainer(c.cmds, args).Some? ==>
              r == Launch(c.cmds[args[0]].command, c.name + " " + c.cmds[args[0]].name, args, parse)
  {
    RunAt(c.name, c, args, parse)
  }

  /** What `commander.Compgen` returns; the error result is always nil. */
  datatype Completion =
    | Candidates(pool: set<string>, prefix: string)
      // `compgen.ValueGen(vals)(prefix)` over the registered names
    | NoCompletion
      // `nil, nil`: the first token names no command
    | Delegated(term: Term, args: seq<string>, inword: bool)
      // `term.Compgen(args, inword)` on the matched record's terminator

  /** `commander.Compgen(args, inword)`; `pos` and `prefix` are what
      `compgen.Prefix(args, inword)` computes. */
  function Compgen(c: Handler, args: seq<string>, inword: bool, pos: nat, prefix: string): (r: Completion)
    requires c.Node?
    ensures pos == 0 ==> r.Candidates? && r.prefix == prefix
                         && forall k :: k in r.pool <==> k in c.cmds
    ensures pos > 0 ==> (r.NoCompletion? <==> GetContainer(c.cmds, args).None?)
    ensures pos > 0 ==> (r.Delegated? <==> GetContainer(c.cmds, args).Some?)
    ensures pos > 0 && r.Delegated? ==>
              var cont := c.cmds[args[0]];
              r.term == Prepare(cont.command, c.name + " " + cont.name).term
              && r.args == args && r.inword == inword
  {
    if pos == 0 then Candidates(c.cmds.Keys, prefix)
    else
      match GetContainer(c.cmds, args)
      case None => NoCompletion
      case Some(cont) => Delegated(Prepare(cont.command, c.name + " " + cont.name).term, args, inword)
  }

  function Name(c: Cont): string
  {
    c.name
  }

  /** `for _, cont := range c.cmds`: every record once, in an unspecified
      order. */
  method GatherRecords(cmds: Registry) returns (gathered: seq<Cont>)
    requires forall k :: k in cmds ==> cmds[k].name == k
    ensures |gathered| == |cmds|
    ensures forall i :: 0 <= i < |gathered| ==> gathered[i].name in cmds && cmds[gathered[i].name] == gathered[i]
    ensures forall k :: k in cmds ==> cmds[k] in gathered
    ensures DistinctKeys(gathered, Name)
  {
    var keys := EnumerateKeys(cmds);
    gathered := seq(|keys|, i requires 0 <= i < |keys| => cmds[keys[i]]);
    forall k | k in cmds
      ensures cmds[k] in gathered
    {
      var i :| 0 <= i < |keys| && keys[i] == k;
      assert gathered[i] == cmds[k];
    }
  }

  /** The record table of `commander.Usage`: the records gathered by `range`
      and put in order by `sort.Stable(byName(..))`. */
  method UsageEntries(cmds: Registry) returns (conts: seq<Cont>)
    requires forall k :: k in cmds ==> cmds[k].name == k
    ensures |conts| == |cmds|
    ensures forall i :: 0 <= i < |conts| ==> conts[i].name in cmds && cmds[conts[i].name] == conts[i]
    ensures forall k :: k in cmds ==> cmds[k] in conts
    ensures forall i, j :: 0 <= i < j < |conts| ==> Less(conts[i].name, conts[j].name)
  {
    var gathered := GatherRecords(cmds);
    conts := SortBy(gathered, Name);
    SortByKeepsMembers(gathered, Name);
    assert StrictlySortedBy(conts, Name);
    forall i | 0 <= i < |conts|
      ensures conts[i].name in cmds && cmds[conts[i].name] == conts[i]
    {
      assert conts[i] in gathered;
    }
  }
}
