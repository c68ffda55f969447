/** Properties of commander.go's recursive dispatcher that relate several
    operations: registration and lookup, the dispatch walk against the
    registered tree, completion against dispatch, and the usage table
    against the order in which Go's map hands out its records. */
module CommanderFacts {
  import opened Wrappers
  import opened Sorting
  import opened Flags
  import opened Commander

  /** Registering twice under one name leaves only the second record. */
  lemma OnLastWriteWins(c: Handler, name: string,
                        s1: string, d1: string, h1: Handler,
                        s2: string, d2: string, h2: Handler)
    requires c.Node?
    ensures On(On(c, name, s1, d1, h1), name, s2, d2, h2) == On(c, name, s2, d2, h2)
  {
  }

  /** The handler reached from `h` by following the registry keys `keys`. */
  function Lookup(h: Handler, keys: seq<string>): Option<Handler>
    decreases h
  {
    if |keys| == 0 then Some(h)
    else if h.Node? && keys[0] in h.cmds then
      assert h.cmds[keys[0]] in h.cmds.Values;
      Lookup(h.cmds[keys[0]].command, keys[1..])
    else None
  }

  /** The display name built while descending along `keys`. */
  function JoinPath(path: string, keys: seq<string>): string
    decreases |keys|
  {
    if |keys| == 0 then path else JoinPath(path + " " + keys[0], keys[1..])
  }

  /** The leaf handler `id` is registered somewhere below `h`. */
  ghost predicate Registers(h: Handler, keys: seq<string>, id: nat)
  {
    Lookup(h, keys).Some? && Lookup(h, keys).value.Leaf? && Lookup(h, keys).value.id == id
  }

  /** Whatever the flag parser does, only a registered handler ever runs:
      a run reached by `Launch` is of a leaf below the launched handler. */
  lemma {:induction false} LaunchRunsRegistered(h: Handler, name: string, args: seq<string>, parse: Parser)
    requires |args| >= 1
    requires Launch(h, name, args, parse).Ran?
    ensures exists keys :: Registers(h, keys, Launch(h, name, args, parse).id)
    decreases h, 1
  {
    var rest := parse(DeclaredFlags(h), args[1..]).residual;
    if h.Leaf? {
      assert Registers(h, [], h.id);
    } else {
      RunRunsRegistered(name, h, rest, parse);
    }
  }

  /** ... and a run reached by `commander.Run` is of a leaf registered under
      the first token. */
  lemma {:induction false} RunRunsRegistered(path: string, node: Handler, args: seq<string>, parse: Parser)
    requires node.Node?
    requires RunAt(path, node, args, parse).Ran?
    ensures exists keys :: |keys| > 0 && keys[0] == args[0] && Registers(node, keys, RunAt(path, node, args, parse).id)
    decreases node, 0
  {
    var cont := node.cmds[args[0]];
    assert cont in node.cmds.Values;
    var id := RunAt(path, node, args, parse).id;
    LaunchRunsRegistered(cont.command, path + " " + cont.name, args, parse);
    var keys :| Registers(cont.command, keys, id);
    assert ([args[0]] + keys)[1..] == keys;
    assert Registers(node, [args[0]] + keys, id);
  }

  /** When no token is taken for a flag, dispatch follows the registry keys
      exactly: a command line that spells out the path to a leaf runs that
      leaf on the tokens after the path, and one that stops at a nested
      commander without naming one of its commands shows that commander's
      usage, under the display name built along the path. */
  lemma {:induction false} PassthroughFollowsPath(path: string, node: Handler, keys: seq<string>,
                                                  rest: seq<string>, target: Handler)
    requires node.Node? && WellFormed(node)
    requires Lookup(node, keys) == Some(target)
    ensures target.Leaf? ==> RunAt(path, node, keys + rest, Passthrough) == Ran(target.id, rest)
    ensures target.Node? && (|rest| == 0 || rest[0] !in target.cmds) ==>
              RunAt(path, node, keys + rest, Passthrough) == UsageExit(Usage(JoinPath(path, keys), target.cmds, None))
    decreases |keys|
  {
    if |keys| == 0 {
      assert keys + rest == rest;
    } else {
      var k := keys[0];
      var cont := node.cmds[k];
      assert cont in node.cmds.Values;
      var child := cont.command;
      assert (keys + rest)[0] == k;
      assert (keys + rest)[1..] == keys[1..] + rest;
      assert RunAt(path, node, keys + rest, Passthrough)
             == Launch(child, path + " " + k, keys + rest, Passthrough);
      if child.Leaf? {
        assert |keys| == 1;
        assert keys[1..] + rest == rest;
      } else {
        assert RunAt(path, node, keys + rest, Passthrough)
               == RunAt(path + " " + k, child, keys[1..] + rest, Passthrough);
        PassthroughFollowsPath(path + " " + k, child, keys[1..], rest, target);
      }
    }
  }

  /** A nested commander whose own flags parse, but whose next token names
      none of its commands, fails at its own level: the usage shown is the
      nested commander's, under the display name `path + " " + token`, not the
      parent's. */
  lemma NestedMissShowsNestedUsage(path: string, node: Handler, args: seq<string>, parse: Parser)
    requires node.Node? && WellFormed(node)
    requires |args| > 0 && args[0] in node.cmds && node.cmds[args[0]].command.Node?
    requires var child := node.cmds[args[0]].command;
             && parse(child.flags, args[1..]).Parsed?
             && var rest := parse(child.flags, args[1..]).residual;
                |rest| == 0 || rest[0] !in child.cmds
    ensures RunAt(path, node, args, parse)
            == UsageExit(Usage(path + " " + args[0], node.cmds[args[0]].command.cmds, None))
  {
  }

  /** Completion walks the tree as dispatch does: where completion finds no
      command, dispatch shows the top-level usage; where it delegates, it
      delegates to a terminator named with the same display name under which
      dispatch launches the same record. */
  lemma CompletionAgreesWithDispatch(c: Handler, args: seq<string>, inword: bool, pos: nat,
                                     prefix: string, parse: Parser)
    requires c.Node?
    requires pos > 0
    ensures Compgen(c, args, inword, pos, prefix).NoCompletion? ==>
              Run(c, args, parse) == UsageExit(Usage(c.name, c.cmds, None))
    ensures Compgen(c, args, inword, pos, prefix).Delegated? ==>
              && |args| > 0 && args[0] in c.cmds
              && Run(c, args, parse)
                 == Launch(c.cmds[args[0]].command, Compgen(c, args, inword, pos, prefix).term.fs.name, args, parse)
  {
  }

  /** The usage table does not depend on the order in which `range` hands
      out the records: sorting any two gatherings gives the same table. */
  lemma UsageTableIndependentOfOrder(cmds: Registry, e1: seq<Cont>, e2: seq<Cont>)
    requires forall k :: k in cmds ==> cmds[k].name == k
    requires forall i :: 0 <= i < |e1| ==> e1[i].name in cmds && cmds[e1[i].name] == e1[i]
    requires forall i :: 0 <= i < |e2| ==> e2[i].name in cmds && cmds[e2[i].name] == e2[i]
    requires forall k :: k in cmds ==> cmds[k] in e1 && cmds[k] in e2
    requires DistinctKeys(e1, Name) && DistinctKeys(e2, Name)
    ensures SortBy(e1, Name) == SortBy(e2, Name)
  {
    SortByKeepsMembers(e1, Name);
    SortByKeepsMembers(e2, Name);
    forall x
      ensures x in e1 <==> x in e2
    {
      if x in e1 {
        var i :| 0 <= i < |e1| && e1[i] == x;
      }
      if x in e2 {
        var i :| 0 <= i < |e2| && e2[i] == x;
      }
    }
    StrictlySortedUnique(SortBy(e1, Name), SortBy(e2, Name), Name);
  }

  /** An example tree: `git` with `version` and a nested `remote`
      holding `add <url>`. */
  function Add(): Handler { Leaf(2, None, false, false) }

  function Version(): Handler { Leaf(1, None, false, false) }

  function Remote(): Handler
  {
    Node("", map["add" := Cont("add", "<url>", "Adds a remote", Add())], {})
  }

  function Git(): Handler
  {
    Node("git", map["version" := Cont("version", "", "Prints the version", Version()),
                    "remote" := Cont("remote", "", "Manages remotes", Remote())], {})
  }

  lemma GitWellFormed()
    ensures WellFormed(Git())
  {
    assert WellFormed(Remote());
  }

  lemma GitRunsAdd()
    ensures Run(Git(), ["remote", "add", "http://x"], Passthrough) == Ran(2, ["http://x"])
  {
    GitWellFormed();
    assert Lookup(Git(), ["remote", "add"]) == Some(Add());
    PassthroughFollowsPath("git", Git(), ["remote", "add"], ["http://x"], Add());
    assert ["remote", "add"] + ["http://x"] == ["remote", "add", "http://x"];
  }

  lemma GitRunsVersion()
    ensures Run(Git(), ["version", "extra"], Passthrough) == Ran(1, ["extra"])
  {
    GitWellFormed();
    assert Lookup(Git(), ["version"]) == Some(Version());
    PassthroughFollowsPath("git", Git(), ["version"], ["extra"], Version());
    assert ["version"] + ["extra"] == ["version", "extra"];
  }

  lemma GitRejectsUnknown()
    ensures Run(Git(), ["bogus"], Passthrough) == UsageExit(Usage("git", Git().cmds, None))
  {
    assert GetContainer(Git().cmds, ["bogus"]).None?;
  }

  lemma GitRejectsUnknownNested()
    ensures Run(Git(), ["remote", "bogus"], Passthrough) == UsageExit(Usage("git remote", Remote().cmds, None))
  {
    GitWellFormed();
    assert Lookup(Git(), ["remote"]) == Some(Remote());
    PassthroughFollowsPath("git", Git(), ["remote"], ["bogus"], Remote());
    assert ["remote"] + ["bogus"] == ["remote", "bogus"];
  }

  /** Completing after `remote add ` hands over to the terminator prepared
      for `remote`, whose positional generator is the nested commander. */
  lemma GitCompletesNested()
    ensures Compgen(Git(), ["remote", "add", ""], false, 2, "").Delegated?
    ensures Compgen(Git(), ["remote", "add", ""], false, 2, "").term.argsgen == Some(Nested("git remote", Remote()))
  {
    assert "git" + " " + "remote" == "git remote";
  }
}
