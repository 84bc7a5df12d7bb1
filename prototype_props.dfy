/**
 * Properties of the prototype resolver of command-spec.ts, and how it
 * differs from the resolver of src/command-spec.ts.
 */
module PrototypeProps {
  import opened Wrappers
  import opened JsString
  import opened Schemas
  import opened Resolver
  import opened ArgvScan
  import opened ResolverProps
  import opened Prototype
  import Help

  /**
   * The chain the prototype builds: the root has the path `[spec.name]`;
   * every child is a top-level subcommand, one name longer than its parent;
   * every node holds at most as many positionals as the top-level spec
   * declares (whatever its own spec declares).
   */
  ghost predicate ProtoChain(spec: CommandSpec, n: CommandParsedSpec)
    decreases n
  {
    && |n.argumentsParsed| <= |spec.arguments|
    && match n.parent
       case None => n.spec == spec && n.commandPath == [spec.name]
       case Some(p) =>
         && ProtoChain(spec, p)
         && n.commandPath == p.commandPath + [n.spec.name]
         && FindSubcommand(spec.subcommands, n.spec.name) == Some(n.spec)
  }

  lemma {:induction false} ProtoResolveKeepsChain(spec: CommandSpec, node: CommandParsedSpec, args: seq<string>, t: CommandParsedSpec)
    requires ProtoChain(spec, node)
    requires ProtoResolveFrom(spec, node, args) == Success(t)
    ensures ProtoChain(spec, t)
    decreases |args|
  {
    if args != [] {
      var arg := args[0];
      if StartsWith(arg, "-") {
        var o := FindOption(spec.options, arg).value;
        var (val, rest) := TakeValue(o, args[1..]);
        var m := ProtoStore(node.optionsParsed, o, val).value;
        ProtoResolveKeepsChain(spec, node.(optionsParsed := m), rest, t);
      } else {
        match FindSubcommand(spec.subcommands, arg)
        case Some(sub) =>
          assert sub.name == arg;
          ProtoResolveKeepsChain(spec, ProtoChild(node, sub), args[1..], t);
        case None =>
          ProtoResolveKeepsChain(spec, node.(argumentsParsed := node.argumentsParsed + [arg]), args[1..], t);
      }
    }
  }

  lemma ProtoResolveBuildsChain(spec: CommandSpec, args: seq<string>)
    requires ProtoResolve(spec, args).Success?
    ensures ProtoChain(spec, ProtoResolve(spec, args).value)
  {
    ProtoResolveKeepsChain(spec, RootNode(spec), args, ProtoResolve(spec, args).value);
  }

  /** In the prototype chain too, every command path starts with the top-level command's name. */
  lemma {:induction false} ProtoPathStartsWithRoot(spec: CommandSpec, n: CommandParsedSpec)
    requires ProtoChain(spec, n)
    ensures |n.commandPath| > 0 && n.commandPath[0] == spec.name
    decreases n
  {
    match n.parent
    case None =>
    case Some(p) => ProtoPathStartsWithRoot(spec, p);
  }

  /**
   * The prototype `buildHelpDialog` throws exactly what its `parseArgs`
   * throws; otherwise it renders the selected node with the shared renderer,
   * so its first usage line starts with "Usage: " and the top-level name.
   */
  lemma ProtoHelpOfResolvedNode(spec: CommandSpec, args: seq<string>)
    ensures ProtoBuildHelpDialog(spec, args).Failure? <==> ProtoResolve(spec, args).Failure?
    ensures ProtoBuildHelpDialog(spec, args).Failure? ==> ProtoBuildHelpDialog(spec, args).error == ProtoResolve(spec, args).error
    ensures ProtoBuildHelpDialog(spec, args).Success? ==>
      var t := ProtoResolve(spec, args).value;
      var lines := ProtoBuildHelpDialog(spec, args).value;
      var d := if Truthy(t.spec.description) then 2 else 0;
      && d < |lines|
      && StartsWith(lines[d], "Usage: " + spec.name)
  {
    if ProtoResolve(spec, args).Success? {
      var t := ProtoResolve(spec, args).value;
      ProtoResolveBuildsChain(spec, args);
      ProtoPathStartsWithRoot(spec, t);
      Help.FirstUsageLine(t.spec, t.commandPath);
    }
  }

  /**
   * A top-level subcommand name is a transition from any node, wherever it
   * stands in the vector, even when the node's own spec has no such
   * subcommand: the child has the extended path, no positionals and no
   * options, whatever the parent held, and the pass goes on from it.
   */
  lemma ProtoSubcommandFromAnyNode(spec: CommandSpec, node: CommandParsedSpec, tok: string, rest: seq<string>, sub: CommandSpec)
    requires !StartsWith(tok, "-")
    requires sub in spec.subcommands && sub.name == tok
    ensures FindSubcommand(spec.subcommands, tok).Some?
    ensures var c := ProtoChild(node, FindSubcommand(spec.subcommands, tok).value);
      && ProtoResolveFrom(spec, node, [tok] + rest) == ProtoResolveFrom(spec, c, rest)
      && c.parent == Some(node)
      && c.commandPath == node.commandPath + [tok]
      && c.optionsParsed == map[]
      && c.argumentsParsed == []
      && c.spec.name == tok
  {
    var args := [tok] + rest;
    assert args[0] == tok && args[1..] == rest;
    var i :| 0 <= i < |spec.subcommands| && spec.subcommands[i] == sub;
  }

  /**
   * In the prototype too a token that starts with `-` is an option wherever
   * it stands: an alias no top-level option names fails with "Not implemented
   * yet"; otherwise the first option naming it is stored into the current
   * node (or the store's error is raised) and the pass goes on after its value.
   */
  lemma ProtoOptionToken(spec: CommandSpec, node: CommandParsedSpec, tok: string, rest: seq<string>)
    requires StartsWith(tok, "-")
    ensures (forall o :: o in spec.options ==> tok !in o.aliases) ==>
      ProtoResolveFrom(spec, node, [tok] + rest) == Failure(ProtoError.NotImplemented)
    ensures (exists o :: o in spec.options && tok in o.aliases) ==>
      && FindOption(spec.options, tok).Some?
      && var o := FindOption(spec.options, tok).value;
         var (val, after) := TakeValue(o, rest);
         ProtoResolveFrom(spec, node, [tok] + rest)
           == match ProtoStore(node.optionsParsed, o, val)
              case Failure(e) => Failure(e)
              case Success(m) => ProtoResolveFrom(spec, node.(optionsParsed := m), after)
  {
    var args := [tok] + rest;
    assert args[0] == tok && args[1..] == rest;
    var found := FindOption(spec.options, tok);
    if found.None? {
      assert forall o :: o in spec.options ==> tok !in o.aliases by {
        forall o | o in spec.options ensures tok !in o.aliases {
          var i :| 0 <= i < |spec.options| && spec.options[i] == o;
        }
      }
    }
  }

  /**
   * A word that is no top-level subcommand, read when the top-level slot
   * count is reached, fails at once with the current path in the message.
   */
  lemma ProtoUnmatchedWordFails(spec: CommandSpec, node: CommandParsedSpec, tok: string, rest: seq<string>)
    requires !StartsWith(tok, "-")
    requires forall i :: 0 <= i < |spec.subcommands| ==> spec.subcommands[i].name != tok
    requires |node.argumentsParsed| >= |spec.arguments|
    ensures ProtoResolveFrom(spec, node, [tok] + rest) == Failure(NotValidCommand(node.commandPath, tok))
    ensures ProtoErrorMessage(ProtoResolveFrom(spec, node, [tok] + rest).error)
      == Some(Join(node.commandPath, " ") + " " + tok + ": Is not valid command. See " + Join(node.commandPath, " ") + " --help")
  {
    var args := [tok] + rest;
    assert args[0] == tok;
  }

  /**
   * A word that is no top-level subcommand fills a slot of the current node
   * while the node holds fewer positionals than the top-level spec declares,
   * whatever its own spec declares.
   */
  lemma ProtoWordFillsFreeSlot(spec: CommandSpec, node: CommandParsedSpec, tok: string, rest: seq<string>)
    requires !StartsWith(tok, "-")
    requires forall i :: 0 <= i < |spec.subcommands| ==> spec.subcommands[i].name != tok
    requires |node.argumentsParsed| < |spec.arguments|
    ensures ProtoResolveFrom(spec, node, [tok] + rest)
      == ProtoResolveFrom(spec, node.(argumentsParsed := node.argumentsParsed + [tok]), rest)
  {
    var args := [tok] + rest;
    assert args[0] == tok && args[1..] == rest;
  }

  /** No word is lost or reordered, as in the resolver of src/command-spec.ts. */
  lemma {:induction false} ProtoConsumesEveryWord(spec: CommandSpec, node: CommandParsedSpec, args: seq<string>, t: CommandParsedSpec)
    requires ProtoResolveFrom(spec, node, args) == Success(t)
    ensures Trace(t) == Trace(node) + Words(Scan(spec.options, args))
    decreases |args|, 1
  {
    if args != [] {
      var arg := args[0];
      if StartsWith(arg, "-") {
        var o := FindOption(spec.options, arg).value;
        var (val, rest) := TakeValue(o, args[1..]);
        var next := node.(optionsParsed := ProtoStore(node.optionsParsed, o, val).value);
        ScanOptionStep(spec.options, args);
        ProtoConsumesEveryWord(spec, next, rest, t);
        assert Trace(next) == Trace(node);
      } else if FindSubcommand(spec.subcommands, arg).Some? {
        ProtoSubcommandWordConsumed(spec, node, args, t);
      } else {
        ProtoPositionalWordConsumed(spec, node, args, t);
      }
    }
  }

  /** The word case of ProtoConsumesEveryWord, when the word names a subcommand: it is the child's name in the trace. */
  lemma {:induction false} ProtoSubcommandWordConsumed(spec: CommandSpec, node: CommandParsedSpec, args: seq<string>, t: CommandParsedSpec)
    requires args != [] && !StartsWith(args[0], "-") && FindSubcommand(spec.subcommands, args[0]).Some?
    requires ProtoResolveFrom(spec, node, args) == Success(t)
    ensures Trace(t) == Trace(node) + Words(Scan(spec.options, args))
    decreases |args|, 0
  {
    var sub := FindSubcommand(spec.subcommands, args[0]).value;
    ScanWordStep(spec.options, args);
    ProtoConsumesEveryWord(spec, ProtoChild(node, sub), args[1..], t);
    assert Trace(ProtoChild(node, sub)) == Trace(node) + [args[0]];
    assert Trace(node) + [args[0]] + Words(Scan(spec.options, args[1..])) == Trace(node) + ([args[0]] + Words(Scan(spec.options, args[1..])));
  }

  /** The word case of ProtoConsumesEveryWord, when the word fills a positional slot: it is the node's next positional. */
  lemma {:induction false} ProtoPositionalWordConsumed(spec: CommandSpec, node: CommandParsedSpec, args: seq<string>, t: CommandParsedSpec)
    requires args != [] && !StartsWith(args[0], "-") && FindSubcommand(spec.subcommands, args[0]).None?
    requires ProtoResolveFrom(spec, node, args) == Success(t)
    ensures Trace(t) == Trace(node) + Words(Scan(spec.options, args))
    decreases |args|, 0
  {
    var next := node.(argumentsParsed := node.argumentsParsed + [args[0]]);
    ScanWordStep(spec.options, args);
    ProtoConsumesEveryWord(spec, next, args[1..], t);
    assert Trace(next) == Trace(node) + [args[0]];
    assert Trace(node) + [args[0]] + Words(Scan(spec.options, args[1..])) == Trace(node) + ([args[0]] + Words(Scan(spec.options, args[1..])));
  }

  /** The prototype's options after applying, in order, every option occurrence among `toks`. */
  function ProtoApply(m: OptionsParsed, toks: seq<Token>): Result<OptionsParsed, ProtoError>
    decreases |toks|
  {
    if toks == [] then Success(m)
    else if toks[0].OptionUse? then
      match ProtoStore(m, toks[0].option, toks[0].value)
      case Failure(e) => Failure(e)
      case Success(m1) => ProtoApply(m1, toks[1..])
    else ProtoApply(m, toks[1..])
  }

  lemma {:induction false} NoTransitionKeepsAll(subcommands: seq<CommandSpec>, toks: seq<Token>)
    ensures !AfterLastTransition(subcommands, toks).0 ==> AfterLastTransition(subcommands, toks).1 == toks
    decreases |toks|
  {
    if toks != [] {
      NoTransitionKeepsAll(subcommands, toks[1..]);
    }
  }

  /**
   * Nothing is inherited: the tail's options are the option occurrences after
   * the last subcommand word, applied to an empty map (or, when no subcommand
   * word was crossed, to the current node's options).
   */
  lemma {:induction false} ProtoTailOptions(spec: CommandSpec, node: CommandParsedSpec, args: seq<string>, t: CommandParsedSpec)
    requires ProtoResolveFrom(spec, node, args) == Success(t)
    ensures var after := AfterLastTransition(spec.subcommands, Scan(spec.options, args));
      ProtoApply(if after.0 then map[] else node.optionsParsed, after.1) == Success(t.optionsParsed)
    decreases |args|
  {
    if args != [] {
      var arg := args[0];
      var toks := Scan(spec.options, args);
      if StartsWith(arg, "-") {
        var o := FindOption(spec.options, arg).value;
        var (val, rest) := TakeValue(o, args[1..]);
        var m := ProtoStore(node.optionsParsed, o, val).value;
        ProtoTailOptions(spec, node.(optionsParsed := m), rest, t);
        assert toks == [OptionUse(o, val)] + Scan(spec.options, rest);
        assert toks[1..] == Scan(spec.options, rest);
        NoTransitionKeepsAll(spec.subcommands, toks[1..]);
      } else {
        assert toks == [Word(arg)] + Scan(spec.options, args[1..]);
        assert toks[1..] == Scan(spec.options, args[1..]);
        NoTransitionKeepsAll(spec.subcommands, toks[1..]);
        match FindSubcommand(spec.subcommands, arg)
        case Some(sub) =>
          ProtoTailOptions(spec, ProtoChild(node, sub), args[1..], t);
        case None =>
          ProtoTailOptions(spec, node.(argumentsParsed := node.argumentsParsed + [arg]), args[1..], t);
      }
    }
  }

  /**
   * The spread of a `multiple` option agrees with the resolver of
   * src/command-spec.ts when the key holds nothing or a list, keeps the
   * characters of a stored string, and throws on a stored `true`.
   */
  lemma SpreadCases(m: OptionsParsed, key: string, o: OptionSpec, val: Value)
    requires o.IsMultiple()
    ensures key !in m || m[key].Many? ==> ProtoStoreOne(m, key, o, val) == Success(StoreOne(m, key, o, val))
    ensures key in m && m[key] == Single(True) ==> ProtoStoreOne(m, key, o, val) == Failure(NotIterable)
    ensures key in m && m[key].Single? && m[key].value.Text? && m[key].value.text.Some? ==>
      var s := m[key].value.text.value;
      && ProtoStoreOne(m, key, o, val).Success?
      && ProtoStoreOne(m, key, o, val).value[key].values == CharValues(s) + [val]
  {
    assert [] + [val] == [val];
  }

  /** For an option that is not `multiple`, both resolvers store the same. */
  lemma {:induction false} SingleStoreAgrees(m: OptionsParsed, names: seq<string>, o: OptionSpec, val: Value)
    requires !o.IsMultiple()
    ensures ProtoStoreUnder(m, names, o, val) == Success(StoreUnder(m, names, o, val))
    decreases |names|
  {
    if names != [] {
      SingleStoreAgrees(m, names[..|names| - 1], o, val);
    }
  }

  function AsProtoError(e: ParseError): ProtoError {
    match e
    case NotImplemented => ProtoError.NotImplemented
    case CommandNotFound(path, arg) => NotValidCommand(path, arg)
  }

  /**
   * Where the two resolvers meet: for a command without subcommands and
   * without `multiple` options, the prototype yields the same node, or the
   * same error under its own name, as the resolver of src/command-spec.ts.
   */
  lemma {:induction false} AgreementWithoutSubcommands(spec: CommandSpec, node: CommandParsedSpec, args: seq<string>)
    requires spec.subcommands == [] && node.spec == spec
    requires forall i :: 0 <= i < |spec.options| ==> !spec.options[i].IsMultiple()
    ensures ProtoResolveFrom(spec, node, args) == match ResolveFrom(spec, node, args)
      case Success(t) => Success(t)
      case Failure(e) => Failure(AsProtoError(e))
    decreases |args|
  {
    if args != [] {
      var arg := args[0];
      if StartsWith(arg, "-") {
        var found := FindOption(spec.options, arg);
        if found.Some? {
          var o := found.value;
          var (val, rest) := TakeValue(o, args[1..]);
          assert o in spec.options;
          SingleStoreAgrees(node.optionsParsed, o.aliases, o, val);
          AgreementWithoutSubcommands(spec, node.(optionsParsed := Store(node.optionsParsed, o, val)), rest);
        }
      } else if |node.argumentsParsed| < |spec.arguments| {
        AgreementWithoutSubcommands(spec, node.(argumentsParsed := node.argumentsParsed + [arg]), args[1..]);
      }
    }
  }
}
