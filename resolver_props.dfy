/**
 * What `parseArgs` of src/command-spec.ts guarantees: the chain it builds is
 * well formed, every option occurrence of the whole vector is visible at the
 * tail (inheritance), no plain word is lost or reordered, and tokens are
 * classified option first, then subcommand, then positional.
 */
module ResolverProps {
  import opened Wrappers
  import opened JsString
  import opened Schemas
  import opened Resolver
  import opened ArgvScan

  /** The de-prefixed keys of `names`. */
  function KeysOf(names: seq<string>): set<string> {
    set i | 0 <= i < |names| :: StripPrefix(names[i])
  }

  /** How many of `names` de-prefix to `key`. */
  function HitCount(names: seq<string>, key: string): nat
    decreases |names|
  {
    if names == [] then 0
    else HitCount(names[..|names| - 1], key) + (if StripPrefix(names[|names| - 1]) == key then 1 else 0)
  }

  function Repeat(v: Value, n: nat): (r: seq<Value>)
    ensures |r| == n && forall i :: 0 <= i < n ==> r[i] == v
  {
    seq(n, _ => v)
  }

  lemma {:induction false} KeysOfSnoc(names: seq<string>)
    requires names != []
    ensures KeysOf(names) == KeysOf(names[..|names| - 1]) + {StripPrefix(names[|names| - 1])}
  {
    var init := names[..|names| - 1];
    forall k | k in KeysOf(names) ensures k in KeysOf(init) + {StripPrefix(names[|names| - 1])} {
      var i :| 0 <= i < |names| && StripPrefix(names[i]) == k;
      if i < |names| - 1 { assert init[i] == names[i]; }
    }
    forall k | k in KeysOf(init) ensures k in KeysOf(names) {
      var i :| 0 <= i < |init| && StripPrefix(init[i]) == k;
      assert names[i] == init[i];
    }
  }

  /** A key is hit by some alias exactly when it is one of the aliases' de-prefixed keys. */
  lemma {:induction false} HitCountPositive(names: seq<string>, key: string)
    ensures HitCount(names, key) > 0 <==> key in KeysOf(names)
    decreases |names|
  {
    if names != [] {
      KeysOfSnoc(names);
      HitCountPositive(names[..|names| - 1], key);
    }
  }

  /** The writes of one occurrence add exactly the aliases' de-prefixed keys. */
  lemma {:induction false} StoreUnderKeys(m: OptionsParsed, names: seq<string>, o: OptionSpec, val: Value)
    ensures StoreUnder(m, names, o, val).Keys == m.Keys + KeysOf(names)
    decreases |names|
  {
    if names != [] {
      KeysOfSnoc(names);
      StoreUnderKeys(m, names[..|names| - 1], o, val);
    }
  }

  /**
   * Option storage: a key no alias de-prefixes to keeps its value; a plain
   * option overwrites with the value; a `multiple` one appends it, once per
   * alias with that key, to the array already there (to `[]` when what is
   * there is not an array).
   */
  lemma {:induction false} StoreUnderValues(m: OptionsParsed, names: seq<string>, o: OptionSpec, val: Value, key: string)
    ensures HitCount(names, key) == 0 && key in m ==> key in StoreUnder(m, names, o, val) && StoreUnder(m, names, o, val)[key] == m[key]
    ensures HitCount(names, key) > 0 ==> key in StoreUnder(m, names, o, val)
    ensures HitCount(names, key) > 0 && !o.IsMultiple() ==> StoreUnder(m, names, o, val)[key] == Single(val)
    ensures HitCount(names, key) > 0 && o.IsMultiple() ==>
      StoreUnder(m, names, o, val)[key] == Many(PriorValues(m, key) + Repeat(val, HitCount(names, key)))
    decreases |names|
  {
    if names != [] {
      var init := names[..|names| - 1];
      var last := names[|names| - 1];
      StoreUnderValues(m, init, o, val, key);
      var before := StoreUnder(m, init, o, val);
      if o.IsMultiple() && StripPrefix(last) == key {
        if HitCount(init, key) > 0 {
          assert PriorValues(before, key) == PriorValues(m, key) + Repeat(val, HitCount(init, key));
          assert Repeat(val, HitCount(init, key)) + [val] == Repeat(val, HitCount(names, key));
        } else {
          StoreUnderKeys(m, init, o, val);
          HitCountPositive(init, key);
          assert PriorValues(before, key) == PriorValues(m, key);
          assert Repeat(val, 1) == [val];
        }
      }
    }
  }

  lemma StorePreservesKeys(m: OptionsParsed, o: OptionSpec, val: Value)
    ensures m.Keys <= Store(m, o, val).Keys
  {
    StoreUnderKeys(m, o.aliases, o, val);
  }

  /** `optionsParsed` after applying, in order, every option occurrence among `toks`. */
  function ApplyOptions(m: OptionsParsed, toks: seq<Token>): OptionsParsed
    decreases |toks|
  {
    if toks == [] then m
    else ApplyOptions(if toks[0].OptionUse? then Store(m, toks[0].option, toks[0].value) else m, toks[1..])
  }

  /**
   * The words a chain consumed: the root's positionals, then for each
   * subcommand its name followed by its positionals.
   */
  function Trace(n: CommandParsedSpec): seq<string>
    decreases n
  {
    (match n.parent
     case None => []
     case Some(p) => Trace(p) + [n.spec.name])
    + n.argumentsParsed
  }

  /** The structure of a chain built from the top-level spec `spec`. */
  ghost predicate WellFormedChain(spec: CommandSpec, n: CommandParsedSpec)
    decreases n
  {
    && |n.argumentsParsed| <= |n.spec.arguments|
    && match n.parent
       case None => n.spec == spec && n.commandPath == [spec.name]
       case Some(p) =>
         && WellFormedChain(spec, p)
         && n.commandPath == p.commandPath + [n.spec.name]
         && FindSubcommand(p.spec.subcommands, n.spec.name) == Some(n.spec)
         && p.optionsParsed.Keys <= n.optionsParsed.Keys
  }

  /** A well-formed chain has one path segment per node. */
  lemma {:induction false} PathLengthIsDepth(spec: CommandSpec, n: CommandParsedSpec)
    requires WellFormedChain(spec, n)
    ensures |n.commandPath| == Depth(n) + 1
    decreases n
  {
    match n.parent
    case None =>
    case Some(p) => PathLengthIsDepth(spec, p);
  }

  /** A well-formed chain's path starts with the top-level command's name. */
  lemma {:induction false} PathStartsWithRoot(spec: CommandSpec, n: CommandParsedSpec)
    requires WellFormedChain(spec, n)
    ensures |n.commandPath| > 0 && n.commandPath[0] == spec.name
    decreases n
  {
    match n.parent
    case None =>
    case Some(p) => PathStartsWithRoot(spec, p);
  }

  /** Every step of the pass keeps the chain well formed. */
  lemma {:induction false} ResolveKeepsChainWellFormed(spec: CommandSpec, node: CommandParsedSpec, args: seq<string>, t: CommandParsedSpec)
    requires WellFormedChain(spec, node)
    requires ResolveFrom(spec, node, args) == Success(t)
    ensures WellFormedChain(spec, t)
    decreases |args|
  {
    if args != [] {
      var arg := args[0];
      if StartsWith(arg, "-") {
        var o := FindOption(spec.options, arg).value;
        var (val, rest) := TakeValue(o, args[1..]);
        StorePreservesKeys(node.optionsParsed, o, val);
        ResolveKeepsChainWellFormed(spec, node.(optionsParsed := Store(node.optionsParsed, o, val)), rest, t);
      } else {
        match FindSubcommand(node.spec.subcommands, arg)
        case Some(sub) =>
          assert sub.name == arg;
          ResolveKeepsChainWellFormed(spec, ChildNode(node, sub), args[1..], t);
        case None =>
          ResolveKeepsChainWellFormed(spec, node.(argumentsParsed := node.argumentsParsed + [arg]), args[1..], t);
      }
    }
  }

  /**
   * The chain `parseArgs` returns: the root has path `[spec.name]` and is the
   * top-level spec; each child's path is its parent's plus its own name, it is
   * the first subcommand of that name, and it sees every option key its
   * parent had; no node holds more positionals than its spec declares.
   */
  lemma ResolveBuildsWellFormedChain(spec: CommandSpec, args: seq<string>)
    requires Resolve(spec, args).Success?
    ensures WellFormedChain(spec, Resolve(spec, args).value)
  {
    ResolveKeepsChainWellFormed(spec, RootNode(spec), args, Resolve(spec, args).value);
  }

  /** `p` is a proper ancestor of `n`, with exactly the fields it holds. */
  predicate Above(p: CommandParsedSpec, n: CommandParsedSpec)
    decreases n
  {
    match n.parent
    case None => false
    case Some(q) => q == p || Above(p, q)
  }

  /** The rest of the pass never rewrites an ancestor of the current node. */
  lemma {:induction false} ResolveKeepsAncestors(spec: CommandSpec, node: CommandParsedSpec, args: seq<string>, t: CommandParsedSpec, p: CommandParsedSpec)
    requires ResolveFrom(spec, node, args) == Success(t)
    requires Above(p, node)
    ensures Above(p, t)
    decreases |args|
  {
    if args != [] {
      var arg := args[0];
      if StartsWith(arg, "-") {
        var o := FindOption(spec.options, arg).value;
        var (val, rest) := TakeValue(o, args[1..]);
        ResolveKeepsAncestors(spec, node.(optionsParsed := Store(node.optionsParsed, o, val)), rest, t, p);
      } else {
        match FindSubcommand(node.spec.subcommands, arg)
        case Some(sub) =>
          ResolveKeepsAncestors(spec, ChildNode(node, sub), args[1..], t, p);
        case None =>
          ResolveKeepsAncestors(spec, node.(argumentsParsed := node.argumentsParsed + [arg]), args[1..], t, p);
      }
    }
  }

  /**
   * A node left by a subcommand transition reaches the result unchanged, as
   * an ancestor of the tail: later option tokens never touch its options,
   * later words never touch its positionals.
   */
  lemma LeftNodeIsFrozen(spec: CommandSpec, node: CommandParsedSpec, args: seq<string>, t: CommandParsedSpec)
    requires args != [] && !StartsWith(args[0], "-") && FindSubcommand(node.spec.subcommands, args[0]).Some?
    requires ResolveFrom(spec, node, args) == Success(t)
    ensures Above(node, t)
  {
    var child := ChildNode(node, FindSubcommand(node.spec.subcommands, args[0]).value);
    ResolveKeepsAncestors(spec, child, args[1..], t, node);
  }

  /**
   * Inheritance: the tail's options are every option occurrence of the
   * remaining vector applied in order to the current node's options, whatever
   * subcommands are crossed on the way; and a successful pass met no unknown
   * option token.
   */
  lemma {:induction false} ResolveAppliesEveryOption(spec: CommandSpec, node: CommandParsedSpec, args: seq<string>, t: CommandParsedSpec)
    requires ResolveFrom(spec, node, args) == Success(t)
    ensures AllKnown(Scan(spec.options, args))
    ensures t.optionsParsed == ApplyOptions(node.optionsParsed, Scan(spec.options, args))
    decreases |args|
  {
    if args != [] {
      var arg := args[0];
      var toks := Scan(spec.options, args);
      if StartsWith(arg, "-") {
        var o := FindOption(spec.options, arg).value;
        var (val, rest) := TakeValue(o, args[1..]);
        var next := node.(optionsParsed := Store(node.optionsParsed, o, val));
        ResolveAppliesEveryOption(spec, next, rest, t);
        assert toks == [OptionUse(o, val)] + Scan(spec.options, rest);
        assert toks[1..] == Scan(spec.options, rest);
      } else {
        assert toks == [Word(arg)] + Scan(spec.options, args[1..]);
        assert toks[1..] == Scan(spec.options, args[1..]);
        match FindSubcommand(node.spec.subcommands, arg)
        case Some(sub) =>
          ResolveAppliesEveryOption(spec, ChildNode(node, sub), args[1..], t);
        case None =>
          ResolveAppliesEveryOption(spec, node.(argumentsParsed := node.argumentsParsed + [arg]), args[1..], t);
      }
    }
  }

  /**
   * No word is lost or reordered: the words of the vector are exactly the
   * new positionals and subcommand names along the chain, in order.
   */
  lemma {:induction false} ResolveConsumesEveryWord(spec: CommandSpec, node: CommandParsedSpec, args: seq<string>, t: CommandParsedSpec)
    requires ResolveFrom(spec, node, args) == Success(t)
    ensures Trace(t) == Trace(node) + Words(Scan(spec.options, args))
    decreases |args|, 1
  {
    if args != [] {
      var arg := args[0];
      if StartsWith(arg, "-") {
        var o := FindOption(spec.options, arg).value;
        var (val, rest) := TakeValue(o, args[1..]);
        var next := node.(optionsParsed := Store(node.optionsParsed, o, val));
        ScanOptionStep(spec.options, args);
        ResolveConsumesEveryWord(spec, next, rest, t);
        assert Trace(next) == Trace(node);
      } else if FindSubcommand(node.spec.subcommands, arg).Some? {
        SubcommandWordConsumed(spec, node, args, t);
      } else {
        PositionalWordConsumed(spec, node, args, t);
      }
    }
  }

  /** The word case of ResolveConsumesEveryWord, when the word names a subcommand: it is the child's name in the trace. */
  lemma {:induction false} SubcommandWordConsumed(spec: CommandSpec, node: CommandParsedSpec, args: seq<string>, t: CommandParsedSpec)
    requires args != [] && !StartsWith(args[0], "-") && FindSubcommand(node.spec.subcommands, args[0]).Some?
    requires ResolveFrom(spec, node, args) == Success(t)
    ensures Trace(t) == Trace(node) + Words(Scan(spec.options, args))
    decreases |args|, 0
  {
    var sub := FindSubcommand(node.spec.subcommands, args[0]).value;
    ScanWordStep(spec.options, args);
    ResolveConsumesEveryWord(spec, ChildNode(node, sub), args[1..], t);
    assert Trace(ChildNode(node, sub)) == Trace(node) + [args[0]];
    assert Trace(node) + [args[0]] + Words(Scan(spec.options, args[1..])) == Trace(node) + ([args[0]] + Words(Scan(spec.options, args[1..])));
  }

  /** The word case of ResolveConsumesEveryWord, when the word fills a positional slot: it is the node's next positional. */
  lemma {:induction false} PositionalWordConsumed(spec: CommandSpec, node: CommandParsedSpec, args: seq<string>, t: CommandParsedSpec)
    requires args != [] && !StartsWith(args[0], "-") && FindSubcommand(node.spec.subcommands, args[0]).None?
    requires ResolveFrom(spec, node, args) == Success(t)
    ensures Trace(t) == Trace(node) + Words(Scan(spec.options, args))
    decreases |args|, 0
  {
    var next := node.(argumentsParsed := node.argumentsParsed + [args[0]]);
    ScanWordStep(spec.options, args);
    ResolveConsumesEveryWord(spec, next, args[1..], t);
    assert Trace(next) == Trace(node) + [args[0]];
    assert Trace(node) + [args[0]] + Words(Scan(spec.options, args[1..])) == Trace(node) + ([args[0]] + Words(Scan(spec.options, args[1..])));
  }

  /**
   * A token that starts with `-` is an option wherever it stands in the
   * vector, even when it is also the name of a subcommand or a positional slot
   * is free. It fails with "Not implemented yet" exactly when the top-level
   * spec declares no such alias (an option declared only on a subcommand is
   * rejected). Otherwise the first top-level option naming it is stored into
   * the current node, which keeps its parent, spec, path and positionals, and
   * the pass goes on after the option's value.
   */
  lemma OptionTokenNeverTransitions(spec: CommandSpec, node: CommandParsedSpec, tok: string, rest: seq<string>)
    requires StartsWith(tok, "-")
    ensures (forall o :: o in spec.options ==> tok !in o.aliases) ==>
      ResolveFrom(spec, node, [tok] + rest) == Failure(NotImplemented)
    ensures (exists o :: o in spec.options && tok in o.aliases) ==>
      && FindOption(spec.options, tok).Some?
      && var o := FindOption(spec.options, tok).value;
         var (val, after) := TakeValue(o, rest);
         && after == (if o.IsBoolean() then rest else if rest == [] then [] else rest[1..])
         && ResolveFrom(spec, node, [tok] + rest)
              == ResolveFrom(spec, node.(optionsParsed := Store(node.optionsParsed, o, val)), after)
  {
    var args := [tok] + rest;
    assert args[0] == tok && args[1..] == rest;
    var found := FindOption(spec.options, tok);
    if found.None? {
      assert forall o :: o in spec.options ==> tok !in o.aliases by {
        forall o | o in spec.options ensures tok !in o.aliases {
          var i :| 0 <= i < |spec.options| && spec.options[i] == o;
        }
      }
    }
  }

  /**
   * A word that names a subcommand of the current node moves to the first
   * such child, wherever the word stands and however many positional slots
   * are still free; the pass goes on from the child.
   */
  lemma SubcommandBeatsPositional(spec: CommandSpec, node: CommandParsedSpec, tok: string, rest: seq<string>, sub: CommandSpec)
    requires !StartsWith(tok, "-")
    requires sub in node.spec.subcommands && sub.name == tok
    ensures FindSubcommand(node.spec.subcommands, tok).Some?
    ensures var c := FindSubcommand(node.spec.subcommands, tok).value;
      && c.name == tok
      && ResolveFrom(spec, node, [tok] + rest) == ResolveFrom(spec, ChildNode(node, c), rest)
  {
    var args := [tok] + rest;
    assert args[0] == tok && args[1..] == rest;
    var i :| 0 <= i < |node.spec.subcommands| && node.spec.subcommands[i] == sub;
  }

  /**
   * A word that is neither a subcommand of the current node nor fits a free
   * slot fails at once with the current path and the word in the message,
   * whatever follows it.
   */
  lemma UnmatchedWordFails(spec: CommandSpec, node: CommandParsedSpec, tok: string, rest: seq<string>)
    requires !StartsWith(tok, "-")
    requires forall i :: 0 <= i < |node.spec.subcommands| ==> node.spec.subcommands[i].name != tok
    requires |node.argumentsParsed| >= |node.spec.arguments|
    ensures ResolveFrom(spec, node, [tok] + rest) == Failure(CommandNotFound(node.commandPath, tok))
    ensures ErrorMessage(ResolveFrom(spec, node, [tok] + rest).error)
      == Join(node.commandPath, " ") + " " + tok + ": Is not valid command. See " + Join(node.commandPath, " ") + " --help"
  {
    var args := [tok] + rest;
    assert args[0] == tok;
  }

  /**
   * A word with no subcommand of that name fills the next free slot of the
   * current node, and the pass goes on with the words after it.
   */
  lemma WordFillsFreeSlot(spec: CommandSpec, node: CommandParsedSpec, tok: string, rest: seq<string>)
    requires !StartsWith(tok, "-")
    requires forall i :: 0 <= i < |node.spec.subcommands| ==> node.spec.subcommands[i].name != tok
    requires |node.argumentsParsed| < |node.spec.arguments|
    ensures ResolveFrom(spec, node, [tok] + rest)
      == ResolveFrom(spec, node.(argumentsParsed := node.argumentsParsed + [tok]), rest)
  {
    var args := [tok] + rest;
    assert args[0] == tok && args[1..] == rest;
  }
}
