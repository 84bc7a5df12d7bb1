/**
 * The token resolver of src/command-spec.ts (`parseArgs`): one left-to-right
 * pass over the argument vector that builds the parent-linked chain of parsed
 * nodes, and the two errors it raises.
 *
 * `ResolveFrom` is the reference definition of the pass; `ParseArgs` is the
 * loop the source runs, proved equal to it.
 */
module Resolver {
  import opened Wrappers
  import opened JsString
  import opened Schemas

  datatype ParseError =
    /** `new Error("Not implemented yet")`: an option token that no top-level option declares. */
    | NotImplemented
    /** `CommandNotFoundError`: no subcommand and no free positional slot for `notFoundArg`. */
    | CommandNotFound(commandPath: seq<string>, notFoundArg: string)

  function NotFoundMessage(commandPath: seq<string>, notFoundArg: string): string {
    Join(commandPath, " ") + " " + notFoundArg + ": Is not valid command. See "
      + Join(commandPath, " ") + " --help"
  }

  function ErrorMessage(e: ParseError): string {
    match e
    case NotImplemented => "Not implemented yet"
    case CommandNotFound(path, arg) => NotFoundMessage(path, arg)
  }

  /** `spec.options?.find((o) => o.aliases.includes(arg))`: the first option that has `arg` among its aliases. */
  function FindOption(options: seq<OptionSpec>, arg: string): (r: Option<OptionSpec>)
    ensures r.Some? ==> r.value in options && arg in r.value.aliases
    ensures r.None? <==> forall i :: 0 <= i < |options| ==> arg !in options[i].aliases
    ensures r.Some? ==> exists i :: 0 <= i < |options| && options[i] == r.value && forall j :: 0 <= j < i ==> arg !in options[j].aliases
  {
    Find(options, (o: OptionSpec) => arg in o.aliases)
  }

  /** `spec.subcommands?.find((s) => s.name === arg)`: the first subcommand named `arg`. */
  function FindSubcommand(subcommands: seq<CommandSpec>, arg: string): (r: Option<CommandSpec>)
    ensures r.Some? ==> r.value in subcommands && r.value.name == arg
    ensures r.None? <==> forall i :: 0 <= i < |subcommands| ==> subcommands[i].name != arg
    ensures r.Some? ==> exists i :: 0 <= i < |subcommands| && subcommands[i] == r.value && forall j :: 0 <= j < i ==> subcommands[j].name != arg
  {
    Find(subcommands, (c: CommandSpec) => c.name == arg)
  }

  /** The storage key of an alias: two characters dropped after `--`, one otherwise. */
  function StripPrefix(name: string): string {
    Substring(name, if StartsWith(name, "--") then 2 else 1)
  }

  /** `Array.isArray(a) ? a : []` for the value stored under `key`. */
  function PriorValues(m: OptionsParsed, key: string): seq<Value> {
    if key in m && m[key].Many? then m[key].values else []
  }

  /** One write `optionsParsed[key] = ...` of option `o` with value `val`. */
  function StoreOne(m: OptionsParsed, key: string, o: OptionSpec, val: Value): OptionsParsed {
    m[key := if o.IsMultiple() then Many(PriorValues(m, key) + [val]) else Single(val)]
  }

  /** The writes for the aliases `names`, in order (the `for (const name of aliases)` loop). */
  function StoreUnder(m: OptionsParsed, names: seq<string>, o: OptionSpec, val: Value): OptionsParsed
    decreases |names|
  {
    if names == [] then m
    else StoreOne(StoreUnder(m, names[..|names| - 1], o, val), StripPrefix(names[|names| - 1]), o, val)
  }

  /** What one occurrence of option `o` does to the current node's options. */
  function Store(m: OptionsParsed, o: OptionSpec, val: Value): OptionsParsed {
    StoreUnder(m, o.aliases, o, val)
  }

  function RootNode(spec: CommandSpec): CommandParsedSpec {
    CommandParsedSpec(None, spec, [spec.name], map[], [])
  }

  /** `subcommandFlow`: the child starts with a copy of the parent's options and no arguments. */
  function ChildNode(parent: CommandParsedSpec, sub: CommandSpec): CommandParsedSpec {
    CommandParsedSpec(Some(parent), sub, parent.commandPath + [sub.name], parent.optionsParsed, [])
  }

  /**
   * The value of an option and the tokens left after it: `true` for a flag;
   * otherwise the next token, taken unconditionally, or `undefined` at the end.
   */
  function TakeValue(o: OptionSpec, rest: seq<string>): (r: (Value, seq<string>))
    ensures |r.1| <= |rest|
  {
    if o.IsBoolean() then (True, rest)
    else if |rest| > 0 then (Text(Some(rest[0])), rest[1..])
    else (Text(None), [])
  }

  /** The pass over `args` from the current node `node`; `spec` is the top-level spec. */
  function ResolveFrom(spec: CommandSpec, node: CommandParsedSpec, args: seq<string>): Result<CommandParsedSpec, ParseError>
    decreases |args|
  {
    if args == [] then Success(node)
    else
      var arg := args[0];
      if StartsWith(arg, "-") then
        match FindOption(spec.options, arg)
        case None => Failure(NotImplemented)
        case Some(o) =>
          var (val, rest) := TakeValue(o, args[1..]);
          ResolveFrom(spec, node.(optionsParsed := Store(node.optionsParsed, o, val)), rest)
      else
        match FindSubcommand(node.spec.subcommands, arg)
        case Some(sub) => ResolveFrom(spec, ChildNode(node, sub), args[1..])
        case None =>
          if |node.argumentsParsed| < |node.spec.arguments| then
            ResolveFrom(spec, node.(argumentsParsed := node.argumentsParsed + [arg]), args[1..])
          else
            Failure(CommandNotFound(node.commandPath, arg))
  }

  /** `parseArgs(spec, args).commandParsedSpec`, or the error it throws. */
  function Resolve(spec: CommandSpec, args: seq<string>): Result<CommandParsedSpec, ParseError> {
    ResolveFrom(spec, RootNode(spec), args)
  }

  /** `optionFlow`'s write loop: the value goes under every alias's storage key, in order. */
  method StoreOption(m: OptionsParsed, o: OptionSpec, val: Value) returns (opts: OptionsParsed)
    ensures opts == Store(m, o, val)
  {
    opts := m;
    var j := 0;
    while j < |o.aliases|
      invariant 0 <= j <= |o.aliases|
      invariant opts == StoreUnder(m, o.aliases[..j], o, val)
    {
      var key := StripPrefix(o.aliases[j]);
      if o.IsMultiple() {
        var prior := if key in opts && opts[key].Many? then opts[key].values else [];
        opts := opts[key := Many(prior + [val])];
      } else {
        opts := opts[key := Single(val)];
      }
      assert o.aliases[..j + 1][..j] == o.aliases[..j];
      j := j + 1;
    }
    assert o.aliases[..j] == o.aliases;
  }

  /** `parseArgs`: the iterator-driven loop over `args`, reassigning the current node. */
  method ParseArgs(spec: CommandSpec, args: seq<string>) returns (r: Result<CommandParsedSpec, ParseError>)
    ensures r == Resolve(spec, args)
  {
    var node := RootNode(spec);
    var i := 0;
    while i < |args|
      invariant 0 <= i <= |args|
      invariant ResolveFrom(spec, node, args[i..]) == Resolve(spec, args)
      decreases |args| - i
    {
      ghost var before := args[i..];
      var arg := args[i];
      i := i + 1;
      assert before[0] == arg && before[1..] == args[i..];
      if StartsWith(arg, "-") {
        var found := FindOption(spec.options, arg);
        if found.None? {
          return Failure(NotImplemented);
        }
        var o := found.value;
        var val: Value;
        if o.IsBoolean() {
          val := True;
        } else if i < |args| {
          val := Text(Some(args[i]));
          assert args[i..][1..] == args[i + 1..];
          i := i + 1;
        } else {
          val := Text(None);
        }
        assert TakeValue(o, before[1..]) == (val, args[i..]);
        var opts := StoreOption(node.optionsParsed, o, val);
        node := node.(optionsParsed := opts);
      } else {
        var sub := FindSubcommand(node.spec.subcommands, arg);
        if sub.Some? {
          node := ChildNode(node, sub.value);
        } else if |node.argumentsParsed| < |node.spec.arguments| {
          node := node.(argumentsParsed := node.argumentsParsed + [arg]);
        } else {
          return Failure(CommandNotFound(node.commandPath, arg));
        }
      }
    }
    r := Success(node);
  }
}
