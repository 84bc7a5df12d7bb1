/**
 * The earlier resolver and renderer of command-spec.ts at the top of the
 * repository. It shares the data shapes (its option `names` are the
 * `aliases` here) and the help text, but resolves differently: subcommands
 * and positional slots are always looked up on the top-level spec, a child
 * node starts with no options, and a `multiple` option spreads whatever is
 * stored under its key.
 */
module Prototype {
  import opened Wrappers
  import opened JsString
  import opened Schemas
  import opened Resolver
  import opened Help

  datatype ProtoError =
    /** `new Error("Not implemented yet")`: an option token that no top-level option names. */
    | NotImplemented
    /** The plain `Error` thrown for a token that is no subcommand and finds no free slot. */
    | NotValidCommand(commandPath: seq<string>, notFoundArg: string)
    /** The `TypeError` of spreading a stored `true` into an array. */
    | NotIterable

  function ProtoErrorMessage(e: ProtoError): Option<string> {
    match e
    case NotImplemented => Some("Not implemented yet")
    case NotValidCommand(path, arg) => Some(NotFoundMessage(path, arg))
    case NotIterable => None
  }

  /** The characters of a string, each as a one-character string value: what spreading a string yields. */
  function CharValues(s: string): (r: seq<Value>)
    ensures |r| == |s| && forall i :: 0 <= i < |s| ==> r[i] == Text(Some([s[i]]))
  {
    seq(|s|, i requires 0 <= i < |s| => Text(Some([s[i]])))
  }

  /** `[...(prior ?? []), val]`, where `prior` is what is stored under the key (if anything). */
  function Spread(prior: Option<Stored>, val: Value): Result<seq<Value>, ProtoError> {
    match prior
    case None => Success([val])
    case Some(Many(xs)) => Success(xs + [val])
    case Some(Single(True)) => Failure(NotIterable)
    case Some(Single(Text(None))) => Success([val])
    case Some(Single(Text(Some(s)))) => Success(CharValues(s) + [val])
  }

  function Lookup(m: OptionsParsed, key: string): Option<Stored> {
    if key in m then Some(m[key]) else None
  }

  /** One write `optionsParsed[key] = ...` of option `o` with value `val`. */
  function ProtoStoreOne(m: OptionsParsed, key: string, o: OptionSpec, val: Value): Result<OptionsParsed, ProtoError> {
    if o.IsMultiple() then
      match Spread(Lookup(m, key), val)
      case Failure(e) => Failure(e)
      case Success(xs) => Success(m[key := Many(xs)])
    else Success(m[key := Single(val)])
  }

  /** The writes for the names `names`, in order; a failing write stops the loop. */
  function ProtoStoreUnder(m: OptionsParsed, names: seq<string>, o: OptionSpec, val: Value): Result<OptionsParsed, ProtoError>
    decreases |names|
  {
    if names == [] then Success(m)
    else
      match ProtoStoreUnder(m, names[..|names| - 1], o, val)
      case Failure(e) => Failure(e)
      case Success(m1) => ProtoStoreOne(m1, StripPrefix(names[|names| - 1]), o, val)
  }

  function ProtoStore(m: OptionsParsed, o: OptionSpec, val: Value): Result<OptionsParsed, ProtoError> {
    ProtoStoreUnder(m, o.aliases, o, val)
  }

  /** `subcommandFlow`: the child starts with no options and no arguments. */
  function ProtoChild(parent: CommandParsedSpec, sub: CommandSpec): CommandParsedSpec {
    CommandParsedSpec(Some(parent), sub, parent.commandPath + [sub.name], map[], [])
  }

  /** The pass over `args` from the current node `node`; every lookup is on the top-level `spec`. */
  function ProtoResolveFrom(spec: CommandSpec, node: CommandParsedSpec, args: seq<string>): Result<CommandParsedSpec, ProtoError>
    decreases |args|
  {
    if args == [] then Success(node)
    else
      var arg := args[0];
      if StartsWith(arg, "-") then
        match FindOption(spec.options, arg)
        case None => Failure(ProtoError.NotImplemented)
        case Some(o) =>
          var (val, rest) := TakeValue(o, args[1..]);
          match ProtoStore(node.optionsParsed, o, val)
          case Failure(e) => Failure(e)
          case Success(m) => ProtoResolveFrom(spec, node.(optionsParsed := m), rest)
      else
        match FindSubcommand(spec.subcommands, arg)
        case Some(sub) => ProtoResolveFrom(spec, ProtoChild(node, sub), args[1..])
        case None =>
          if |node.argumentsParsed| < |spec.arguments| then
            ProtoResolveFrom(spec, node.(argumentsParsed := node.argumentsParsed + [arg]), args[1..])
          else
            Failure(NotValidCommand(node.commandPath, arg))
  }

  /** The prototype `parseArgs(spec, args)`: the tail node, or the error it throws. */
  function ProtoResolve(spec: CommandSpec, args: seq<string>): Result<CommandParsedSpec, ProtoError> {
    ProtoResolveFrom(spec, RootNode(spec), args)
  }

  /** `optionFlow`'s write loop. */
  method ProtoStoreOption(m: OptionsParsed, o: OptionSpec, val: Value) returns (r: Result<OptionsParsed, ProtoError>)
    ensures r == ProtoStore(m, o, val)
  {
    var opts := m;
    var j := 0;
    while j < |o.aliases|
      invariant 0 <= j <= |o.aliases|
      invariant ProtoStoreUnder(m, o.aliases[..j], o, val) == Success(opts)
    {
      var key := StripPrefix(o.aliases[j]);
      assert o.aliases[..j + 1][..j] == o.aliases[..j];
      if o.IsMultiple() {
        var spread := Spread(if key in opts then Some(opts[key]) else None, val);
        if spread.Failure? {
          assert ProtoStoreUnder(m, o.aliases[..j + 1], o, val) == Failure(spread.error);
          ProtoStoreFailurePersists(m, o.aliases, j + 1, o, val);
          return Failure(spread.error);
        }
        opts := opts[key := Many(spread.value)];
      } else {
        opts := opts[key := Single(val)];
      }
      j := j + 1;
    }
    assert o.aliases[..j] == o.aliases;
    return Success(opts);
  }

  /** Once a write fails, the remaining names do not undo it. */
  lemma {:induction false} ProtoStoreFailurePersists(m: OptionsParsed, names: seq<string>, k: nat, o: OptionSpec, val: Value)
    requires k <= |names|
    requires ProtoStoreUnder(m, names[..k], o, val).Failure?
    ensures ProtoStoreUnder(m, names, o, val) == ProtoStoreUnder(m, names[..k], o, val)
    decreases |names| - k
  {
    if k < |names| {
      assert names[..k + 1][..k] == names[..k];
      ProtoStoreFailurePersists(m, names, k + 1, o, val);
    } else {
      assert names[..k] == names;
    }
  }

  /** The prototype `parseArgs` loop. */
  method ProtoParseArgs(spec: CommandSpec, args: seq<string>) returns (r: Result<CommandParsedSpec, ProtoError>)
    ensures r == ProtoResolve(spec, args)
  {
    var node := RootNode(spec);
    var i := 0;
    while i < |args|
      invariant 0 <= i <= |args|
      invariant ProtoResolveFrom(spec, node, args[i..]) == ProtoResolve(spec, args)
      decreases |args| - i
    {
      ghost var before := args[i..];
      var arg := args[i];
      i := i + 1;
      assert before[0] == arg && before[1..] == args[i..];
      if StartsWith(arg, "-") {
        var found := FindOption(spec.options, arg);
        if found.None? {
          return Failure(ProtoError.NotImplemented);
        }
        var o := found.value;
        var val: Value;
        if o.IsBoolean() {
          val := True;
        } else if i < |args| {
          val := Text(Some(args[i]));
          assert args[i..][1..] == args[i + 1..];
          i := i + 1;
        } else {
          val := Text(None);
        }
        assert TakeValue(o, before[1..]) == (val, args[i..]);
        var stored := ProtoStoreOption(node.optionsParsed, o, val);
        if stored.Failure? {
          return Failure(stored.error);
        }
        node := node.(optionsParsed := stored.value);
      } else {
        var sub := FindSubcommand(spec.subcommands, arg);
        if sub.Some? {
          node := ProtoChild(node, sub.value);
        } else if |node.argumentsParsed| < |spec.arguments| {
          node := node.(argumentsParsed := node.argumentsParsed + [arg]);
        } else {
          return Failure(NotValidCommand(node.commandPath, arg));
        }
      }
    }
    r := Success(node);
  }

  /** The prototype `buildHelpDialog`: the same renderer over the node its `parseArgs` selects. */
  function ProtoBuildHelpDialog(spec: CommandSpec, args: seq<string>): Result<seq<string>, ProtoError> {
    match ProtoResolve(spec, args)
    case Failure(e) => Failure(e)
    case Success(t) => Success(SelectHelpDialog(Some(t.spec), t.commandPath))
  }

  /** `buildCommandSpec`: not implemented; every call rejects with "No implemented yet". */
  function BuildCommandSpec(spec: CommandSpec, args: seq<string>): (r: Result<(), string>)
    ensures r.Failure? && r.error == "No implemented yet"
  {
    Failure("No implemented yet")
  }
}
