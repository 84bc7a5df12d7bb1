/**
 * A reference reading of an argument vector that looks only at the top-level
 * option declarations: which tokens are option occurrences (with the value
 * each one takes) and which are plain words. Both resolvers look options up on
 * the top-level spec, so this split does not depend on the subcommand a token
 * is met under; the resolver theorems are stated against it.
 */
module ArgvScan {
  import opened Wrappers
  import opened JsString
  import opened Schemas
  import opened Resolver

  datatype Token =
    | OptionUse(option: OptionSpec, value: Value)
    | UnknownOption(arg: string)
    | Word(arg: string)

  function Scan(options: seq<OptionSpec>, args: seq<string>): seq<Token>
    decreases |args|
  {
    if args == [] then []
    else if StartsWith(args[0], "-") then
      match FindOption(options, args[0])
      case None => [UnknownOption(args[0])] + Scan(options, args[1..])
      case Some(o) =>
        var (val, rest) := TakeValue(o, args[1..]);
        [OptionUse(o, val)] + Scan(options, rest)
    else
      [Word(args[0])] + Scan(options, args[1..])
  }

  /** The plain words, in order. */
  function Words(toks: seq<Token>): seq<string>
    decreases |toks|
  {
    if toks == [] then []
    else (if toks[0].Word? then [toks[0].arg] else []) + Words(toks[1..])
  }

  /** One option occurrence: it is the first token, and it adds no word. */
  lemma ScanOptionStep(options: seq<OptionSpec>, args: seq<string>)
    requires args != [] && StartsWith(args[0], "-") && FindOption(options, args[0]).Some?
    ensures var o := FindOption(options, args[0]).value;
      var (val, rest) := TakeValue(o, args[1..]);
      && Scan(options, args) == [OptionUse(o, val)] + Scan(options, rest)
      && Words(Scan(options, args)) == Words(Scan(options, rest))
  {
    var o := FindOption(options, args[0]).value;
    var (val, rest) := TakeValue(o, args[1..]);
    var toks := Scan(options, args);
    assert toks[1..] == Scan(options, rest);
  }

  /** One plain word: it is the first token and the first word. */
  lemma ScanWordStep(options: seq<OptionSpec>, args: seq<string>)
    requires args != [] && !StartsWith(args[0], "-")
    ensures Scan(options, args) == [Word(args[0])] + Scan(options, args[1..])
    ensures Words(Scan(options, args)) == [args[0]] + Words(Scan(options, args[1..]))
  {
    var toks := Scan(options, args);
    assert toks[1..] == Scan(options, args[1..]);
  }

  predicate AllKnown(toks: seq<Token>) {
    forall i :: 0 <= i < |toks| ==> !toks[i].UnknownOption?
  }

  /** A subcommand transition word of the prototype, whose subcommands are always the top-level ones. */
  predicate IsTransition(subcommands: seq<CommandSpec>, t: Token) {
    t.Word? && FindSubcommand(subcommands, t.arg).Some?
  }

  /**
   * Whether `toks` holds a transition word, and the tokens after the last one
   * (all of `toks` when there is none).
   */
  function AfterLastTransition(subcommands: seq<CommandSpec>, toks: seq<Token>): (r: (bool, seq<Token>))
    ensures |r.1| <= |toks|
    decreases |toks|
  {
    if toks == [] then (false, [])
    else
      var tail := AfterLastTransition(subcommands, toks[1..]);
      if tail.0 then tail
      else if IsTransition(subcommands, toks[0]) then (true, toks[1..])
      else (false, toks)
  }
}
