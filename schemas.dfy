/**
 * The shapes of src/schemas/command-spec.ts: the command tree an author
 * declares, and the parsed-node chain the resolver builds.
 *
 * The optional lists of a command (`options?`, `arguments?`, `subcommands?`)
 * are plain sequences, an absent list being the empty one: everything in the
 * core reads them through `?.` or `?? default`, which treats the two alike.
 */
module Schemas {
  import opened Wrappers
  import opened JsString

  /** A reference to a handler. What a handler does is outside the model. */
  type HandlerRef = nat

  datatype SingleArgumentSpec = SingleArgumentSpec(name: string, description: Option<string>)

  datatype ArgumentSpec = ArgumentSpec(name: string, description: Option<string>, multiple: Option<bool>)

  datatype OptionSpec = OptionSpec(
    name: string,
    aliases: seq<string>,
    description: Option<string>,
    multiple: Option<bool>,
    argument: Option<SingleArgumentSpec>)
  {
    /** `optionSpec.multiple` is truthy. */
    predicate IsMultiple() { multiple == Some(true) }

    /** `!optionSpec.argument`: the option is a flag and takes no value. */
    predicate IsBoolean() { argument.None? }
  }

  datatype CommandSpec = CommandSpec(
    name: string,
    description: Option<string>,
    options: seq<OptionSpec>,
    arguments: seq<ArgumentSpec>,
    subcommands: seq<CommandSpec>,
    handler: Option<HandlerRef>)

  /** A parsed option value: the literal `true`, or what the iterator gave (a string or `undefined`). */
  datatype Value = True | Text(text: Option<string>)

  /** What `optionsParsed` holds under one key: a single value, or the array of a `multiple` option. */
  datatype Stored = Single(value: Value) | Many(values: seq<Value>)

  type OptionsParsed = map<string, Stored>

  /** One node of the parsed chain; `parent` is absent only at the root. */
  datatype CommandParsedSpec = CommandParsedSpec(
    parent: Option<CommandParsedSpec>,
    spec: CommandSpec,
    commandPath: seq<string>,
    optionsParsed: OptionsParsed,
    argumentsParsed: seq<string>)

  /** `spec.arguments?.map((m) => m.name)`. */
  function ArgumentNames(args: seq<ArgumentSpec>): seq<string> {
    Map(args, (a: ArgumentSpec) => a.name)
  }

  /** The number of ancestors of a parsed node. */
  function Depth(n: CommandParsedSpec): nat
    decreases n
  {
    match n.parent
    case None => 0
    case Some(p) => 1 + Depth(p)
  }

  /** JavaScript truthiness of an optional string. */
  predicate Truthy(d: Option<string>) {
    d.Some? && d.value != ""
  }

  /** `\w` in a regular expression without the `u` flag. */
  predicate IsWordChar(c: char) {
    ('a' <= c <= 'z') || ('A' <= c <= 'Z') || ('0' <= c <= '9') || c == '_'
  }

  /** `/^--[\w-]+$/`. */
  predicate IsLongAlias(a: string) {
    |a| >= 3 && a[..2] == "--" && forall i :: 2 <= i < |a| ==> IsWordChar(a[i]) || a[i] == '-'
  }

  /** `/^-\w$/` with length 2. */
  predicate IsShortAlias(a: string) {
    |a| == 2 && a[0] == '-' && IsWordChar(a[1])
  }

  predicate ValidAlias(a: string) {
    IsLongAlias(a) || IsShortAlias(a)
  }

  /** The `OptionSpec` schema: at least one alias, each a long or a short form. */
  predicate ValidOptionSpec(o: OptionSpec) {
    |o.aliases| >= 1 && forall i :: 0 <= i < |o.aliases| ==> ValidAlias(o.aliases[i])
  }

  /** The `CommandSpec` schema, recursively through the subcommands. */
  predicate ValidCommandSpec(c: CommandSpec)
    decreases c
  {
    && (forall i :: 0 <= i < |c.options| ==> ValidOptionSpec(c.options[i]))
    && (forall i :: 0 <= i < |c.subcommands| ==> ValidCommandSpec(c.subcommands[i]))
  }

  /** Every valid alias starts with `-`, so it is always read as an option token. */
  lemma ValidAliasForms(a: string)
    requires ValidAlias(a)
    ensures StartsWith(a, "-")
    ensures IsLongAlias(a) <==> StartsWith(a, "--")
    ensures IsShortAlias(a) <==> |a| == 2
  {
    if IsShortAlias(a) {
      assert a[..1] == [a[0]];
      assert a[1] != '-';
      assert a[..2] != "--";
    } else {
      assert a[..1] == a[..2][..1];
    }
  }

  /** The rejections the schema is written for: `-ab`, a bare `--`, a bare `-`, a word. */
  lemma RejectedAliases()
    ensures !ValidAlias("-ab") && !ValidAlias("--") && !ValidAlias("-") && !ValidAlias("abc")
    ensures ValidAlias("--abc") && ValidAlias("-a") && ValidAlias("--dry-run")
  {
    assert "-ab"[..2] == "-a";
    assert "abc"[..2] == "ab";
    assert "--abc"[..2] == "--";
    assert "--dry-run"[..2] == "--";
  }

  /** An option spec with no alias is never valid. */
  lemma ValidOptionNeedsAlias(o: OptionSpec)
    requires o.aliases == []
    ensures !ValidOptionSpec(o)
  {
  }
}
