/**
 * The validator of src/command-spec.ts: `createSchemaValidation`, which builds
 * the option and argument schemas of a parsed node, and the `validate` closure
 * of `parseArgs`, which applies the argument schema and raises
 * `MissingArgumentError`. The zod schemas are abstract: a field is a string or
 * the literal `true`, and the argument tuple is checked for arity.
 */
module Validator {
  import opened Wrappers
  import opened JsString
  import opened Schemas

  /** `z.string()` or `z.literal(true)`. */
  datatype FieldSchema = StringField | LiteralTrue

  /** The first issue zod reports for a tuple it rejects. */
  datatype TupleIssue =
    | TooSmall(minimum: nat, received: nat)
    | TooBig(maximum: nat, received: nat)
    | InvalidLiteral(index: nat)

  /** `optionSchema` (the shape of `z.object`) and `argumentsSchema` (the items of `z.tuple`). */
  datatype ValidationSchemas = ValidationSchemas(optionSchema: map<string, FieldSchema>, argumentsSchema: seq<FieldSchema>)

  datatype MissingArgumentError = MissingArgumentError(message: string, cause: TupleIssue)

  /** `optionSpec.argument ? z.string() : z.literal(true)`. */
  function FieldOf(o: OptionSpec): FieldSchema {
    if o.argument.Some? then StringField else LiteralTrue
  }

  /** The options the schema loop visits, in order: the node's own, then each ancestor's up to the root. */
  function ChainOptions(n: CommandParsedSpec): seq<OptionSpec>
    decreases n
  {
    n.spec.options + match n.parent
      case None => []
      case Some(p) => ChainOptions(p)
  }

  function ChainOptionsFrom(sel: Option<CommandParsedSpec>): seq<OptionSpec> {
    match sel
    case None => []
    case Some(n) => ChainOptions(n)
  }

  /** The writes `optionObjectSchema[optionSpec.name] = ...` for `opts`, in order. */
  function WriteFields(m: map<string, FieldSchema>, opts: seq<OptionSpec>): map<string, FieldSchema>
    decreases |opts|
  {
    if opts == [] then m
    else WriteFields(m[opts[0].name := FieldOf(opts[0])], opts[1..])
  }

  function Names(opts: seq<OptionSpec>): set<string> {
    set i | 0 <= i < |opts| :: opts[i].name
  }

  /**
   * `createSchemaValidation`: one string slot per argument declared on the
   * node's spec; the option schema collected over the node and every ancestor.
   */
  method CreateSchemaValidation(node: CommandParsedSpec) returns (schemas: ValidationSchemas)
    ensures |schemas.argumentsSchema| == |node.spec.arguments|
    ensures forall i :: 0 <= i < |schemas.argumentsSchema| ==> schemas.argumentsSchema[i] == StringField
    ensures schemas.optionSchema == WriteFields(map[], ChainOptions(node))
  {
    var argumentTupleSchema: seq<FieldSchema> := [];
    var i := 0;
    while i < |node.spec.arguments|
      invariant 0 <= i <= |node.spec.arguments|
      invariant |argumentTupleSchema| == i
      invariant forall j :: 0 <= j < i ==> argumentTupleSchema[j] == StringField
    {
      argumentTupleSchema := argumentTupleSchema + [StringField];
      i := i + 1;
    }

    var optionObjectSchema: map<string, FieldSchema> := map[];
    var sel := Some(node);
    while sel.Some?
      invariant WriteFields(optionObjectSchema, ChainOptionsFrom(sel)) == WriteFields(map[], ChainOptions(node))
      decreases if sel.Some? then 1 + Depth(sel.value) else 0
    {
      var cur := sel.value;
      assert cur.spec.options[0..] + ChainOptionsFrom(cur.parent) == ChainOptionsFrom(sel);
      var k := 0;
      while k < |cur.spec.options|
        invariant 0 <= k <= |cur.spec.options|
        invariant WriteFields(optionObjectSchema, cur.spec.options[k..] + ChainOptionsFrom(cur.parent))
          == WriteFields(map[], ChainOptions(node))
      {
        var o := cur.spec.options[k];
        ghost var rest := cur.spec.options[k..] + ChainOptionsFrom(cur.parent);
        assert rest[0] == o && rest[1..] == cur.spec.options[k + 1..] + ChainOptionsFrom(cur.parent);
        optionObjectSchema := optionObjectSchema[o.name := if o.argument.Some? then StringField else LiteralTrue];
        k := k + 1;
      }
      assert cur.spec.options[k..] + ChainOptionsFrom(cur.parent) == ChainOptionsFrom(cur.parent);
      sel := cur.parent;
    }
    schemas := ValidationSchemas(optionObjectSchema, argumentTupleSchema);
  }

  /**
   * `z.tuple(items).safeParse(values)` for string values. The `InvalidLiteral`
   * branch generalises zod's behaviour to a `literal(true)` slot; the core
   * builds only string slots, so it never reaches that branch.
   */
  function SafeParseTuple(items: seq<FieldSchema>, values: seq<string>): Result<seq<string>, TupleIssue> {
    if |values| < |items| then Failure(TooSmall(|items|, |values|))
    else if |values| > |items| then Failure(TooBig(|items|, |values|))
    else match FindIndex(items, (f: FieldSchema) => f == LiteralTrue, 0)
      case Some(i) => Failure(InvalidLiteral(i))
      case None => Success(values)
  }

  /** The `MissingArgumentError` constructor: the "Missing" message only for a too-small tuple. */
  function NewMissingArgumentError(issue: TupleIssue, node: CommandParsedSpec): MissingArgumentError {
    MissingArgumentError(
      if issue.TooSmall? then "Missing " + Join(ArgumentNames(node.spec.arguments), ", ") + " argument"
      else "unknow error",
      issue)
  }

  /** The outcome of `validate()` for `node`. */
  function ValidationOf(node: CommandParsedSpec): Result<seq<string>, MissingArgumentError> {
    var items := seq(|node.spec.arguments|, _ => StringField);
    match SafeParseTuple(items, node.argumentsParsed)
    case Success(v) => Success(v)
    case Failure(issue) => Failure(NewMissingArgumentError(issue, node))
  }

  /** The `validate` closure: build the schemas, parse the positionals with the tuple. */
  method Validate(node: CommandParsedSpec) returns (r: Result<seq<string>, MissingArgumentError>)
    ensures r == ValidationOf(node)
  {
    var schemas := CreateSchemaValidation(node);
    assert schemas.argumentsSchema == seq(|node.spec.arguments|, _ => StringField);
    var parsed := SafeParseTuple(schemas.argumentsSchema, node.argumentsParsed);
    if parsed.Failure? {
      return Failure(NewMissingArgumentError(parsed.error, node));
    }
    return Success(parsed.value);
  }

  /**
   * `validate()` succeeds exactly when the node holds as many positionals as
   * its spec declares, returning them; too few raises "Missing <all declared
   * names joined by ', '> argument" with the too-small issue as cause; too many
   * keeps the message "unknow error".
   */
  lemma ValidationOutcome(node: CommandParsedSpec)
    ensures ValidationOf(node).Success? <==> |node.argumentsParsed| == |node.spec.arguments|
    ensures ValidationOf(node).Success? ==> ValidationOf(node).value == node.argumentsParsed
    ensures |node.argumentsParsed| < |node.spec.arguments| ==>
      ValidationOf(node) == Failure(MissingArgumentError(
        "Missing " + Join(ArgumentNames(node.spec.arguments), ", ") + " argument",
        TooSmall(|node.spec.arguments|, |node.argumentsParsed|)))
    ensures |node.argumentsParsed| > |node.spec.arguments| ==>
      ValidationOf(node).Failure? && ValidationOf(node).error.message == "unknow error"
  {
    var items := seq(|node.spec.arguments|, _ => StringField);
    assert forall i :: 0 <= i < |items| ==> items[i] == StringField;
  }

  /** The set of keys of `WriteFields` is the starting keys plus every option name written. */
  lemma {:induction false} WriteFieldsKeys(m: map<string, FieldSchema>, opts: seq<OptionSpec>)
    ensures WriteFields(m, opts).Keys == m.Keys + Names(opts)
    decreases |opts|
  {
    if opts != [] {
      WriteFieldsKeys(m[opts[0].name := FieldOf(opts[0])], opts[1..]);
      assert Names(opts) == {opts[0].name} + Names(opts[1..]) by {
        forall k | k in Names(opts) ensures k in {opts[0].name} + Names(opts[1..]) {
          var i :| 0 <= i < |opts| && opts[i].name == k;
          if i > 0 { assert opts[1..][i - 1] == opts[i]; }
        }
        forall k | k in Names(opts[1..]) ensures k in Names(opts) {
          var i :| 0 <= i < |opts[1..]| && opts[1..][i].name == k;
          assert opts[i + 1] == opts[1..][i];
        }
      }
    }
  }

  /** The last write of a name wins: its entry is the field of the last option of that name. */
  lemma {:induction false} WriteFieldsLastWins(m: map<string, FieldSchema>, opts: seq<OptionSpec>, j: nat)
    requires j < |opts|
    requires forall i :: j < i < |opts| ==> opts[i].name != opts[j].name
    ensures opts[j].name in WriteFields(m, opts)
    ensures WriteFields(m, opts)[opts[j].name] == FieldOf(opts[j])
    decreases |opts|
  {
    var m' := m[opts[0].name := FieldOf(opts[0])];
    if j == 0 {
      WriteFieldsUntouched(m', opts[1..], opts[0].name);
    } else {
      WriteFieldsLastWins(m', opts[1..], j - 1);
    }
  }

  /** A name no option writes keeps its entry. */
  lemma {:induction false} WriteFieldsUntouched(m: map<string, FieldSchema>, opts: seq<OptionSpec>, k: string)
    requires k in m
    requires forall i :: 0 <= i < |opts| ==> opts[i].name != k
    ensures k in WriteFields(m, opts) && WriteFields(m, opts)[k] == m[k]
    decreases |opts|
  {
    if opts != [] {
      WriteFieldsUntouched(m[opts[0].name := FieldOf(opts[0])], opts[1..], k);
    }
  }

  /** Once a name is among the later writes, what was written before it does not matter. */
  lemma {:induction false} WriteFieldsForgetsEarlier(m1: map<string, FieldSchema>, m2: map<string, FieldSchema>, opts: seq<OptionSpec>, k: string)
    requires k in Names(opts)
    ensures k in WriteFields(m1, opts) && k in WriteFields(m2, opts)
    ensures WriteFields(m1, opts)[k] == WriteFields(m2, opts)[k]
    decreases |opts|
  {
    var j :| 0 <= j < |opts| && opts[j].name == k;
    var last := LastIndexOf(opts, k, j);
    LastIndexExists(opts, k, j);
    WriteFieldsLastWins(m1, opts, last);
    WriteFieldsLastWins(m2, opts, last);
  }

  /** The last index holding an option named `k`, at or after `j`. */
  lemma {:induction false} LastIndexExists(opts: seq<OptionSpec>, k: string, j: nat)
    requires j < |opts| && opts[j].name == k
    ensures LastIndexOf(opts, k, j) < |opts| && opts[LastIndexOf(opts, k, j)].name == k
    ensures forall i :: LastIndexOf(opts, k, j) < i < |opts| ==> opts[i].name != k
    decreases |opts| - j
  {
    var next := FindIndex(opts, (o: OptionSpec) => o.name == k, j + 1);
    if next.Some? {
      LastIndexExists(opts, k, next.value);
    }
  }

  function LastIndexOf(opts: seq<OptionSpec>, k: string, j: nat): nat
    requires j < |opts|
    decreases |opts| - j
  {
    match FindIndex(opts, (o: OptionSpec) => o.name == k, j + 1)
    case None => j
    case Some(i) => LastIndexOf(opts, k, i)
  }

  lemma {:induction false} WriteFieldsAppend(m: map<string, FieldSchema>, a: seq<OptionSpec>, b: seq<OptionSpec>)
    ensures WriteFields(m, a + b) == WriteFields(WriteFields(m, a), b)
    decreases |a|
  {
    if a != [] {
      assert (a + b)[0] == a[0] && (a + b)[1..] == a[1..] + b;
      WriteFieldsAppend(m[a[0].name := FieldOf(a[0])], a[1..], b);
    } else {
      assert a + b == b;
    }
  }

  /**
   * The option schema of a node: keyed by option `name` (not by alias), over
   * the node and all its ancestors; where a name is declared both on a node
   * and on one of its ancestors, the ancestor's entry is the one kept.
   */
  lemma OptionSchemaShape(n: CommandParsedSpec)
    ensures WriteFields(map[], ChainOptions(n)).Keys == Names(ChainOptions(n))
    ensures n.parent.Some? ==> forall k :: k in Names(ChainOptions(n.parent.value)) ==>
      k in WriteFields(map[], ChainOptions(n)) && k in WriteFields(map[], ChainOptions(n.parent.value)) &&
      WriteFields(map[], ChainOptions(n))[k] == WriteFields(map[], ChainOptions(n.parent.value))[k]
  {
    WriteFieldsKeys(map[], ChainOptions(n));
    if n.parent.Some? {
      var p := n.parent.value;
      WriteFieldsAppend(map[], n.spec.options, ChainOptions(p));
      forall k | k in Names(ChainOptions(p))
        ensures k in WriteFields(map[], ChainOptions(n)) && k in WriteFields(map[], ChainOptions(p))
        ensures WriteFields(map[], ChainOptions(n))[k] == WriteFields(map[], ChainOptions(p))[k]
      {
        WriteFieldsForgetsEarlier(WriteFields(map[], n.spec.options), map[], ChainOptions(p), k);
      }
    }
  }

  /** Each option name maps to a string field when the option takes a value and to `true` for a flag. */
  lemma OptionSchemaFieldKinds(opts: seq<OptionSpec>, j: nat)
    requires j < |opts|
    requires forall i :: j < i < |opts| ==> opts[i].name != opts[j].name
    ensures opts[j].name in WriteFields(map[], opts)
    ensures WriteFields(map[], opts)[opts[j].name] == (if opts[j].IsBoolean() then LiteralTrue else StringField)
  {
    WriteFieldsLastWins(map[], opts, j);
  }
}
