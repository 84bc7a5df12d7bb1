/**
 * `bindArgs` of src/command-spec.ts: resolve the vector, start the validation
 * without waiting for it, and call the selected command's handler with the
 * positionals, the options and the parsed node. The handler itself is opaque
 * code of the embedding program; the model returns the call it would receive.
 */
module Dispatcher {
  import opened Wrappers
  import opened JsString
  import opened Schemas
  import opened Resolver
  import opened Validator
  import ResolverProps

  /** The handler call `bindArgs` makes, if the selected spec has a handler. */
  datatype Dispatch =
    | NoHandler
    | Invoke(handler: HandlerRef, arguments: seq<string>, options: OptionsParsed, parsed: CommandParsedSpec)

  /** What `bindArgs` settles with: the handler call, beside the outcome of the validation it started but did not await. */
  datatype Binding = Binding(dispatch: Dispatch, validation: Result<seq<string>, MissingArgumentError>)

  /**
   * `bindArgs(spec, args)`: a resolution error rejects the call; otherwise the
   * handler of the selected node's spec (if any) receives that node's
   * positionals, options and the node itself, whatever the validation says.
   */
  method BindArgs(spec: CommandSpec, args: seq<string>) returns (r: Result<Binding, ParseError>)
    ensures r.Failure? <==> Resolve(spec, args).Failure?
    ensures r.Failure? ==> r.error == Resolve(spec, args).error
    ensures r.Success? ==> r.value.validation == ValidationOf(Resolve(spec, args).value)
    ensures r.Success? ==> (r.value.dispatch.Invoke? <==> Resolve(spec, args).value.spec.handler.Some?)
    ensures r.Success? && r.value.dispatch.Invoke? ==>
      var t := Resolve(spec, args).value;
      r.value.dispatch == Invoke(t.spec.handler.value, t.argumentsParsed, t.optionsParsed, t)
  {
    var parsed := ParseArgs(spec, args);
    if parsed.Failure? {
      return Failure(parsed.error);
    }
    var t := parsed.value;
    var validation := Validate(t);
    var dispatch := NoHandler;
    if t.spec.handler.Some? {
      dispatch := Invoke(t.spec.handler.value, t.argumentsParsed, t.optionsParsed, t);
    }
    return Success(Binding(dispatch, validation));
  }

  /**
   * On a node the resolver produced, validation can only fail for too few
   * positionals (never too many), and then always with the "Missing" message.
   */
  lemma ResolvedValidation(spec: CommandSpec, args: seq<string>)
    requires Resolve(spec, args).Success?
    ensures var t := Resolve(spec, args).value;
      ValidationOf(t).Success? <==> |t.argumentsParsed| == |t.spec.arguments|
    ensures var t := Resolve(spec, args).value;
      ValidationOf(t).Failure? ==>
        ValidationOf(t).error == MissingArgumentError(
          "Missing " + Join(ArgumentNames(t.spec.arguments), ", ") + " argument",
          TooSmall(|t.spec.arguments|, |t.argumentsParsed|))
  {
    ResolverProps.ResolveBuildsWellFormedChain(spec, args);
    ValidationOutcome(Resolve(spec, args).value);
  }
}
