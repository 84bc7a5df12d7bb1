/** The `user edit` test cases of command-spec.test.ts: handler binding and the missing argument. */
module BindingExamples {
  import opened Wrappers
  import opened JsString
  import opened Schemas
  import opened Resolver
  import opened Validator

  function OutputOption(): OptionSpec {
    OptionSpec("output", ["-o", "--output"], None, None, Some(SingleArgumentSpec("format", None)))
  }

  function EditSpec(): CommandSpec {
    CommandSpec("edit", None, [], [ArgumentSpec("user_id", None, None)], [], Some(0))
  }

  function UserSpec(): CommandSpec {
    CommandSpec("user", None, [], [], [EditSpec()], None)
  }

  /** `cli -o/--output <format>` with the nested command `user edit <user_id>`, whose handler is `0`. */
  function CliSpec(): CommandSpec {
    CommandSpec("cli", None, [OutputOption()], [], [UserSpec()], None)
  }

  /** The options after `--output yaml`: the value is stored under `o` and `output`. */
  lemma OutputStored()
    ensures Store(map[], OutputOption(), Text(Some("yaml")))
      == map["o" := Single(Text(Some("yaml"))), "output" := Single(Text(Some("yaml")))]
  {
    var o := OutputOption();
    var val := Text(Some("yaml"));
    assert StartsWith("--output", "--") && "-o"[1] == 'o';
    assert StripPrefix("--output") == "output" && StripPrefix("-o") == "o";
    assert o.aliases[..1] == ["-o"] && o.aliases[..1][..0] == [];
    var m1 := StoreOne(map[], "o", o, val);
    assert StoreUnder(map[], o.aliases[..1], o, val) == m1 by {
      assert StoreUnder(map[], o.aliases[..1][..0], o, val) == map[];
    }
    assert StoreUnder(map[], o.aliases, o, val) == StoreOne(m1, "output", o, val);
  }

  /** The node reached by `--output yaml user edit`, before any positional. */
  function EditNode(): CommandParsedSpec {
    var opts := map["o" := Single(Text(Some("yaml"))), "output" := Single(Text(Some("yaml")))];
    var root := RootNode(CliSpec()).(optionsParsed := opts);
    ChildNode(ChildNode(root, UserSpec()), EditSpec())
  }

  lemma ReachEdit(rest: seq<string>)
    ensures Resolve(CliSpec(), ["--output", "yaml", "user", "edit"] + rest) == ResolveFrom(CliSpec(), EditNode(), rest)
  {
    var spec := CliSpec();
    var root := RootNode(spec).(optionsParsed := EditNode().parent.value.parent.value.optionsParsed);
    OutputFirst(["user", "edit"] + rest);
    assert ["--output", "yaml", "user", "edit"] + rest == ["--output", "yaml"] + (["user", "edit"] + rest);
    assert "user"[0] == 'u' && "edit"[0] == 'e';
    assert FindSubcommand(spec.subcommands, "user") == Some(UserSpec());
    assert (["user", "edit"] + rest)[1..] == ["edit"] + rest;
    var user := ChildNode(root, UserSpec());
    assert ResolveFrom(spec, root, ["user", "edit"] + rest) == ResolveFrom(spec, user, ["edit"] + rest);
    assert FindSubcommand(user.spec.subcommands, "edit") == Some(EditSpec());
    assert (["edit"] + rest)[1..] == rest;
  }

  /** `--output yaml` first: the root then holds the value under both keys. */
  lemma OutputFirst(rest: seq<string>)
    ensures Resolve(CliSpec(), ["--output", "yaml"] + rest)
      == ResolveFrom(CliSpec(), RootNode(CliSpec()).(optionsParsed := EditNode().parent.value.parent.value.optionsParsed), rest)
  {
    var spec := CliSpec();
    var args := ["--output", "yaml"] + rest;
    assert args[0] == "--output" && args[1..][0] == "yaml";
    assert StartsWith("--output", "-");
    assert FindOption(spec.options, "--output") == Some(OutputOption());
    OutputStored();
    assert args[1..][1..] == rest;
  }

  /**
   * `bindArgs(cli, ["--output", "yaml", "user", "edit", "user1"])` hands the
   * `edit` handler `["user1"]`, `{o: "yaml", output: "yaml"}` and the node at
   * path `cli user edit`; its validation succeeds.
   */
  lemma UserEditBinding()
    ensures Resolve(CliSpec(), ["--output", "yaml", "user", "edit", "user1"]).Success?
    ensures var t := Resolve(CliSpec(), ["--output", "yaml", "user", "edit", "user1"]).value;
      && t.spec.handler == Some(0)
      && t.argumentsParsed == ["user1"]
      && t.optionsParsed == map["o" := Single(Text(Some("yaml"))), "output" := Single(Text(Some("yaml")))]
      && t.commandPath == ["cli", "user", "edit"]
      && ValidationOf(t) == Success(["user1"])
  {
    ReachEdit(["user1"]);
    assert ["--output", "yaml", "user", "edit"] + ["user1"] == ["--output", "yaml", "user", "edit", "user1"];
    EditTakesUserId();
    ValidationOutcome(EditNode().(argumentsParsed := ["user1"]));
  }

  /** `user1` fills the free `<user_id>` slot of `edit`. */
  lemma EditTakesUserId()
    ensures ResolveFrom(CliSpec(), EditNode(), ["user1"]) == Success(EditNode().(argumentsParsed := ["user1"]))
  {
    assert "user1"[0] == 'u';
    var e := EditNode();
    assert FindSubcommand(e.spec.subcommands, "user1") == None;
    assert !StartsWith("user1", "-");
    assert e.argumentsParsed + ["user1"] == ["user1"] && ["user1"][1..] == [];
    assert |e.argumentsParsed| < |e.spec.arguments|;
  }

  /** Without `user1`, validation raises "Missing user_id argument" with the too-small issue as cause. */
  lemma MissingUserId()
    ensures Resolve(CliSpec(), ["--output", "yaml", "user", "edit"]).Success?
    ensures ValidationOf(Resolve(CliSpec(), ["--output", "yaml", "user", "edit"]).value)
      == Failure(MissingArgumentError("Missing user_id argument", TooSmall(1, 0)))
  {
    ReachEdit([]);
    assert ["--output", "yaml", "user", "edit"] + [] == ["--output", "yaml", "user", "edit"];
    EditMissingUserId();
  }

  lemma EditMissingUserId()
    ensures ValidationOf(EditNode()) == Failure(MissingArgumentError("Missing user_id argument", TooSmall(1, 0)))
  {
    var e := EditNode();
    ValidationOutcome(e);
    assert ArgumentNames(e.spec.arguments) == ["user_id"];
    assert "Missing " + "user_id" + " argument" == "Missing user_id argument";
  }
}
