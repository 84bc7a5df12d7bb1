/** Concrete runs where the prototype resolver of command-spec.ts and the resolver of src/command-spec.ts part ways. */
module PrototypeExamples {
  import opened Wrappers
  import opened JsString
  import opened Schemas
  import opened Resolver
  import opened Help
  import opened Prototype
  import opened PrototypeProps
  import ResolverExamples
  import BindingExamples
  import HelpExamples

  /**
   * `--output yaml user edit user1`: the src resolver reaches `cli user edit`
   * (see `BindingExamples.UserEditBinding`), but the prototype looks `edit` up
   * among the top-level subcommands and fails at `cli user`.
   */
  lemma NestedSubcommandFails()
    ensures ProtoResolve(BindingExamples.CliSpec(), ["--output", "yaml", "user", "edit", "user1"])
      == Failure(NotValidCommand(["cli", "user"], "edit"))
  {
    var spec := BindingExamples.CliSpec();
    var stored := map["o" := Single(Text(Some("yaml"))), "output" := Single(Text(Some("yaml")))];
    var root := RootNode(spec).(optionsParsed := stored);
    ProtoOutputFirst();
    assert "user"[0] == 'u' && "edit"[0] == 'e';
    assert FindSubcommand(spec.subcommands, "user") == Some(BindingExamples.UserSpec());
    var user := ProtoChild(root, BindingExamples.UserSpec());
    assert ["user", "edit", "user1"][1..] == ["edit", "user1"];
    assert ProtoResolveFrom(spec, root, ["user", "edit", "user1"]) == ProtoResolveFrom(spec, user, ["edit", "user1"]);
    assert FindSubcommand(spec.subcommands, "edit") == None by { assert "user" != "edit"; }
    assert user.commandPath == ["cli", "user"];
  }

  /** The prototype stores `--output yaml` under both keys, as the src resolver does. */
  lemma ProtoOutputFirst()
    ensures ProtoResolve(BindingExamples.CliSpec(), ["--output", "yaml", "user", "edit", "user1"])
      == ProtoResolveFrom(BindingExamples.CliSpec(),
           RootNode(BindingExamples.CliSpec()).(optionsParsed := map["o" := Single(Text(Some("yaml"))), "output" := Single(Text(Some("yaml")))]),
           ["user", "edit", "user1"])
  {
    var spec := BindingExamples.CliSpec();
    var o := BindingExamples.OutputOption();
    var args := ["--output", "yaml", "user", "edit", "user1"];
    var yaml := Text(Some("yaml"));
    assert StartsWith("--output", "-");
    assert FindOption(spec.options, "--output") == Some(o);
    SingleStoreAgrees(map[], o.aliases, o, yaml);
    BindingExamples.OutputStored();
    assert args[1..][1..] == ["user", "edit", "user1"];
  }

  /** `--abc ls` on the prototype: the parent holds the flag, the child `ls` starts with no options. */
  lemma ChildStartsEmpty()
    ensures ProtoResolve(ResolverExamples.FlagSpec(), ["--abc", "ls"]).Success?
    ensures var t := ProtoResolve(ResolverExamples.FlagSpec(), ["--abc", "ls"]).value;
      && t.optionsParsed == map[]
      && t.parent.Some?
      && t.parent.value.optionsParsed == map["a" := Single(True), "abc" := Single(True)]
  {
    var spec := ResolverExamples.FlagSpec();
    var o := spec.options[0];
    var args := ["--abc", "ls"];
    assert StartsWith("--abc", "-");
    assert "ls"[0] == 'l';
    assert FindOption(spec.options, "--abc") == Some(o);
    SingleStoreAgrees(map[], o.aliases, o, True);
    ResolverExamples.StoreAbc(o, True);
    var afterFlag := RootNode(spec).(optionsParsed := map["a" := Single(True), "abc" := Single(True)]);
    assert args[1..] == ["ls"] && args[1..][1..] == [];
    assert ProtoResolve(spec, args) == ProtoResolveFrom(spec, afterFlag, ["ls"]);
    assert FindSubcommand(spec.subcommands, "ls") == Some(spec.subcommands[0]);
  }

  /** The help of `cli abc ls` is the same on both: `abc` fills the top-level `<abc>`, then `ls` is selected. */
  lemma SubcommandHelpAgrees()
    ensures ProtoBuildHelpDialog(HelpExamples.FullSpec(), ["abc", "ls"]) == Success(["ls command", "", "Usage: cli ls", ""])
  {
    var s := HelpExamples.FullSpec();
    var args := ["abc", "ls"];
    assert !StartsWith("abc", "-") by { assert "abc"[0] == 'a'; }
    assert !StartsWith("ls", "-") by { assert "ls"[0] == 'l'; }
    assert FindSubcommand(s.subcommands, "abc") == None by { assert "ls" != "abc"; }
    var n1 := RootNode(s).(argumentsParsed := ["abc"]);
    assert [] + ["abc"] == ["abc"];
    assert args[1..] == ["ls"] && ["ls"][1..] == [];
    assert ProtoResolve(s, args) == ProtoResolveFrom(s, n1, ["ls"]);
    assert FindSubcommand(s.subcommands, "ls") == Some(HelpExamples.LsCommand());
    var t := ProtoChild(n1, HelpExamples.LsCommand());
    assert t.commandPath == ["cli", "ls"];
    HelpExamples.LsDialog();
  }

  /** `-x <v>` (single) and `--x <v>` (multiple) share the key `x`. */
  function SharedKeySpec(): CommandSpec {
    CommandSpec("cli", None,
      [ OptionSpec("single", ["-x"], None, None, Some(SingleArgumentSpec("<v>", None))),
        OptionSpec("many", ["--x"], None, Some(true), Some(SingleArgumentSpec("<v>", None)))],
      [], [], None)
  }

  lemma SharedKeyTokens()
    ensures StartsWith("-x", "-") && StartsWith("--x", "-")
    ensures FindOption(SharedKeySpec().options, "-x") == Some(SharedKeySpec().options[0])
    ensures FindOption(SharedKeySpec().options, "--x") == Some(SharedKeySpec().options[1])
    ensures StripPrefix("-x") == "x" && StripPrefix("--x") == "x"
  {
    assert StartsWith("--x", "--");
    assert !StartsWith("-x", "--") by { assert "-x"[1] == 'x'; }
    assert "-x" != "--x" by { assert |"-x"| != |"--x"|; }
  }

  /** The src store: the second write replaces the stored string by a fresh list. */
  lemma SharedKeyStores()
    ensures Store(map[], SharedKeySpec().options[0], Text(Some("ab"))) == map["x" := Single(Text(Some("ab")))]
    ensures Store(map["x" := Single(Text(Some("ab")))], SharedKeySpec().options[1], Text(Some("c")))
      == map["x" := Many([Text(Some("c"))])]
  {
    var spec := SharedKeySpec();
    var single, many := spec.options[0], spec.options[1];
    var ab, c := Text(Some("ab")), Text(Some("c"));
    SharedKeyTokens();
    var m1 := map["x" := Single(ab)];
    assert single.aliases[..0] == [] && many.aliases[..0] == [];
    assert StoreUnder(map[], single.aliases, single, ab) == StoreOne(map[], "x", single, ab);
    assert StoreUnder(m1, many.aliases, many, c) == StoreOne(m1, "x", many, c);
    assert PriorValues(m1, "x") == [];
    assert [] + [c] == [c];
  }

  /** The prototype store: the second write spreads the stored string. */
  lemma SharedKeyProtoStores()
    ensures ProtoStore(map[], SharedKeySpec().options[0], Text(Some("ab"))) == Success(map["x" := Single(Text(Some("ab")))])
    ensures ProtoStore(map["x" := Single(Text(Some("ab")))], SharedKeySpec().options[1], Text(Some("c")))
      == Success(map["x" := Many([Text(Some("a")), Text(Some("b")), Text(Some("c"))])])
  {
    var spec := SharedKeySpec();
    var single, many := spec.options[0], spec.options[1];
    var ab, c := Text(Some("ab")), Text(Some("c"));
    SharedKeyTokens();
    var m1 := map["x" := Single(ab)];
    assert single.aliases[..0] == [] && many.aliases[..0] == [];
    assert ProtoStoreUnder(map[], single.aliases, single, ab) == ProtoStoreOne(map[], "x", single, ab);
    var chars := [Text(Some("a")), Text(Some("b")), Text(Some("c"))];
    assert ProtoStoreUnder(m1, many.aliases, many, c) == ProtoStoreOne(m1, "x", many, c);
    assert CharValues("ab") == [Text(Some("a")), Text(Some("b"))] by {
      assert ["ab"[0]] == "a" && ["ab"[1]] == "b";
    }
    assert CharValues("ab") + [c] == chars;
    assert Lookup(m1, "x") == Some(Single(ab));
    assert Spread(Lookup(m1, "x"), c) == Success(chars);
    assert many.IsMultiple();
    assert ProtoStoreOne(m1, "x", many, c) == Success(m1["x" := Many(chars)]);
    assert m1["x" := Many(chars)] == map["x" := Many(chars)];
  }

  /**
   * `-x ab --x c`: the src resolver starts a fresh list (a stored string is
   * no array), the prototype spreads the stored string into its characters.
   */
  lemma SpreadOfStoredString()
    ensures Resolve(SharedKeySpec(), ["-x", "ab", "--x", "c"]).Success?
    ensures Resolve(SharedKeySpec(), ["-x", "ab", "--x", "c"]).value.optionsParsed == map["x" := Many([Text(Some("c"))])]
    ensures ProtoResolve(SharedKeySpec(), ["-x", "ab", "--x", "c"]).Success?
    ensures ProtoResolve(SharedKeySpec(), ["-x", "ab", "--x", "c"]).value.optionsParsed
      == map["x" := Many([Text(Some("a")), Text(Some("b")), Text(Some("c"))])]
  {
    SrcOfSharedKey();
    ProtoOfSharedKey();
  }

  lemma SrcOfSharedKey()
    ensures Resolve(SharedKeySpec(), ["-x", "ab", "--x", "c"]) ==
      Success(RootNode(SharedKeySpec()).(optionsParsed := map["x" := Many([Text(Some("c"))])]))
  {
    var spec := SharedKeySpec();
    var args := ["-x", "ab", "--x", "c"];
    SharedKeyTokens();
    SharedKeyStores();
    assert args[1..] == ["ab", "--x", "c"] && args[1..][1..] == ["--x", "c"];
    assert ["--x", "c"][1..] == ["c"] && ["c"][1..] == [];
    var n1 := RootNode(spec).(optionsParsed := map["x" := Single(Text(Some("ab")))]);
    assert Resolve(spec, args) == ResolveFrom(spec, n1, ["--x", "c"]);
  }

  lemma ProtoOfSharedKey()
    ensures ProtoResolve(SharedKeySpec(), ["-x", "ab", "--x", "c"]) ==
      Success(RootNode(SharedKeySpec()).(optionsParsed := map["x" := Many([Text(Some("a")), Text(Some("b")), Text(Some("c"))])]))
  {
    var spec := SharedKeySpec();
    var args := ["-x", "ab", "--x", "c"];
    SharedKeyTokens();
    SharedKeyProtoStores();
    assert args[1..] == ["ab", "--x", "c"] && args[1..][1..] == ["--x", "c"];
    assert ["--x", "c"][1..] == ["c"] && ["c"][1..] == [];
    var n1 := RootNode(spec).(optionsParsed := map["x" := Single(Text(Some("ab")))]);
    assert ProtoResolve(spec, args) == ProtoResolveFrom(spec, n1, ["--x", "c"]);
  }

  /** `-x --x c` with `-x` a flag: the src resolver starts a list, the prototype throws on spreading `true`. */
  function FlagThenManySpec(): CommandSpec {
    CommandSpec("cli", None,
      [ OptionSpec("flag", ["-x"], None, None, None),
        OptionSpec("many", ["--x"], None, Some(true), Some(SingleArgumentSpec("<v>", None)))],
      [], [], None)
  }

  lemma FlagThenManyStores()
    ensures FindOption(FlagThenManySpec().options, "-x") == Some(FlagThenManySpec().options[0])
    ensures FindOption(FlagThenManySpec().options, "--x") == Some(FlagThenManySpec().options[1])
    ensures Store(map[], FlagThenManySpec().options[0], True) == map["x" := Single(True)]
    ensures ProtoStore(map[], FlagThenManySpec().options[0], True) == Success(map["x" := Single(True)])
    ensures ProtoStore(map["x" := Single(True)], FlagThenManySpec().options[1], Text(Some("c"))) == Failure(NotIterable)
  {
    var spec := FlagThenManySpec();
    var flag, many := spec.options[0], spec.options[1];
    var c := Text(Some("c"));
    assert StartsWith("--x", "--");
    assert !StartsWith("-x", "--") by { assert "-x"[1] == 'x'; }
    assert "-x" != "--x" by { assert |"-x"| != |"--x"|; }
    assert StripPrefix("-x") == "x" && StripPrefix("--x") == "x";
    assert flag.aliases[..0] == [] && many.aliases[..0] == [];
    var m1 := map["x" := Single(True)];
    assert StoreUnder(map[], flag.aliases, flag, True) == StoreOne(map[], "x", flag, True);
    assert ProtoStoreUnder(map[], flag.aliases, flag, True) == ProtoStoreOne(map[], "x", flag, True);
    assert ProtoStoreUnder(m1, many.aliases, many, c) == ProtoStoreOne(m1, "x", many, c);
  }

  lemma SpreadOfStoredTrue()
    ensures Resolve(FlagThenManySpec(), ["-x", "--x", "c"]).Success?
    ensures ProtoResolve(FlagThenManySpec(), ["-x", "--x", "c"]) == Failure(NotIterable)
  {
    var spec := FlagThenManySpec();
    var args := ["-x", "--x", "c"];
    assert StartsWith("-x", "-") && StartsWith("--x", "-");
    FlagThenManyStores();
    assert args[1..] == ["--x", "c"] && ["--x", "c"][1..] == ["c"] && ["c"][1..] == [];
    var n1 := RootNode(spec).(optionsParsed := map["x" := Single(True)]);
    assert Resolve(spec, args) == ResolveFrom(spec, n1, ["--x", "c"]);
    assert ProtoResolve(spec, args) == ProtoResolveFrom(spec, n1, ["--x", "c"]);
  }
}
