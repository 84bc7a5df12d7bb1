/** The resolver test cases of command-spec.test.ts, as lemmas over concrete specs. */
module ResolverExamples {
  import opened Wrappers
  import opened JsString
  import opened Schemas
  import opened Resolver

  /** `cli` with the flag `-a`/`--abc` and the subcommand `ls`. */
  function FlagSpec(): CommandSpec {
    CommandSpec("cli", Some("I am description"),
      [OptionSpec("abc", ["-a", "--abc"], Some("abc option"), None, None)],
      [],
      [CommandSpec("ls", Some("ls command"), [], [], [], None)],
      None)
  }

  /** `cli` with the `multiple` value option `-a`/`--abc <abc>`, the subcommand `ls` and the argument `<path>`. */
  function MultipleSpec(): CommandSpec {
    CommandSpec("cli", Some("I am description"),
      [OptionSpec("abc", ["-a", "--abc"], Some("abc option"), Some(true), Some(SingleArgumentSpec("<abc>", None)))],
      [ArgumentSpec("<path>", Some("a path"), None)],
      [CommandSpec("ls", Some("ls command"), [], [], [], None)],
      None)
  }

  lemma SubcommandPath()
    ensures Resolve(FlagSpec(), ["ls"]).Success?
    ensures Resolve(FlagSpec(), ["ls"]).value.commandPath == ["cli", "ls"]
    ensures Resolve(FlagSpec(), ["ls"]).value.parent.Some?
    ensures Resolve(FlagSpec(), ["ls"]).value.parent.value.commandPath == ["cli"]
  {
    assert "ls"[0] == 'l';
  }

  /** The writes of one occurrence of `-a`/`--abc` on an empty map. */
  lemma StoreAbc(o: OptionSpec, val: Value)
    requires o.aliases == ["-a", "--abc"]
    ensures Store(map[], o, val)
      == if o.IsMultiple() then map["a" := Many([val]), "abc" := Many([val])]
         else map["a" := Single(val), "abc" := Single(val)]
  {
    assert StartsWith("--abc", "--") && "-a"[1] == 'a';
    assert StripPrefix("--abc") == "abc" && StripPrefix("-a") == "a";
    assert o.aliases[..1] == ["-a"] && o.aliases[..1][..0] == [];
    assert "abc" != "a" by { assert |"abc"| != |"a"|; }
    var m1 := StoreOne(map[], "a", o, val);
    assert StoreUnder(map[], o.aliases[..1], o, val) == m1 by {
      assert StoreUnder(map[], o.aliases[..1][..0], o, val) == map[];
    }
    assert StoreUnder(map[], o.aliases, o, val) == StoreOne(m1, "abc", o, val);
    assert PriorValues(map[], "a") == [] && [] + [val] == [val];
    assert PriorValues(m1, "abc") == [];
  }

  /** A further occurrence of the `multiple` option `-a`/`--abc` appends under both keys. */
  lemma StoreAbcAppend(o: OptionSpec, xs: seq<Value>, val: Value)
    requires o.aliases == ["-a", "--abc"] && o.IsMultiple()
    ensures Store(map["a" := Many(xs), "abc" := Many(xs)], o, val)
      == map["a" := Many(xs + [val]), "abc" := Many(xs + [val])]
  {
    var m := map["a" := Many(xs), "abc" := Many(xs)];
    assert StartsWith("--abc", "--") && "-a"[1] == 'a';
    assert StripPrefix("--abc") == "abc" && StripPrefix("-a") == "a";
    assert "abc" != "a" by { assert |"abc"| != |"a"|; }
    var m1 := StoreOne(m, "a", o, val);
    assert StoreUnder(m, o.aliases[..1], o, val) == m1 by {
      assert o.aliases[..1][..0] == [];
      assert StoreUnder(m, o.aliases[..1][..0], o, val) == m;
    }
    assert PriorValues(m, "a") == xs;
    assert PriorValues(m1, "abc") == xs;
    assert StoreUnder(m, o.aliases, o, val) == StoreOne(m1, "abc", o, val);
  }

  lemma FlagBeforeSubcommand()
    ensures Resolve(FlagSpec(), ["--abc", "ls"]).Success?
    ensures Resolve(FlagSpec(), ["--abc", "ls"]).value.parent.Some?
    ensures Resolve(FlagSpec(), ["--abc", "ls"]).value.parent.value.optionsParsed
      == map["a" := Single(True), "abc" := Single(True)]
    ensures Resolve(FlagSpec(), ["--abc", "ls"]).value.optionsParsed
      == map["a" := Single(True), "abc" := Single(True)]
  {
    var spec := FlagSpec();
    var o := spec.options[0];
    var ls := spec.subcommands[0];
    var args := ["--abc", "ls"];
    assert StartsWith("--abc", "-");
    assert "ls"[0] == 'l';
    assert FindOption(spec.options, "--abc") == Some(o);
    StoreAbc(o, True);
    var afterFlag := RootNode(spec).(optionsParsed := map["a" := Single(True), "abc" := Single(True)]);
    assert args[1..] == ["ls"] && args[1..][1..] == [];
    assert Resolve(spec, args) == ResolveFrom(spec, afterFlag, ["ls"]);
    assert FindSubcommand(spec.subcommands, "ls") == Some(ls);
    assert ResolveFrom(spec, afterFlag, ["ls"]) == Success(ChildNode(afterFlag, ls));
  }

  lemma MultipleAccumulates()
    ensures Resolve(MultipleSpec(), ["--abc", "foo", "--abc", "baz"]).Success?
    ensures Resolve(MultipleSpec(), ["--abc", "foo", "--abc", "baz"]).value.optionsParsed
      == map["a" := Many([Text(Some("foo")), Text(Some("baz"))]), "abc" := Many([Text(Some("foo")), Text(Some("baz"))])]
  {
    var spec := MultipleSpec();
    var o := spec.options[0];
    var foo, baz := Text(Some("foo")), Text(Some("baz"));
    var n1 := RootNode(spec).(optionsParsed := map["a" := Many([foo]), "abc" := Many([foo])]);
    MultipleFirst();
    var second := map["a" := Many([foo, baz]), "abc" := Many([foo, baz])];
    StoreAbcAppend(o, [foo], baz);
    assert [foo] + [baz] == [foo, baz];
    assert StartsWith("--abc", "-");
    assert FindOption(spec.options, "--abc") == Some(o);
    assert ["--abc", "baz"][1..] == ["baz"] && ["baz"][1..] == [];
    assert ResolveFrom(spec, n1, ["--abc", "baz"]) == ResolveFrom(spec, n1.(optionsParsed := second), []);
  }

  /** The first `--abc foo` starts a one-element list under both keys. */
  lemma MultipleFirst()
    ensures Resolve(MultipleSpec(), ["--abc", "foo", "--abc", "baz"])
      == ResolveFrom(MultipleSpec(), RootNode(MultipleSpec()).(optionsParsed := map["a" := Many([Text(Some("foo"))]), "abc" := Many([Text(Some("foo"))])]), ["--abc", "baz"])
  {
    var spec := MultipleSpec();
    var o := spec.options[0];
    var args := ["--abc", "foo", "--abc", "baz"];
    assert StartsWith("--abc", "-");
    assert FindOption(spec.options, "--abc") == Some(o);
    var foo := Text(Some("foo"));
    StoreAbc(o, foo);
    assert args[1..] == ["foo", "--abc", "baz"] && args[1..][1..] == ["--abc", "baz"];
    assert TakeValue(o, args[1..]) == (foo, ["--abc", "baz"]);
  }

  lemma PositionalAfterOptions()
    ensures Resolve(MultipleSpec(), ["--abc", "foo", "--abc", "baz", "me_path"]).Success?
    ensures Resolve(MultipleSpec(), ["--abc", "foo", "--abc", "baz", "me_path"]).value.argumentsParsed == ["me_path"]
  {
    var spec := MultipleSpec();
    var o := spec.options[0];
    var args := ["--abc", "foo", "--abc", "baz", "me_path"];
    assert StartsWith("--abc", "-");
    assert "me_path"[0] == 'm';
    assert FindOption(spec.options, "--abc") == Some(o);
    assert args[1..][1..] == ["--abc", "baz", "me_path"];
    assert args[1..][1..][1..][1..] == ["me_path"];
    assert ["me_path"][1..] == [];
    var n1 := RootNode(spec).(optionsParsed := Store(map[], o, Text(Some("foo"))));
    var n2 := n1.(optionsParsed := Store(n1.optionsParsed, o, Text(Some("baz"))));
    assert Resolve(spec, args) == ResolveFrom(spec, n1, ["--abc", "baz", "me_path"]);
    assert ResolveFrom(spec, n1, ["--abc", "baz", "me_path"]) == ResolveFrom(spec, n2, ["me_path"]);
    assert FindSubcommand(spec.subcommands, "me_path").None?;
  }

  lemma NotFoundMessageExample()
    ensures NotFoundMessage(["cli", "ls"], "no-found") == "cli ls no-found: Is not valid command. See cli ls --help"
  {
    JoinCliLs();
    NotFoundMessageHead();
    assert "cli ls no-found: Is not valid command. See " + "cli ls" == "cli ls no-found: Is not valid command. See cli ls";
    assert "cli ls no-found: Is not valid command. See cli ls" + " --help"
      == "cli ls no-found: Is not valid command. See cli ls --help";
  }

  lemma NotFoundMessageHead()
    ensures "cli ls" + " " + "no-found" + ": Is not valid command. See " == "cli ls no-found: Is not valid command. See "
  {
    assert "cli ls" + " " + "no-found" == "cli ls no-found";
  }

  lemma JoinCliLs()
    ensures Join(["cli", "ls"], " ") == "cli ls"
  {
    assert ["cli", "ls"][1..] == ["ls"];
  }

  lemma UnknownSubcommandPath()
    ensures Resolve(FlagSpec(), ["ls", "no-found"]) == Failure(CommandNotFound(["cli", "ls"], "no-found"))
    ensures ErrorMessage(Resolve(FlagSpec(), ["ls", "no-found"]).error)
      == "cli ls no-found: Is not valid command. See cli ls --help"
  {
    var spec := FlagSpec();
    var ls := spec.subcommands[0];
    assert "ls"[0] == 'l';
    assert "no-found"[0] == 'n';
    assert ["ls", "no-found"][1..] == ["no-found"];
    assert FindSubcommand(spec.subcommands, "ls") == Some(ls);
    var child := ChildNode(RootNode(spec), ls);
    assert Resolve(spec, ["ls", "no-found"]) == ResolveFrom(spec, child, ["no-found"]);
    assert child.commandPath == ["cli", "ls"];
    NotFoundMessageExample();
  }
}
