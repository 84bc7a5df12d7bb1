/** The help-dialog test cases of command-spec.test.ts, as lemmas over concrete specs. */
module HelpExamples {
  import opened Wrappers
  import opened JsString
  import opened Schemas
  import opened Resolver
  import opened Help

  function AbcArgument(): ArgumentSpec {
    ArgumentSpec("<abc>", Some("im an argument"), None)
  }

  function AbcFlag(): OptionSpec {
    OptionSpec("abc", ["-a", "--abc"], Some("abc option"), None, None)
  }

  function LsCommand(): CommandSpec {
    CommandSpec("ls", Some("ls command"), [], [], [], None)
  }

  /** `cli` with a description and nothing else. */
  function BareSpec(): CommandSpec {
    CommandSpec("cli", Some("I am description"), [], [], [], None)
  }

  /** `cli <abc>`, `-a --abc` and `ls`, all described. */
  function FullSpec(): CommandSpec {
    CommandSpec("cli", Some("I am description"), [AbcFlag()], [AbcArgument()], [LsCommand()], None)
  }

  lemma SixSpaces()
    ensures Spaces(6) == "      "
  {
    assert Spaces(1) == " ";
    assert Spaces(2) == "  ";
    assert Spaces(3) == "   ";
    assert Spaces(4) == "    ";
    assert Spaces(5) == "     ";
  }

  lemma BareUsage()
    ensures UsageLines(BareSpec(), ["cli"]) == ["Usage: cli"]
  {
    var s := BareSpec();
    assert Join(["cli"], " ") == "cli";
    UsageLabels();
    assert UsageTails(s) == [""];
    UsageLineAt(s, ["cli"], 0);
    assert OptionsSuffix(s) == "";
    assert "Usage:" + " " == "Usage: ";
    assert "Usage: " + "cli" == "Usage: cli";
    assert "Usage: cli" + "" == "Usage: cli";
  }

  lemma BareDialog()
    ensures BuildHelpDialog(BareSpec(), []) == Success(["I am description", "", "Usage: cli", ""])
  {
    var s := BareSpec();
    assert Resolve(s, []) == Success(RootNode(s));
    assert BuildHelpDialog(s, []) == Success(SelectHelpDialog(Some(s), ["cli"]));
    BareUsage();
    assert !AnyTruthy([]);
    assert Blocks(s) == [];
    assert DescriptionLines(s) == ["I am description", ""];
    assert SelectHelpDialog(Some(s), ["cli"]) == ["I am description", ""] + ["Usage: cli"] + [""] + [];
    assert ["I am description", ""] + ["Usage: cli"] + [""] + [] == ["I am description", "", "Usage: cli", ""];
  }

  lemma JoinAbc()
    ensures Join(["-a", "--abc"], " ") == "-a --abc"
  {
    assert ["-a", "--abc"][1..] == ["--abc"];
    assert Join(["-a", "--abc"], " ") == "-a" + " " + "--abc";
    assert "-a" + " " == "-a ";
  }

  lemma FullPadLen()
    ensures PadLen(FullSpec()) == 8
  {
    var s := FullSpec();
    assert ArgumentNames(s.arguments) == ["<abc>"];
    assert OptionLabels(s.options) == ["-a --abc"] by {
      JoinAbc();
    }
    assert SubcommandNames(s.subcommands) == ["ls"];
    assert MaxLength(["<abc>"]) == 5 by { assert ["<abc>"][..0] == []; }
    assert MaxLength(["-a --abc"]) == 8 by { assert ["-a --abc"][..0] == []; }
    assert MaxLength(["ls"]) == 2 by { assert ["ls"][..0] == []; }
  }

  /** A block of one described entry: the title, that entry's line, a blank. */
  lemma SingleEntryBlock(title: string, name: string, desc: string, pad: nat)
    requires desc != ""
    ensures Block(title, [name], [Some(desc)], pad) == [title, EntryLine(name, pad, Some(desc)), ""]
  {
    var descs := [Some(desc)];
    assert AnyTruthy(descs) by { assert Truthy(descs[0]); }
    var entries := seq(1, i requires 0 <= i < 1 => EntryLine([name][i], pad, descs[i]));
    assert entries == [EntryLine(name, pad, Some(desc))];
  }

  lemma ArgumentsBlockOfFull()
    ensures ArgumentsBlock(FullSpec(), 8) == ["Arguments", "  <abc>       im an argument", ""]
  {
    var s := FullSpec();
    assert ArgumentNames(s.arguments) == ["<abc>"];
    assert ArgumentDescriptions(s.arguments) == [Some("im an argument")];
    SingleEntryBlock("Arguments", "<abc>", "im an argument", 8);
    AbcEntryLine();
  }

  lemma AbcEntryLine()
    ensures EntryLine("<abc>", 8, Some("im an argument")) == "  <abc>       im an argument"
  {
    EntryLineShape("<abc>", 8, Some("im an argument"));
    assert Spaces(3) == "   ";
    AbcEntryText();
  }

  lemma AbcEntryText()
    ensures "  " + "<abc>" + "   " + "    " + "im an argument" == "  <abc>       im an argument"
  {
    assert "  " + "<abc>" == "  <abc>";
    assert "  <abc>" + "   " == "  <abc>   ";
    assert "  <abc>   " + "    " == "  <abc>       ";
    assert "  <abc>       " + "im an argument" == "  <abc>       im an argument";
  }

  lemma CommandsBlockOfFull()
    ensures CommandsBlock(FullSpec(), 8) == ["Commands", "  ls          ls command", ""]
  {
    var s := FullSpec();
    assert SubcommandNames(s.subcommands) == ["ls"];
    assert SubcommandDescriptions(s.subcommands) == [Some("ls command")];
    SingleEntryBlock("Commands", "ls", "ls command", 8);
    LsEntryLine();
  }

  lemma LsEntryLine()
    ensures EntryLine("ls", 8, Some("ls command")) == "  ls          ls command"
  {
    EntryLineShape("ls", 8, Some("ls command"));
    SixSpaces();
    assert "  " + "ls" == "  ls";
    assert "  ls" + "      " == "  ls      ";
    assert "  ls      " + "    " == "  ls          ";
    assert "  ls          " + "ls command" == "  ls          ls command";
  }

  lemma OptionsBlockOfFull()
    ensures OptionsBlock(FullSpec(), 8) == ["Options", "  -a --abc    abc option", ""]
  {
    var s := FullSpec();
    assert OptionLabels(s.options) == ["-a --abc"] by { JoinAbc(); }
    assert OptionDescriptions(s.options) == [Some("abc option")];
    SingleEntryBlock("Options", "-a --abc", "abc option", 8);
    AbcOptionEntryLine();
  }

  lemma AbcOptionEntryLine()
    ensures EntryLine("-a --abc", 8, Some("abc option")) == "  -a --abc    abc option"
  {
    EntryLineShape("-a --abc", 8, Some("abc option"));
    assert Spaces(0) == "";
    assert "  " + "-a --abc" == "  -a --abc";
    assert "  -a --abc" + "" == "  -a --abc";
    assert "  -a --abc" + "    " == "  -a --abc    ";
    assert "  -a --abc    " + "abc option" == "  -a --abc    abc option";
  }

  lemma FullUsage()
    ensures UsageLines(FullSpec(), ["cli"]) == ["Usage: cli [options] <abc>", "   or: cli [options] <command>"]
  {
    var s := FullSpec();
    FullUsageParts();
    UsageLineAt(s, ["cli"], 0);
    UsageLineAt(s, ["cli"], 1);
    UsageLabels();
    FullUsageText();
  }

  lemma FullUsageParts()
    ensures Join(["cli"], " ") == "cli"
    ensures UsageTails(FullSpec()) == [" <abc>", " <command>"]
    ensures OptionsSuffix(FullSpec()) == " [options]"
  {
    var s := FullSpec();
    assert ArgumentNames(s.arguments) == ["<abc>"];
    assert Join(["<abc>"], " ") == "<abc>";
    assert " " + "<abc>" == " <abc>";
  }

  lemma FullUsageText()
    ensures "Usage:" + " " + "cli" + " [options]" + " <abc>" == "Usage: cli [options] <abc>"
    ensures "   or:" + " " + "cli" + " [options]" + " <command>" == "   or: cli [options] <command>"
  {
    assert "Usage:" + " " == "Usage: ";
    assert "Usage: " + "cli" == "Usage: cli";
    assert "Usage: cli" + " [options]" == "Usage: cli [options]";
    assert "Usage: cli [options]" + " <abc>" == "Usage: cli [options] <abc>";
    assert "   or:" + " " == "   or: ";
    assert "   or: " + "cli" == "   or: cli";
    assert "   or: cli" + " [options]" == "   or: cli [options]";
    assert "   or: cli [options]" + " <command>" == "   or: cli [options] <command>";
  }

  /** The dialog of `cli` with arguments, options and a described subcommand: every block, aligned at column 14. */
  lemma FullDialog()
    ensures BuildHelpDialog(FullSpec(), []) == Success([
      "I am description", "",
      "Usage: cli [options] <abc>", "   or: cli [options] <command>", "",
      "Arguments", "  <abc>       im an argument", "",
      "Commands", "  ls          ls command", "",
      "Options", "  -a --abc    abc option", ""])
  {
    var s := FullSpec();
    assert Resolve(s, []) == Success(RootNode(s));
    FullUsage();
    FullBlocks();
    assert DescriptionLines(s) == ["I am description", ""];
    assert BuildHelpDialog(s, []) == Success(SelectHelpDialog(Some(s), ["cli"]));
    var blocks := ["Arguments", "  <abc>       im an argument", "",
      "Commands", "  ls          ls command", "",
      "Options", "  -a --abc    abc option", ""];
    var head := ["I am description", ""] + ["Usage: cli [options] <abc>", "   or: cli [options] <command>"] + [""];
    assert SelectHelpDialog(Some(s), ["cli"]) == head + blocks;
    assert head == ["I am description", "", "Usage: cli [options] <abc>", "   or: cli [options] <command>", ""];
    assert head + blocks == [
      "I am description", "",
      "Usage: cli [options] <abc>", "   or: cli [options] <command>", "",
      "Arguments", "  <abc>       im an argument", "",
      "Commands", "  ls          ls command", "",
      "Options", "  -a --abc    abc option", ""];
  }

  lemma FullBlocks()
    ensures Blocks(FullSpec()) == ["Arguments", "  <abc>       im an argument", "",
      "Commands", "  ls          ls command", "",
      "Options", "  -a --abc    abc option", ""]
  {
    FullPadLen();
    ArgumentsBlockOfFull();
    CommandsBlockOfFull();
    OptionsBlockOfFull();
    var blocks := ["Arguments", "  <abc>       im an argument", ""]
      + ["Commands", "  ls          ls command", ""]
      + ["Options", "  -a --abc    abc option", ""];
    assert Blocks(FullSpec()) == blocks;
  }

  /** The same command with an `ls` that has no description. */
  function UndescribedSpec(): CommandSpec {
    FullSpec().(subcommands := [CommandSpec("ls", None, [], [], [], None)])
  }

  /** The undescribed `ls` still counts toward the padding: it stays 8. */
  lemma UndescribedPadLen()
    ensures PadLen(UndescribedSpec()) == 8
  {
    var s := UndescribedSpec();
    assert ArgumentNames(s.arguments) == ["<abc>"];
    assert OptionLabels(s.options) == ["-a --abc"] by {
      JoinAbc();
    }
    assert SubcommandNames(s.subcommands) == ["ls"];
    assert MaxLength(["<abc>"]) == 5 by { assert ["<abc>"][..0] == []; }
    assert MaxLength(["-a --abc"]) == 8 by { assert ["-a --abc"][..0] == []; }
    assert MaxLength(["ls"]) == 2 by { assert ["ls"][..0] == []; }
  }

  lemma UndescribedBlocks()
    ensures Blocks(UndescribedSpec()) == ["Arguments", "  <abc>       im an argument", "",
      "Options", "  -a --abc    abc option", ""]
  {
    var s := UndescribedSpec();
    UndescribedPadLen();
    ArgumentsBlockOfFull();
    OptionsBlockOfFull();
    assert ArgumentsBlock(s, 8) == ArgumentsBlock(FullSpec(), 8);
    assert OptionsBlock(s, 8) == OptionsBlock(FullSpec(), 8);
    assert SubcommandDescriptions(s.subcommands) == [None];
    assert !AnyTruthy([None]);
    assert CommandsBlock(s, 8) == [];
    assert Blocks(s) == ["Arguments", "  <abc>       im an argument", ""] + [] + ["Options", "  -a --abc    abc option", ""];
  }

  /**
   * The dialog of `cli` with an argument, an option and a subcommand without
   * a description: both usage lines, no Commands block, and the Arguments and
   * Options blocks still padded to 8.
   */
  lemma UndescribedSubcommandDialog()
    ensures BuildHelpDialog(UndescribedSpec(), []) == Success([
      "I am description", "",
      "Usage: cli [options] <abc>", "   or: cli [options] <command>", "",
      "Arguments", "  <abc>       im an argument", "",
      "Options", "  -a --abc    abc option", ""])
  {
    var s := UndescribedSpec();
    assert Resolve(s, []) == Success(RootNode(s));
    FullUsage();
    FullUsageParts();
    assert UsageTails(s) == UsageTails(FullSpec());
    assert OptionsSuffix(s) == OptionsSuffix(FullSpec());
    assert UsageLines(s, ["cli"]) == UsageLines(FullSpec(), ["cli"]);
    UndescribedBlocks();
    assert DescriptionLines(s) == ["I am description", ""];
    assert BuildHelpDialog(s, []) == Success(SelectHelpDialog(Some(s), ["cli"]));
    var blocks := ["Arguments", "  <abc>       im an argument", "",
      "Options", "  -a --abc    abc option", ""];
    var head := ["I am description", ""] + ["Usage: cli [options] <abc>", "   or: cli [options] <command>"] + [""];
    assert SelectHelpDialog(Some(s), ["cli"]) == head + blocks;
    assert head + blocks == [
      "I am description", "",
      "Usage: cli [options] <abc>", "   or: cli [options] <command>", "",
      "Arguments", "  <abc>       im an argument", "",
      "Options", "  -a --abc    abc option", ""];
  }

  /** Resolving `["abc", "ls"]` fills `<abc>` on the root, then selects `ls`. */
  lemma ResolveAbcLs()
    ensures Resolve(FullSpec(), ["abc", "ls"]) == Success(ChildNode(RootNode(FullSpec()).(argumentsParsed := ["abc"]), LsCommand()))
  {
    var s := FullSpec();
    var args := ["abc", "ls"];
    assert !StartsWith("abc", "-") by { assert "abc"[0] == 'a'; }
    assert !StartsWith("ls", "-") by { assert "ls"[0] == 'l'; }
    assert FindSubcommand(s.subcommands, "abc") == None by { assert "ls" != "abc"; }
    var n1 := RootNode(s).(argumentsParsed := ["abc"]);
    assert [] + ["abc"] == ["abc"];
    assert args[1..] == ["ls"] && ["ls"][1..] == [];
    assert Resolve(s, args) == ResolveFrom(s, n1, ["ls"]);
    assert FindSubcommand(s.subcommands, "ls") == Some(LsCommand());
  }

  lemma LsUsage()
    ensures UsageLines(LsCommand(), ["cli", "ls"]) == ["Usage: cli ls"]
  {
    var ls := LsCommand();
    UsageLabels();
    assert Join(["cli", "ls"], " ") == "cli ls" by {
      assert ["cli", "ls"][1..] == ["ls"];
      assert "cli" + " " == "cli ";
    }
    assert UsageTails(ls) == [""];
    UsageLineAt(ls, ["cli", "ls"], 0);
    assert OptionsSuffix(ls) == "";
    assert "Usage:" + " " == "Usage: ";
    assert "Usage: " + "cli ls" == "Usage: cli ls";
    assert "Usage: cli ls" + "" == "Usage: cli ls";
  }

  lemma LsDialog()
    ensures SelectHelpDialog(Some(LsCommand()), ["cli", "ls"]) == ["ls command", "", "Usage: cli ls", ""]
  {
    var ls := LsCommand();
    LsUsage();
    assert !AnyTruthy([]);
    assert Blocks(ls) == [];
    assert DescriptionLines(ls) == ["ls command", ""];
    assert SelectHelpDialog(Some(ls), ["cli", "ls"]) == ["ls command", ""] + ["Usage: cli ls"] + [""] + [];
    assert ["ls command", ""] + ["Usage: cli ls"] + [""] + [] == ["ls command", "", "Usage: cli ls", ""];
  }

  /** `buildHelpDialog(cli, ["abc", "ls"])`: "abc" fills `<abc>`, then `ls` is selected and described. */
  lemma SubcommandDialog()
    ensures BuildHelpDialog(FullSpec(), ["abc", "ls"]) == Success(["ls command", "", "Usage: cli ls", ""])
  {
    ResolveAbcLs();
    var t := ChildNode(RootNode(FullSpec()).(argumentsParsed := ["abc"]), LsCommand());
    assert t.commandPath == ["cli", "ls"];
    LsDialog();
  }
}
