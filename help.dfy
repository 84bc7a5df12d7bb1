/**
 * The help renderer of src/command-spec.ts (`buildSelectHelpDialog`,
 * `buildHelpDialog`); the generator's output is the sequence of lines it
 * yields. The prototype's renderer is the same text with `names` in place of
 * `aliases`, so it is this function too.
 */
module Help {
  import opened Wrappers
  import opened JsString
  import opened Schemas
  import opened Resolver
  import ResolverProps

  /**
   * `[binCli, ...commandsPath].join(" ")`, which is `path` joined by spaces:
   * for an empty path the source joins `[undefined]`, and `join` renders
   * `undefined` as "", the same as joining the empty list.
   */
  function PathText(path: seq<string>): string {
    Join(path, " ")
  }

  /** `${binCli}`, which is "undefined" for an empty path. */
  function BinCliText(path: seq<string>): string {
    if path == [] then "undefined" else path[0]
  }

  /** The single line yielded when there is no spec. */
  function NotValidLine(path: seq<string>): string {
    PathText(path) + ": Is not valid command. See " + BinCliText(path) + " --help"
  }

  function DescriptionLines(s: CommandSpec): seq<string> {
    if Truthy(s.description) then [s.description.value, ""] else []
  }

  function OptionsSuffix(s: CommandSpec): string {
    if |s.options| > 0 then " [options]" else ""
  }

  /** What follows the path and the options marker on each usage line, in the order the lines are yielded. */
  function UsageTails(s: CommandSpec): seq<string> {
    (if |s.arguments| == 0 && |s.subcommands| == 0 then [""] else [])
    + (if |s.arguments| > 0 then [" " + Join(ArgumentNames(s.arguments), " ")] else [])
    + (if |s.subcommands| > 0 then [" <command>"] else [])
  }

  /** `useUsage()`: "Usage:" the first time, "or:" after, padded on the left to 6 columns. */
  function UsageLabel(used: bool): string {
    PadStart(if used then "or:" else "Usage:", 6)
  }

  function UsageLines(s: CommandSpec, path: seq<string>): seq<string> {
    var tails := UsageTails(s);
    seq(|tails|, i requires 0 <= i < |tails| => UsageLabel(i > 0) + " " + PathText(path) + OptionsSuffix(s) + tails[i])
  }

  /** `labels.reduce((a, l) => l.length > a ? l.length : a, 0)`. */
  function MaxLength(labels: seq<string>): nat
    decreases |labels|
  {
    if labels == [] then 0
    else
      var a := MaxLength(labels[..|labels| - 1]);
      var l := |labels[|labels| - 1]|;
      if l > a then l else a
  }

  /** `n(option.aliases)` for each option: its aliases joined by a space. */
  function OptionLabels(opts: seq<OptionSpec>): seq<string> {
    Map(opts, (o: OptionSpec) => Join(o.aliases, " "))
  }

  function SubcommandNames(subs: seq<CommandSpec>): seq<string> {
    Map(subs, (c: CommandSpec) => c.name)
  }

  function ArgumentDescriptions(args: seq<ArgumentSpec>): seq<Option<string>> {
    Map(args, (a: ArgumentSpec) => a.description)
  }

  function SubcommandDescriptions(subs: seq<CommandSpec>): seq<Option<string>> {
    Map(subs, (c: CommandSpec) => c.description)
  }

  function OptionDescriptions(opts: seq<OptionSpec>): seq<Option<string>> {
    Map(opts, (o: OptionSpec) => o.description)
  }

  function Max(a: nat, b: nat): nat {
    if b > a then b else a
  }

  /** `padLen`: the widest argument name, alias list or subcommand name. */
  function PadLen(s: CommandSpec): nat {
    var argumentPadLen := MaxLength(ArgumentNames(s.arguments));
    var optionsPadLen := MaxLength(OptionLabels(s.options));
    var subcommandPadLen := MaxLength(SubcommandNames(s.subcommands));
    Max(Max(Max(0, argumentPadLen), optionsPadLen), subcommandPadLen)
  }

  /** `description ?? ""`. */
  function DescText(d: Option<string>): string {
    match d
    case None => ""
    case Some(x) => x
  }

  function EntryLine(name: string, pad: nat, desc: Option<string>): string {
    "  " + PadEnd(name, pad) + "    " + DescText(desc)
  }

  /** `list.filter((e) => e.description).length` is non-zero. */
  predicate AnyTruthy(descs: seq<Option<string>>) {
    exists i :: 0 <= i < |descs| && Truthy(descs[i])
  }

  /** An Arguments, Commands or Options block: a title, one line per entry, a blank. */
  function Block(title: string, labels: seq<string>, descs: seq<Option<string>>, pad: nat): seq<string>
    requires |labels| == |descs|
  {
    if AnyTruthy(descs) then
      [title] + seq(|labels|, i requires 0 <= i < |labels| => EntryLine(labels[i], pad, descs[i])) + [""]
    else []
  }

  function ArgumentsBlock(s: CommandSpec, pad: nat): seq<string> {
    Block("Arguments", ArgumentNames(s.arguments), ArgumentDescriptions(s.arguments), pad)
  }

  function CommandsBlock(s: CommandSpec, pad: nat): seq<string> {
    Block("Commands", SubcommandNames(s.subcommands), SubcommandDescriptions(s.subcommands), pad)
  }

  function OptionsBlock(s: CommandSpec, pad: nat): seq<string> {
    Block("Options", OptionLabels(s.options), OptionDescriptions(s.options), pad)
  }

  /** The three blocks, in the order they are yielded, all padded to `padLen`. */
  function Blocks(s: CommandSpec): seq<string> {
    var pad := PadLen(s);
    ArgumentsBlock(s, pad) + CommandsBlock(s, pad) + OptionsBlock(s, pad)
  }

  /** `buildSelectHelpDialog(spec, path, _args)`, as the list of lines it yields. */
  function SelectHelpDialog(spec: Option<CommandSpec>, path: seq<string>): seq<string> {
    match spec
    case None => [NotValidLine(path)]
    case Some(s) =>
      DescriptionLines(s) + UsageLines(s, path) + [""] + Blocks(s)
  }

  /** `buildHelpDialog(spec, args)`: the help of the node `parseArgs` selects, or the error it throws. */
  function BuildHelpDialog(spec: CommandSpec, args: seq<string>): Result<seq<string>, ParseError> {
    match Resolve(spec, args)
    case Failure(e) => Failure(e)
    case Success(t) => Success(SelectHelpDialog(Some(t.spec), t.commandPath))
  }

  /** `padStart(6)` leaves "Usage:" as is and right-aligns "or:". */
  lemma UsageLabels()
    ensures UsageLabel(false) == "Usage:"
    ensures UsageLabel(true) == "   or:"
  {
    assert Spaces(3) == "   ";
  }

  /** The reduce finds the longest label: no label is longer, and a non-zero result is some label's length. */
  lemma {:induction false} MaxLengthBounds(labels: seq<string>)
    ensures forall i :: 0 <= i < |labels| ==> |labels[i]| <= MaxLength(labels)
    ensures MaxLength(labels) == 0 || exists i :: 0 <= i < |labels| && |labels[i]| == MaxLength(labels)
    decreases |labels|
  {
    if labels != [] {
      var init := labels[..|labels| - 1];
      MaxLengthBounds(init);
      forall i | 0 <= i < |init| ensures labels[i] == init[i] { }
    }
  }

  /** `padLen` is at least as wide as every label of the three blocks, and is 0 or the width of one of them. */
  lemma PadLenCoversLabels(s: CommandSpec)
    ensures forall i :: 0 <= i < |s.arguments| ==> |s.arguments[i].name| <= PadLen(s)
    ensures forall i :: 0 <= i < |s.subcommands| ==> |s.subcommands[i].name| <= PadLen(s)
    ensures forall i :: 0 <= i < |s.options| ==> |Join(s.options[i].aliases, " ")| <= PadLen(s)
    ensures PadLen(s) == 0
      || (exists i :: 0 <= i < |s.arguments| && |s.arguments[i].name| == PadLen(s))
      || (exists i :: 0 <= i < |s.subcommands| && |s.subcommands[i].name| == PadLen(s))
      || (exists i :: 0 <= i < |s.options| && |Join(s.options[i].aliases, " ")| == PadLen(s))
  {
    MaxLengthBounds(ArgumentNames(s.arguments));
    MaxLengthBounds(OptionLabels(s.options));
    MaxLengthBounds(SubcommandNames(s.subcommands));
  }

  /**
   * A block is emitted iff some entry has a truthy description. An emitted
   * block is the title, then one line per entry (in order, described or not)
   * holding the label padded to `pad` and the description after four spaces,
   * so that every description starts at column `pad + 6`, then a blank line.
   */
  lemma BlockShape(title: string, labels: seq<string>, descs: seq<Option<string>>, pad: nat)
    requires |labels| == |descs|
    requires forall i :: 0 <= i < |labels| ==> |labels[i]| <= pad
    ensures Block(title, labels, descs, pad) == [] <==> !AnyTruthy(descs)
    ensures AnyTruthy(descs) ==>
      var b := Block(title, labels, descs, pad);
      && |b| == |labels| + 2
      && b[0] == title
      && b[|b| - 1] == ""
      && forall i :: 0 <= i < |labels| ==>
           && b[i + 1] == "  " + labels[i] + Spaces(pad - |labels[i]|) + "    " + DescText(descs[i])
           && |b[i + 1]| == pad + 6 + |DescText(descs[i])|
           && b[i + 1][pad + 6..] == DescText(descs[i])
  {
    if AnyTruthy(descs) {
      var b := Block(title, labels, descs, pad);
      var entries := seq(|labels|, i requires 0 <= i < |labels| => EntryLine(labels[i], pad, descs[i]));
      assert b == [title] + entries + [""];
      forall i | 0 <= i < |labels|
        ensures b[i + 1] == "  " + labels[i] + Spaces(pad - |labels[i]|) + "    " + DescText(descs[i])
        ensures |b[i + 1]| == pad + 6 + |DescText(descs[i])|
        ensures b[i + 1][pad + 6..] == DescText(descs[i])
      {
        assert b[i + 1] == entries[i];
        EntryLineShape(labels[i], pad, descs[i]);
      }
    }
  }

  /** An entry line: two spaces, the label padded to `pad`, four spaces, the description. */
  lemma EntryLineShape(name: string, pad: nat, desc: Option<string>)
    requires |name| <= pad
    ensures EntryLine(name, pad, desc) == "  " + name + Spaces(pad - |name|) + "    " + DescText(desc)
    ensures |EntryLine(name, pad, desc)| == pad + 6 + |DescText(desc)|
    ensures EntryLine(name, pad, desc)[pad + 6..] == DescText(desc)
  {
    var p := PadEnd(name, pad);
    assert p == name + Spaces(pad - |name|) by {
      if |name| == pad { assert Spaces(0) == ""; }
    }
    var line := "  " + p + "    " + DescText(desc);
    assert line == ("  " + p + "    ") + DescText(desc);
    assert |"  " + p + "    "| == pad + 6;
  }

  /** The columns of a block: every description starts at `pad + 6`. */
  lemma BlockColumns(title: string, labels: seq<string>, descs: seq<Option<string>>, pad: nat)
    requires |labels| == |descs|
    requires forall i :: 0 <= i < |labels| ==> |labels[i]| <= pad
    ensures Block(title, labels, descs, pad) != [] <==> AnyTruthy(descs)
    ensures AnyTruthy(descs) ==>
      var b := Block(title, labels, descs, pad);
      && |b| == |labels| + 2
      && b[0] == title
      && forall i :: 0 <= i < |labels| ==> |b[i + 1]| >= pad + 6 && b[i + 1][pad + 6..] == DescText(descs[i])
  {
    BlockShape(title, labels, descs, pad);
  }

  /**
   * Each of the three blocks appears exactly when one of its entries is
   * described (Shown); an emitted block lists every entry and starts every
   * description at column `pad + 6` whenever `pad` covers every label
   * (Aligned). `padLen` covers the labels of all three blocks at once
   * (PadLenCoversLabels), so the dialog's columns line up.
   */
  lemma ArgumentsBlockShown(s: CommandSpec, pad: nat)
    ensures ArgumentsBlock(s, pad) != [] <==> exists i :: 0 <= i < |s.arguments| && Truthy(s.arguments[i].description)
  {
    var descs := ArgumentDescriptions(s.arguments);
    assert ArgumentsBlock(s, pad) != [] <==> AnyTruthy(descs);
    if AnyTruthy(descs) {
      var i :| 0 <= i < |descs| && Truthy(descs[i]);
      assert Truthy(s.arguments[i].description);
    }
    if exists i :: 0 <= i < |s.arguments| && Truthy(s.arguments[i].description) {
      var i :| 0 <= i < |s.arguments| && Truthy(s.arguments[i].description);
      assert Truthy(descs[i]);
    }
  }

  lemma ArgumentsBlockAligned(s: CommandSpec, pad: nat)
    requires forall i :: 0 <= i < |s.arguments| ==> |s.arguments[i].name| <= pad
    ensures var b := ArgumentsBlock(s, pad);
      b != [] ==>
        && |b| == |s.arguments| + 2
        && b[0] == "Arguments"
        && forall i :: 0 <= i < |s.arguments| ==> |b[i + 1]| >= pad + 6 && b[i + 1][pad + 6..] == DescText(s.arguments[i].description)
  {
    var labels := ArgumentNames(s.arguments);
    var descs := ArgumentDescriptions(s.arguments);
    var b := ArgumentsBlock(s, pad);
    assert b == Block("Arguments", labels, descs, pad);
    BlockColumns("Arguments", labels, descs, pad);
  }

  /** The Commands block, as the Arguments block. */
  lemma CommandsBlockShown(s: CommandSpec, pad: nat)
    ensures CommandsBlock(s, pad) != [] <==> exists i :: 0 <= i < |s.subcommands| && Truthy(s.subcommands[i].description)
  {
    var descs := SubcommandDescriptions(s.subcommands);
    assert CommandsBlock(s, pad) != [] <==> AnyTruthy(descs);
    if AnyTruthy(descs) {
      var i :| 0 <= i < |descs| && Truthy(descs[i]);
      assert Truthy(s.subcommands[i].description);
    }
    if exists i :: 0 <= i < |s.subcommands| && Truthy(s.subcommands[i].description) {
      var i :| 0 <= i < |s.subcommands| && Truthy(s.subcommands[i].description);
      assert Truthy(descs[i]);
    }
  }

  lemma CommandsBlockAligned(s: CommandSpec, pad: nat)
    requires forall i :: 0 <= i < |s.subcommands| ==> |s.subcommands[i].name| <= pad
    ensures var b := CommandsBlock(s, pad);
      b != [] ==>
        && |b| == |s.subcommands| + 2
        && b[0] == "Commands"
        && forall i :: 0 <= i < |s.subcommands| ==> |b[i + 1]| >= pad + 6 && b[i + 1][pad + 6..] == DescText(s.subcommands[i].description)
  {
    var labels := SubcommandNames(s.subcommands);
    var descs := SubcommandDescriptions(s.subcommands);
    var b := CommandsBlock(s, pad);
    assert b == Block("Commands", labels, descs, pad);
    BlockColumns("Commands", labels, descs, pad);
  }

  /** The Options block, as the Arguments block; its labels are the space-joined aliases. */
  lemma OptionsBlockShown(s: CommandSpec, pad: nat)
    ensures OptionsBlock(s, pad) != [] <==> exists i :: 0 <= i < |s.options| && Truthy(s.options[i].description)
  {
    var descs := OptionDescriptions(s.options);
    assert OptionsBlock(s, pad) != [] <==> AnyTruthy(descs);
    if AnyTruthy(descs) {
      var i :| 0 <= i < |descs| && Truthy(descs[i]);
      assert Truthy(s.options[i].description);
    }
    if exists i :: 0 <= i < |s.options| && Truthy(s.options[i].description) {
      var i :| 0 <= i < |s.options| && Truthy(s.options[i].description);
      assert Truthy(descs[i]);
    }
  }

  lemma OptionsBlockAligned(s: CommandSpec, pad: nat)
    requires forall i :: 0 <= i < |s.options| ==> |Join(s.options[i].aliases, " ")| <= pad
    ensures var b := OptionsBlock(s, pad);
      b != [] ==>
        && |b| == |s.options| + 2
        && b[0] == "Options"
        && forall i :: 0 <= i < |s.options| ==> |b[i + 1]| >= pad + 6 && b[i + 1][pad + 6..] == DescText(s.options[i].description)
  {
    var labels := OptionLabels(s.options);
    var descs := OptionDescriptions(s.options);
    var b := OptionsBlock(s, pad);
    assert b == Block("Options", labels, descs, pad);
    BlockColumns("Options", labels, descs, pad);
  }

  /** Without a spec the dialog is one line naming the path and pointing to `<path[0]> --help`. */
  lemma NoSpecDialog(path: seq<string>)
    ensures |SelectHelpDialog(None, path)| == 1
    ensures path != [] ==>
      SelectHelpDialog(None, path)[0] == Join(path, " ") + ": Is not valid command. See " + path[0] + " --help"
    ensures path == [] ==>
      SelectHelpDialog(None, path)[0] == ": Is not valid command. See undefined --help"
  {
  }

  lemma StartsWithConcat(a: string, b: string)
    ensures StartsWith(a + b, a)
  {
    assert forall i :: 0 <= i < |a| ==> (a + b)[i] == a[i];
  }

  /**
   * The usage lines: exactly one when the command has neither arguments nor
   * subcommands, otherwise one for arguments and one for subcommands, in that
   * order; the first is labelled "Usage:" and the others "   or:"; each names
   * the path, then " [options]" exactly when the command declares options.
   */
  lemma UsageShape(s: CommandSpec, path: seq<string>)
    ensures var u := UsageLines(s, path);
      |u| == if |s.arguments| == 0 && |s.subcommands| == 0 then 1
             else (if |s.arguments| > 0 then 1 else 0) + (if |s.subcommands| > 0 then 1 else 0)
    ensures var u := UsageLines(s, path);
      forall i :: 0 <= i < |u| ==>
        StartsWith(u[i], (if i == 0 then "Usage:" else "   or:") + " " + Join(path, " ") + (if |s.options| > 0 then " [options]" else ""))
    ensures |s.arguments| == 0 && |s.subcommands| == 0 ==>
      UsageLines(s, path) == ["Usage:" + " " + Join(path, " ") + OptionsSuffix(s)]
    ensures |s.arguments| > 0 ==>
      UsageLines(s, path)[0] == "Usage:" + " " + Join(path, " ") + OptionsSuffix(s) + " " + Join(ArgumentNames(s.arguments), " ")
    ensures |s.subcommands| > 0 ==>
      var u := UsageLines(s, path);
      u[|u| - 1] == (if |s.arguments| > 0 then "   or:" else "Usage:") + " " + Join(path, " ") + OptionsSuffix(s) + " <command>"
  {
    UsageLabels();
    var u := UsageLines(s, path);
    var tails := UsageTails(s);
    var opt := OptionsSuffix(s);
    forall i | 0 <= i < |u|
      ensures StartsWith(u[i], (if i == 0 then "Usage:" else "   or:") + " " + Join(path, " ") + opt)
    {
      var h := (if i == 0 then "Usage:" else "   or:") + " " + Join(path, " ") + opt;
      assert UsageLabel(i > 0) == (if i == 0 then "Usage:" else "   or:");
      UsageLineAt(s, path, i);
      StartsWithConcat(h, tails[i]);
    }
    var h0 := "Usage:" + " " + Join(path, " ") + opt;
    if |s.arguments| == 0 && |s.subcommands| == 0 {
      assert tails == [""];
      UsageLineAt(s, path, 0);
      assert h0 + "" == h0;
    }
    if |s.arguments| > 0 {
      assert tails[0] == " " + Join(ArgumentNames(s.arguments), " ");
      UsageLineAt(s, path, 0);
    }
    if |s.subcommands| > 0 {
      assert tails[|tails| - 1] == " <command>";
      var last := |u| - 1;
      assert UsageLabel(last > 0) == (if |s.arguments| > 0 then "   or:" else "Usage:");
      UsageLineAt(s, path, last);
    }
  }

  lemma UsageLineAt(s: CommandSpec, path: seq<string>, i: nat)
    requires i < |UsageTails(s)|
    ensures |UsageLines(s, path)| == |UsageTails(s)|
    ensures UsageLines(s, path)[i] == UsageLabel(i > 0) + " " + Join(path, " ") + OptionsSuffix(s) + UsageTails(s)[i]
  {
    var tails := UsageTails(s);
    assert UsageLines(s, path)[i] == UsageLabel(i > 0) + " " + PathText(path) + OptionsSuffix(s) + tails[i];
  }

  /** The slices of a three-part concatenation. */
  lemma Sections<T>(d: seq<T>, u: seq<T>, sep: T, blocks: seq<T>)
    ensures var lines := d + u + [sep] + blocks;
      && |lines| == |d| + |u| + 1 + |blocks|
      && lines[..|d|] == d
      && lines[|d|..|d| + |u|] == u
      && lines[|d| + |u|] == sep
      && lines[|d| + |u| + 1..] == blocks
  {
    var lines := d + u + [sep] + blocks;
    assert lines == d + (u + ([sep] + blocks));
  }

  /**
   * The dialog of a spec: the description and a blank when the description is
   * truthy, then the usage lines and a blank, then the Arguments, Commands and
   * Options blocks in that order.
   */
  lemma DialogSections(s: CommandSpec, path: seq<string>)
    ensures var lines := SelectHelpDialog(Some(s), path);
      var d := if Truthy(s.description) then 2 else 0;
      var u := UsageLines(s, path);
      && |lines| == d + |u| + 1 + |Blocks(s)|
      && (Truthy(s.description) ==> lines[0] == s.description.value && lines[1] == "")
      && lines[d..d + |u|] == u
      && lines[d + |u|] == ""
      && lines[d + |u| + 1..] == Blocks(s)
  {
    var desc := DescriptionLines(s);
    Sections(desc, UsageLines(s, path), "", Blocks(s));
    var lines := SelectHelpDialog(Some(s), path);
    if Truthy(s.description) {
      assert lines[..2] == desc;
    }
  }

  /** A joined list starts with its first element. */
  lemma JoinStartsWithFirst(parts: seq<string>, sep: string)
    requires parts != []
    ensures StartsWith(Join(parts, sep), parts[0])
  {
    if |parts| > 1 {
      StartsWithConcat(parts[0], sep + Join(parts[1..], sep));
      assert Join(parts, sep) == parts[0] + (sep + Join(parts[1..], sep));
    }
  }

  lemma StartsWithBothConcat(p: string, x: string, y: string)
    requires StartsWith(x, y)
    ensures StartsWith(p + x, p + y)
  {
    forall i | 0 <= i < |p + y| ensures (p + x)[i] == (p + y)[i] {
      if i >= |p| { assert x[i - |p|] == y[i - |p|]; }
    }
  }

  /** The line after the description is the first usage line. */
  lemma DialogLineAfterDescription(s: CommandSpec, path: seq<string>)
    ensures var lines := SelectHelpDialog(Some(s), path);
      var d := if Truthy(s.description) then 2 else 0;
      0 < |UsageLines(s, path)| && d < |lines| && lines[d] == UsageLines(s, path)[0]
  {
    DialogSections(s, path);
    var lines := SelectHelpDialog(Some(s), path);
    var d := if Truthy(s.description) then 2 else 0;
    var u := UsageLines(s, path);
    assert |UsageTails(s)| > 0;
    assert lines[d..d + |u|][0] == lines[d];
  }

  /** A string starts with whatever precedes a part that starts with `first`, followed by `first`. */
  lemma StartsWithInfix(pre: string, mid: string, post: string, first: string)
    requires StartsWith(mid, first)
    ensures StartsWith(pre + mid + post, pre + first)
  {
    StartsWithConcat(mid, post);
    StartsWithBothConcat(pre, mid + post, first);
    assert pre + mid + post == pre + (mid + post);
  }

  /** With a non-empty path the first usage line starts with "Usage: " and the path's first element. */
  lemma FirstUsageLineStarts(s: CommandSpec, path: seq<string>)
    requires path != []
    ensures 0 < |UsageLines(s, path)| && StartsWith(UsageLines(s, path)[0], "Usage: " + path[0])
  {
    UsageLineAt(s, path, 0);
    UsageLabels();
    var joined := Join(path, " ");
    var post := OptionsSuffix(s) + UsageTails(s)[0];
    JoinStartsWithFirst(path, " ");
    StartsWithInfix("Usage: ", joined, post, path[0]);
    assert UsageLines(s, path)[0] == "Usage: " + joined + post by {
      assert "Usage:" + " " == "Usage: ";
    }
  }

  /** The first usage line of a dialog with a non-empty path, right after the description, starts with "Usage: " and the path's first element. */
  lemma FirstUsageLine(s: CommandSpec, path: seq<string>)
    requires path != []
    ensures var lines := SelectHelpDialog(Some(s), path);
      var d := if Truthy(s.description) then 2 else 0;
      d < |lines| && StartsWith(lines[d], "Usage: " + path[0])
  {
    DialogLineAfterDescription(s, path);
    FirstUsageLineStarts(s, path);
  }

  /**
   * `buildHelpDialog` throws exactly the error `parseArgs` throws; otherwise it
   * renders the selected node, so it never yields the no-spec line, and its
   * first usage line starts with "Usage: " and the top-level command's name.
   */
  lemma HelpOfResolvedNode(spec: CommandSpec, args: seq<string>)
    ensures BuildHelpDialog(spec, args).Failure? <==> Resolve(spec, args).Failure?
    ensures BuildHelpDialog(spec, args).Failure? ==> BuildHelpDialog(spec, args).error == Resolve(spec, args).error
    ensures BuildHelpDialog(spec, args).Success? ==>
      var t := Resolve(spec, args).value;
      var lines := BuildHelpDialog(spec, args).value;
      var d := if Truthy(t.spec.description) then 2 else 0;
      && d < |lines|
      && StartsWith(lines[d], "Usage: " + spec.name)
  {
    if Resolve(spec, args).Success? {
      var t := Resolve(spec, args).value;
      ResolverProps.ResolveBuildsWellFormedChain(spec, args);
      ResolverProps.PathStartsWithRoot(spec, t);
      FirstUsageLine(t.spec, t.commandPath);
    }
  }
}
