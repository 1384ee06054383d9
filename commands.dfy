/** The command list as the player reports it (an array of maps with the keys
    "name", "args" and "vararg", each argument a map with "name" and
    "optional") and its rendering into (name, signature) pairs such as
    ("seek", "target <flags>") or ("run", "command ..."). */
module CommandList {
  import opened Util
  import opened Text
  import opened MpvNode

  /** One formatted entry: the command's name and its rendered arguments. */
  datatype Command = Command(name: string, args: string)

  // ---------------------------------------------------------------------------
  // Reading a map node

  /** The value of the last entry whose key is `key`: the reading loops assign
      on every match, so a later duplicate key wins. */
  function Lookup(entries: seq<KeyValue>, key: string): (r: Option<Node>)
    ensures r.None? <==> forall j :: 0 <= j < |entries| ==> entries[j].key != key
    ensures r.Some? ==>
      exists j :: 0 <= j < |entries| && entries[j].key == key && entries[j].value == r.value &&
        (forall k :: j < k < |entries| ==> entries[k].key != key)
  {
    if entries == [] then None
    else if entries[|entries| - 1].key == key then Some(entries[|entries| - 1].value)
    else Lookup(entries[..|entries| - 1], key)
  }

  /** A string field, "" when it is missing. */
  function StringField(entries: seq<KeyValue>, key: string): string {
    match Lookup(entries, key)
    case Some(v) => StringOf(v)
    case None => ""
  }

  /** A flag field, false when it is missing. */
  function FlagField(entries: seq<KeyValue>, key: string): bool {
    match Lookup(entries, key)
    case Some(v) => FlagOf(v)
    case None => false
  }

  /** The "name" field, or None when the map has none. */
  function NameField(entries: seq<KeyValue>): Option<string> {
    match Lookup(entries, "name")
    case Some(v) => Some(StringOf(v))
    case None => None
  }

  /** Reading one more entry: it wins if it carries the key. */
  lemma LookupSnoc(entries: seq<KeyValue>, j: nat, key: string)
    requires j < |entries|
    ensures Lookup(entries[..j + 1], key) ==
      if entries[j].key == key then Some(entries[j].value) else Lookup(entries[..j], key)
  {
    assert entries[..j + 1][..j] == entries[..j];
  }

  // ---------------------------------------------------------------------------
  // The specification of the rendering

  /** One argument: its name, in angle brackets when it is optional. */
  function ArgText(arg: Node): string {
    var entries := EntriesOf(arg);
    var name := StringField(entries, "name");
    if FlagField(entries, "optional") then "<" + name + ">" else name
  }

  function ArgTexts(values: seq<Node>): (r: seq<string>)
    ensures |r| == |values|
  {
    seq(|values|, k requires 0 <= k < |values| => ArgText(values[k]))
  }

  /** The arguments of every "args" entry of a command map, in entry order. */
  function ArgsIn(entries: seq<KeyValue>): seq<string> {
    if entries == [] then []
    else
      var last := entries[|entries| - 1];
      ArgsIn(entries[..|entries| - 1]) + (if last.key == "args" then ArgTexts(ValuesOf(last.value)) else [])
  }

  /** The argument list shown after a command name: the arguments separated by
      single spaces, then " ..." for a variadic command; nothing at all, even
      for a variadic command, when there are no arguments. */
  function Signature(args: seq<string>, vararg: bool): (r: string)
    ensures |r| == if args == [] then 0 else TotalLength(args) + |args| - 1 + (if vararg then 4 else 0)
  {
    if args == [] then ""
    else
      JoinLength(args, ' ');
      Join(args, ' ') + (if vararg then " ..." else "")
  }

  /** The entry for one command map; None when it has no "name". */
  function CommandOf(item: Node): Option<Command> {
    var entries := EntriesOf(item);
    match NameField(entries)
    case None => None
    case Some(name) => Some(Command(name, Signature(ArgsIn(entries), FlagField(entries, "vararg"))))
  }

  /** The entries of every named command, in list order. */
  function CommandsIn(items: seq<Node>): (r: seq<Command>)
    ensures |r| <= |items|
  {
    if items == [] then []
    else
      var rest := CommandsIn(items[..|items| - 1]);
      match CommandOf(items[|items| - 1])
      case None => rest
      case Some(c) => rest + [c]
  }

  function Formatted(node: Node): seq<Command> {
    CommandsIn(ValuesOf(node))
  }

  // ---------------------------------------------------------------------------
  // The loops of formatCommands

  /** The loop over one argument map. */
  method FormatArg(arg: Node) returns (text: string)
    ensures text == ArgText(arg)
  {
    var entries := EntriesOf(arg);
    var name := "";
    var optional := false;
    var l := 0;
    while l < |entries|
      invariant l <= |entries|
      invariant name == StringField(entries[..l], "name")
      invariant optional == FlagField(entries[..l], "optional")
    {
      LookupSnoc(entries, l, "name");
      LookupSnoc(entries, l, "optional");
      if entries[l].key == "name" {
        name := StringOf(entries[l].value);
      }
      if entries[l].key == "optional" {
        optional := FlagOf(entries[l].value);
      }
      l := l + 1;
    }
    assert entries[..l] == entries;
    text := if optional then "<" + name + ">" else name;
  }

  /** The loop over the arguments of one "args" entry. */
  method FormatArgs(values: seq<Node>) returns (texts: seq<string>)
    ensures texts == ArgTexts(values)
  {
    texts := [];
    var k := 0;
    while k < |values|
      invariant k <= |values|
      invariant texts == ArgTexts(values)[..k]
    {
      var text := FormatArg(values[k]);
      assert ArgTexts(values)[..k + 1] == ArgTexts(values)[..k] + [text];
      texts := texts + [text];
      k := k + 1;
    }
    assert ArgTexts(values)[..k] == ArgTexts(values);
  }

  /** Reading one more entry of a command map adds its arguments when it is "args". */
  lemma ArgsInSnoc(entries: seq<KeyValue>, j: nat)
    requires j < |entries|
    ensures ArgsIn(entries[..j + 1]) ==
      ArgsIn(entries[..j]) + (if entries[j].key == "args" then ArgTexts(ValuesOf(entries[j].value)) else [])
  {
    assert entries[..j + 1][..j] == entries[..j];
  }

  /** The loop over one command map; the arguments are read by FormatArgs. */
  method FormatCommand(item: Node) returns (cmd: Option<Command>)
    ensures cmd == CommandOf(item)
  {
    var entries := EntriesOf(item);
    var name: Option<string> := None;
    var args: seq<string> := [];
    var vararg := false;
    var j := 0;
    while j < |entries|
      invariant j <= |entries|
      invariant name == NameField(entries[..j])
      invariant args == ArgsIn(entries[..j])
      invariant vararg == FlagField(entries[..j], "vararg")
    {
      LookupSnoc(entries, j, "name");
      LookupSnoc(entries, j, "vararg");
      ArgsInSnoc(entries, j);
      var key := entries[j].key;
      var value := entries[j].value;
      if key == "name" {
        name := Some(StringOf(value));
      }
      if key == "args" {
        var texts := FormatArgs(ValuesOf(value));
        args := args + texts;
      }
      if key == "vararg" {
        vararg := FlagOf(value);
      }
      j := j + 1;
    }
    assert entries[..j] == entries;
    if name.None? {
      cmd := None;
    } else {
      var argsStr := "";
      if args != [] {
        argsStr := Join(args, ' ');
        if vararg {
          argsStr := argsStr + " ...";
        }
      }
      assert argsStr == Signature(args, vararg);
      cmd := Some(Command(name.value, argsStr));
    }
  }

  /** The outer loop: one entry per named command, unnamed ones skipped. */
  method FormatCommands(node: Node) returns (commands: seq<Command>)
    ensures commands == Formatted(node)
  {
    var items := ValuesOf(node);
    commands := [];
    var i := 0;
    while i < |items|
      invariant i <= |items|
      invariant commands == CommandsIn(items[..i])
    {
      assert items[..i + 1][..i] == items[..i];
      var cmd := FormatCommand(items[i]);
      if cmd.Some? {
        commands := commands + [cmd.value];
      }
      i := i + 1;
    }
    assert items[..i] == items;
  }

  // ---------------------------------------------------------------------------
  // Properties

  /** Formatting distributes over concatenation of the list: every command is
      formatted on its own, in list order. */
  lemma {:induction false} CommandsInConcat(a: seq<Node>, b: seq<Node>)
    ensures CommandsIn(a + b) == CommandsIn(a) + CommandsIn(b)
    decreases |b|
  {
    if b == [] {
      assert a + b == a;
    } else {
      var b' := b[..|b| - 1];
      assert (a + b)[..|a + b| - 1] == a + b';
      assert (a + b)[|a + b| - 1] == b[|b| - 1];
      CommandsInConcat(a, b');
    }
  }

  /** A map without a "name" entry contributes nothing. */
  lemma UnnamedSkipped(a: seq<Node>, item: Node, b: seq<Node>)
    requires forall j :: 0 <= j < |EntriesOf(item)| ==> EntriesOf(item)[j].key != "name"
    ensures CommandsIn(a + [item] + b) == CommandsIn(a) + CommandsIn(b)
  {
    CommandsInConcat(a + [item], b);
    CommandsInConcat(a, [item]);
    assert [item][..0] == [];
  }

  /** With arguments whose names contain no space, the signature splits back
      into the arguments, followed by "..." exactly when the command is
      variadic. */
  lemma SignatureSplit(args: seq<string>, vararg: bool)
    requires args != []
    requires forall i :: 0 <= i < |args| ==> ' ' !in args[i]
    ensures Split(Signature(args, vararg), ' ') == args + (if vararg then ["..."] else [])
  {
    if vararg {
      var xs := args + ["..."];
      assert xs[..|xs| - 1] == args;
      assert Join(xs, ' ') == Join(args, ' ') + " ...";
      SplitJoin(xs, ' ');
    } else {
      SplitJoin(args, ' ');
      assert Signature(args, vararg) == Join(args, ' ');
      assert args + [] == args;
    }
  }

  // The list as the player builds it, from abstract command descriptions

  datatype ArgSpec = ArgSpec(name: string, optional: bool)
  datatype CommandSpec = CommandSpec(name: string, args: seq<ArgSpec>, vararg: bool)

  function ArgNode(a: ArgSpec): Node {
    NodeMap([KeyValue("name", Str(a.name)), KeyValue("optional", Flag(a.optional))])
  }

  function CommandNode(c: CommandSpec): Node {
    NodeMap([
      KeyValue("name", Str(c.name)),
      KeyValue("args", NodeArray(seq(|c.args|, k requires 0 <= k < |c.args| => ArgNode(c.args[k])))),
      KeyValue("vararg", Flag(c.vararg))])
  }

  function CommandNodes(cs: seq<CommandSpec>): (r: seq<Node>)
    ensures |r| == |cs|
  {
    if cs == [] then [] else CommandNodes(cs[..|cs| - 1]) + [CommandNode(cs[|cs| - 1])]
  }

  function CommandListNode(cs: seq<CommandSpec>): Node {
    NodeArray(CommandNodes(cs))
  }

  /** How an argument is meant to be shown. */
  function Shown(a: ArgSpec): string {
    if a.optional then "<" + a.name + ">" else a.name
  }

  function ShownArgs(args: seq<ArgSpec>): (r: seq<string>)
    ensures |r| == |args|
  {
    seq(|args|, k requires 0 <= k < |args| => Shown(args[k]))
  }

  /** What the entry for a described command is meant to be. */
  function Expected(c: CommandSpec): Command {
    Command(c.name, Signature(ShownArgs(c.args), c.vararg))
  }

  /** The entries meant for described commands, one each, in order. */
  function ExpectedAll(cs: seq<CommandSpec>): (r: seq<Command>)
    ensures |r| == |cs|
    ensures forall i :: 0 <= i < |cs| ==> r[i] == Expected(cs[i])
  {
    if cs == [] then [] else ExpectedAll(cs[..|cs| - 1]) + [Expected(cs[|cs| - 1])]
  }

  /** Formatting the list the player reports gives every command, in order,
      with its name and its arguments shown as described, joined by spaces. */
  lemma {:induction false} FormatCommandList(cs: seq<CommandSpec>)
    ensures Formatted(CommandListNode(cs)) == ExpectedAll(cs)
  {
    if cs != [] {
      var n := |cs| - 1;
      var items := CommandNodes(cs);
      assert items[..n] == CommandNodes(cs[..n]);
      FormatCommandList(cs[..n]);
      CommandOfEncoded(cs[n]);
    }
  }

  /** One encoded argument reads back as its name, bracketed when optional. */
  lemma ArgTextEncoded(a: ArgSpec)
    ensures ArgText(ArgNode(a)) == Shown(a)
  {
    var e := EntriesOf(ArgNode(a));
    assert e[..1] == [e[0]];
    assert [e[0]][..0] == [];
  }

  /** The arguments of an encoded command read back as shown. */
  lemma ArgTextsEncoded(args: seq<ArgSpec>)
    ensures ArgTexts(seq(|args|, k requires 0 <= k < |args| => ArgNode(args[k]))) == ShownArgs(args)
  {
    var values := seq(|args|, k requires 0 <= k < |args| => ArgNode(args[k]));
    forall k | 0 <= k < |args|
      ensures ArgTexts(values)[k] == ShownArgs(args)[k]
    {
      ArgTextEncoded(args[k]);
    }
  }

  /** The name and vararg fields of an encoded command read back. */
  lemma FieldsEncoded(c: CommandSpec)
    ensures NameField(EntriesOf(CommandNode(c))) == Some(c.name)
    ensures FlagField(EntriesOf(CommandNode(c)), "vararg") == c.vararg
  {
    var entries := EntriesOf(CommandNode(c));
    assert entries[..2] == [entries[0], entries[1]];
    assert [entries[0], entries[1]][..1] == [entries[0]];
  }

  /** A three-entry map whose middle entry alone is "args" has that entry's arguments. */
  lemma ArgsInMiddle(e0: KeyValue, e1: KeyValue, e2: KeyValue)
    requires e0.key != "args" && e1.key == "args" && e2.key != "args"
    ensures ArgsIn([e0, e1, e2]) == ArgTexts(ValuesOf(e1.value))
  {
    assert [e0][..0] == [];
    assert ArgsIn([e0]) == [];
    assert [e0, e1][..1] == [e0];
    assert ArgsIn([e0, e1]) == ArgTexts(ValuesOf(e1.value));
    assert [e0, e1, e2][..2] == [e0, e1];
  }

  /** The arguments of an encoded command are those of its "args" entry. */
  lemma ArgsEncoded(c: CommandSpec)
    ensures ArgsIn(EntriesOf(CommandNode(c))) == ShownArgs(c.args)
  {
    var entries := EntriesOf(CommandNode(c));
    assert "name" != "args" && "vararg" != "args";
    ArgsInMiddle(entries[0], entries[1], entries[2]);
    ArgTextsEncoded(c.args);
  }

  /** One encoded command reads back as its name and shown arguments. */
  lemma CommandOfEncoded(c: CommandSpec)
    ensures CommandOf(CommandNode(c)) == Some(Expected(c))
  {
    ArgsEncoded(c);
    FieldsEncoded(c);
  }
}
