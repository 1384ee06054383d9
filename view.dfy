/** What the overlay shows for the player's data: the text of a scalar value,
    the labels of the collapsible trees that arrays and maps become, the title
    of a key binding, and the name filters of the property and command lists. */
module PropertyView {
  import opened Util
  import opened Text
  import opened MpvNode
  import CommandList

  // ---------------------------------------------------------------------------
  // Scalar values

  /** A value as shown: its text, and whether it is drawn in the disabled colour. */
  datatype Shown = Shown(text: string, dimmed: bool)

  /** The value column of one row. Lists never reach this switch from the tree
      walk; like every other format without a case they read as unavailable. */
  function ValueText(n: Node): (r: Shown)
    ensures r.dimmed <==> n.NoneValue? || n.NodeArray? || n.NodeMap? || n.Unhandled?
    ensures r.dimmed ==> r.text == (if n.NoneValue? then "<Empty>" else "<Unavailable>")
  {
    match n
    case NoneValue => Shown("<Empty>", true)
    case Str(s) => Shown(s, false)
    case OsdStr(s) => Shown(s, false)
    case Flag(b) => Shown(if b then "yes" else "no", false)
    case Int64(i) => Shown(IntString(i), false)
    case Double(printed) => Shown(printed, false)
    case ByteArray(size) => Shown("byte array [" + IntString(size) + "]", false)
    case _ => Shown("<Unavailable>", true)
  }

  /** Strings are shown verbatim and flags as yes or no. */
  lemma ValueTextCases(n: Node)
    ensures n.Str? || n.OsdStr? ==> ValueText(n).text == n.s
    ensures n.Flag? ==> (ValueText(n).text == "yes" <==> n.b) && (ValueText(n).text == "no" <==> !n.b)
  {
  }

  /** An integer's text reads back as the integer. */
  lemma ValueTextInt(i: int)
    ensures ParseInt(ValueText(Int64(i)).text) == i
  {
    ParseIntString(i);
  }

  // ---------------------------------------------------------------------------
  // The tree of a property

  /** A row of the property tree: a scalar with its title, or a collapsible
      node with its label, whether it starts open, and its children. */
  datatype View =
    | Leaf(title: string, value: Shown)
    | Branch(heading: string, startsOpen: bool, children: seq<View>)

  function ArrayLabel(name: string, count: nat): string {
    name + " [" + IntString(count) + "]"
  }

  function MapLabel(name: string, count: nat): string {
    name + " (" + IntString(count) + ")"
  }

  function ElementTitle(i: nat): string {
    "#" + IntString(i)
  }

  /** The rows drawn for property `name`. Array elements are titled by
      index one level deeper; map entries are titled by key and, as the
      recursive call passes no depth, drawn at depth 0. A map starts open
      only below the top level. */
  function Render(name: string, n: Node, depth: nat): (r: View)
    ensures r.Branch? <==> n.NodeArray? || n.NodeMap?
    ensures r.Branch? ==> |r.children| == |ValuesOf(n)|
    ensures r.Leaf? ==> r == Leaf(name, ValueText(n))
    decreases n
  {
    match n
    case NodeArray(values) =>
      Branch(ArrayLabel(name, |values|), false,
        seq(|values|, i requires 0 <= i < |values| => Render(ElementTitle(i), values[i], depth + 1)))
    case NodeMap(entries) =>
      Branch(MapLabel(name, |entries|), depth > 0,
        seq(|entries|, i requires 0 <= i < |entries| => Render(entries[i].key, entries[i].value, 0)))
    case _ => Leaf(name, ValueText(n))
  }

  /** The scalars of a node, in the order the host lists them: a list node
      contributes the scalars of its elements or entry values, any other node
      is itself a scalar. */
  function Scalars(n: Node): seq<Node>
    decreases n, 1
  {
    match n
    case NodeArray(values) => ScalarsOf(values, n)
    case NodeMap(entries) => ScalarsOf(ValuesOf(n), n)
    case _ => [n]
  }

  /** The scalars of a list of values, taken one value after the other. */
  function ScalarsOf(values: seq<Node>, ghost parent: Node): seq<Node>
    requires forall i :: 0 <= i < |values| ==> values[i] < parent
    decreases parent, 0, |values|
  {
    if values == [] then []
    else ScalarsOf(values[..|values| - 1], parent) + Scalars(values[|values| - 1])
  }

  /** The value column of every row of a rendered tree, top to bottom. */
  function LeafValues(v: View): seq<Shown>
    decreases v, 1
  {
    match v
    case Leaf(_, value) => [value]
    case Branch(_, _, children) => LeafValuesOf(children, v)
  }

  function LeafValuesOf(vs: seq<View>, ghost parent: View): seq<Shown>
    requires forall i :: 0 <= i < |vs| ==> vs[i] < parent
    decreases parent, 0, |vs|
  {
    if vs == [] then []
    else LeafValuesOf(vs[..|vs| - 1], parent) + LeafValues(vs[|vs| - 1])
  }

  /** The value texts of a sequence of scalars. */
  function Texts(ns: seq<Node>): (r: seq<Shown>)
    ensures |r| == |ns|
    ensures forall i :: 0 <= i < |ns| ==> r[i] == ValueText(ns[i])
  {
    seq(|ns|, i requires 0 <= i < |ns| => ValueText(ns[i]))
  }

  lemma TextsConcat(a: seq<Node>, b: seq<Node>)
    ensures Texts(a + b) == Texts(a) + Texts(b)
  {
    assert forall i :: 0 <= i < |a + b| ==> (a + b)[i] == if i < |a| then a[i] else b[i - |a|];
  }

  /** Every scalar of a property is drawn as one row carrying its value text,
      in the host's order, however deeply arrays and maps nest and whatever
      titles and depths the rows get. */
  lemma {:induction false} RenderLeaves(name: string, n: Node, depth: nat)
    ensures LeafValues(Render(name, n, depth)) == Texts(Scalars(n))
    decreases n, 1
  {
    var v := Render(name, n, depth);
    match n
    case NodeArray(values) =>
      var titles := seq(|values|, i requires 0 <= i < |values| => ElementTitle(i));
      var depths := seq(|values|, i requires 0 <= i < |values| => depth + 1);
      assert v.children == seq(|values|, i requires 0 <= i < |values| => Render(titles[i], values[i], depths[i]));
      RenderLeavesOf(titles, values, depths, v, n, |values|);
      assert v.children[..|values|] == v.children && values[..|values|] == values;
    case NodeMap(entries) =>
      var values := ValuesOf(n);
      var titles := seq(|entries|, i requires 0 <= i < |entries| => entries[i].key);
      var depths := seq(|entries|, i requires 0 <= i < |entries| => 0);
      assert forall i :: 0 <= i < |entries| ==> entries[i].value < entries[i] < n;
      assert v.children == seq(|values|, i requires 0 <= i < |values| => Render(titles[i], values[i], depths[i]));
      RenderLeavesOf(titles, values, depths, v, n, |values|);
      assert v.children[..|values|] == v.children && values[..|values|] == values;
    case _ =>
  }

  /** The first `k` children of a branch carry the rows of the first `k` values. */
  lemma {:induction false} RenderLeavesOf(titles: seq<string>, values: seq<Node>, depths: seq<nat>,
                                          v: View, n: Node, k: nat)
    requires |titles| == |values| == |depths| && k <= |values|
    requires v.Branch? && v.children == seq(|values|, i requires 0 <= i < |values| => Render(titles[i], values[i], depths[i]))
    requires forall i :: 0 <= i < |values| ==> values[i] < n
    ensures LeafValuesOf(v.children[..k], v) == Texts(ScalarsOf(values[..k], n))
    decreases n, 0, k
  {
    if k > 0 {
      var cs := v.children[..k];
      var vs := values[..k];
      assert cs[..k - 1] == v.children[..k - 1];
      assert vs[..k - 1] == values[..k - 1];
      RenderLeavesOf(titles, values, depths, v, n, k - 1);
      RenderLeaves(titles[k - 1], values[k - 1], depths[k - 1]);
      TextsConcat(ScalarsOf(values[..k - 1], n), Scalars(values[k - 1]));
    }
  }

  /** A string inside a map inside an array: the array is closed, the map
      below it starts open, and the string is a row titled by its key. */
  lemma RenderNestedExample()
    ensures Render("p", NodeArray([NodeMap([KeyValue("k", Str("v"))])]), 0) ==
      Branch("p [1]", false, [Branch("#0 (1)", true, [Leaf("k", Shown("v", false))])])
  {
    assert Digit(1) == '1' && Digit(0) == '0';
    assert IntString(1) == "1" && IntString(0) == "0";
    var leaf := Render("k", Str("v"), 0);
    assert leaf == Leaf("k", Shown("v", false));
    var m := NodeMap([KeyValue("k", Str("v"))]);
    assert ElementTitle(0) == "#0";
    assert MapLabel("#0", 1) == "#0 (1)";
    assert ArrayLabel("p", 1) == "p [1]";
    var inner := Render("#0", m, 1);
    assert inner.children == [leaf];
    assert inner == Branch("#0 (1)", true, [leaf]);
    var outer := Render("p", NodeArray([m]), 0);
    assert outer.children == [inner];
  }

  /** A map directly inside a map is drawn at depth 0, so it starts closed. */
  lemma MapInMapStartsClosed(outer: string, inner: string, entries: seq<KeyValue>)
    ensures var v := Render(outer, NodeMap([KeyValue(inner, NodeMap(entries))]), 1);
      v.Branch? && v.startsOpen && |v.children| == 1 && v.children[0].Branch? && !v.children[0].startsOpen
  {
  }

  // ---------------------------------------------------------------------------
  // Key bindings

  datatype Binding = Binding(section: string, key: string, cmd: string, comment: string, priority: int, weak: bool)

  const TitleWidth: nat := 50

  /** The binding title as drawn: the comment, or the command when there is
      no comment, cut to 50 characters, with "..." added whenever the cut
      title is 50 characters long. */
  function BindingTitleAsWritten(b: Binding): (r: string)
    ensures var title := if b.comment == "" then b.cmd else b.comment;
      && Min(|title|, TitleWidth) <= |r| <= TitleWidth + 3
      && r[..Min(|title|, TitleWidth)] == title[..Min(|title|, TitleWidth)]
      && (|r| > TitleWidth <==> |title| >= TitleWidth)
  {
    var title := if b.comment == "" then b.cmd else b.comment;
    var cut := title[..Min(|title|, TitleWidth)];
    if |cut| == TitleWidth then cut + "..." else cut
  }

  /** A comment of exactly 50 characters is shown whole and still gets the
      ellipsis that is meant to mark a cut. */
  lemma BindingTitleFiftyChars()
    ensures var comment := seq(50, _ => 'a');
      var b := Binding("default", "q", "quit", comment, 0, false);
      BindingTitleAsWritten(b) == comment + "..."
  {
  }

  /** The binding title with the ellipsis only when something was cut. */
  function BindingTitle(b: Binding): (r: string)
    ensures var title := if b.comment == "" then b.cmd else b.comment;
      && |r| == (if |title| > TitleWidth then TitleWidth + 3 else |title|)
      && r[..Min(|title|, TitleWidth)] == title[..Min(|title|, TitleWidth)]
      && (|title| > TitleWidth ==> r[TitleWidth..] == "...")
  {
    var title := if b.comment == "" then b.cmd else b.comment;
    if |title| > TitleWidth then title[..TitleWidth] + "..." else title
  }

  /** Both rules agree except on titles of exactly 50 characters. */
  lemma BindingTitleAgrees(b: Binding)
    ensures var title := if b.comment == "" then b.cmd else b.comment;
      BindingTitleAsWritten(b) == BindingTitle(b) <==> |title| != TitleWidth
  {
    var title := if b.comment == "" then b.cmd else b.comment;
    if |title| == TitleWidth {
      assert |BindingTitleAsWritten(b)| == TitleWidth + 3;
    }
  }

  // ---------------------------------------------------------------------------
  // List filters

  /** The property list shows a name when the filter is empty or a substring of it. */
  predicate PropertyMatches(name: string, pattern: string) {
    pattern == "" || Contains(name, pattern)
  }

  function FilterProperties(props: seq<string>, pattern: string): (r: seq<string>)
    ensures |r| <= |props|
    ensures forall x :: x in r <==> x in props && PropertyMatches(x, pattern)
  {
    if props == [] then []
    else
      var last := props[|props| - 1];
      FilterProperties(props[..|props| - 1], pattern) + (if PropertyMatches(last, pattern) then [last] else [])
  }

  /** Filtering distributes over concatenation, so the shown properties keep
      the order of the list. */
  lemma {:induction false} FilterPropertiesConcat(a: seq<string>, b: seq<string>, pattern: string)
    ensures FilterProperties(a + b, pattern) == FilterProperties(a, pattern) + FilterProperties(b, pattern)
    decreases |b|
  {
    if b == [] {
      assert a + b == a;
    } else {
      var b' := b[..|b| - 1];
      assert (a + b)[..|a + b| - 1] == a + b';
      assert (a + b)[|a + b| - 1] == b[|b| - 1];
      FilterPropertiesConcat(a, b', pattern);
    }
  }

  /** An empty filter shows every property, in order. */
  lemma {:induction false} FilterPropertiesEmpty(props: seq<string>)
    ensures FilterProperties(props, "") == props
  {
    if props != [] {
      FilterPropertiesEmpty(props[..|props| - 1]);
    }
  }

  /** The empty pattern occurs in every name, so the explicit empty test
      agrees with the substring search. */
  lemma EmptyPatternContained(name: string)
    ensures Contains(name, "")
  {
    assert OccursAt(name, "", 0);
  }

  /** The command list shows a command when its name starts with the filter. */
  function FilterCommands(commands: seq<CommandList.Command>, prefix: string): (r: seq<CommandList.Command>)
    ensures |r| <= |commands|
    ensures forall c :: c in r <==> c in commands && StartsWith(c.name, prefix)
  {
    if commands == [] then []
    else
      var last := commands[|commands| - 1];
      FilterCommands(commands[..|commands| - 1], prefix) + (if StartsWith(last.name, prefix) then [last] else [])
  }

  /** Filtering distributes over concatenation, so the shown commands keep
      the order of the list. */
  lemma {:induction false} FilterCommandsConcat(a: seq<CommandList.Command>, b: seq<CommandList.Command>, prefix: string)
    ensures FilterCommands(a + b, prefix) == FilterCommands(a, prefix) + FilterCommands(b, prefix)
    decreases |b|
  {
    if b == [] {
      assert a + b == a;
    } else {
      var b' := b[..|b| - 1];
      assert (a + b)[..|a + b| - 1] == a + b';
      assert (a + b)[|a + b| - 1] == b[|b| - 1];
      FilterCommandsConcat(a, b', prefix);
    }
  }

  /** A longer filter shows no command a shorter one hides. */
  lemma FilterCommandsNarrows(commands: seq<CommandList.Command>, prefix: string, more: string)
    ensures forall c :: c in FilterCommands(commands, prefix + more) ==> c in FilterCommands(commands, prefix)
  {
    forall c | c in FilterCommands(commands, prefix + more)
      ensures c in FilterCommands(commands, prefix)
    {
      assert c.name[..|prefix|] == (prefix + more)[..|prefix|];
    }
  }
}
