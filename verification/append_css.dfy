/**
 * `appendCSS(item, css)`: a pre-order walk that turns every `TEXT` node it
 * reaches into one `.name { ... }` rule, built from the node's `style` keys
 * listed in `validProperties`, appended to `css`. A `TEXT` node ends the
 * walk along its branch; any other node passes the growing text through
 * its children from left to right.
 *
 * The module-level counter `iterator`, bumped once per `TEXT` node, is
 * returned as `Emitted.texts`: how much one call made it grow.
 *
 * The walk is written once, as `Walk`, over the text a `TEXT` node
 * contributes; `AppendCss` is the walk with the rule text of the source.
 */
module Stylesheet {
  import opened Wrappers
  import opened Json
  import opened DesignTree

  /** `validProperties`: the style keys that become CSS properties, with the property names. */
  const ValidProperties: Object<string> := [
    ("fontFamily", "font-family"),
    ("fontWeight", "font-weight"),
    ("fontSize", "font-size"),
    ("letterSpacing", "letter-spacing"),
    ("lineHeightPx", "letter-height")
  ]

  /** `validProperties[key]`: the CSS property for a style key, if it has one. */
  function PropertyName(key: string): Option<string> {
    Get(ValidProperties, key)
  }

  /**
   * Exactly five keys are known, and `lineHeightPx` maps to the property
   * `letter-height` (not `line-height`).
   */
  lemma ValidPropertiesTable(key: string)
    ensures PropertyName(key).Some? <==>
      key in {"fontFamily", "fontWeight", "fontSize", "letterSpacing", "lineHeightPx"}
    ensures key == "fontFamily" ==> PropertyName(key) == Some("font-family")
    ensures key == "fontWeight" ==> PropertyName(key) == Some("font-weight")
    ensures key == "fontSize" ==> PropertyName(key) == Some("font-size")
    ensures key == "letterSpacing" ==> PropertyName(key) == Some("letter-spacing")
    ensures key == "lineHeightPx" ==> PropertyName(key) == Some("letter-height")
  {
  }

  /** The texts `f` gives the elements of `xs`, joined in order. */
  function Concat<T>(xs: seq<T>, f: T -> string): string {
    if |xs| == 0 then "" else f(xs[0]) + Concat(xs[1..], f)
  }

  lemma {:induction false} ConcatAppend<T>(a: seq<T>, b: seq<T>, f: T -> string)
    ensures Concat(a + b, f) == Concat(a, f) + Concat(b, f)
  {
    if |a| == 0 {
      assert a + b == b;
    } else {
      assert (a + b)[0] == a[0];
      assert (a + b)[1..] == a[1..] + b;
      ConcatAppend(a[1..], b, f);
    }
  }

  /** The text of an element in the middle of a sequence sits between the texts of its neighbours. */
  lemma ConcatAround<T>(a: seq<T>, x: T, b: seq<T>, f: T -> string)
    ensures Concat(a + [x] + b, f) == Concat(a, f) + f(x) + Concat(b, f)
  {
    ConcatAppend(a, [x], f);
    ConcatAppend(a + [x], b, f);
    assert [x][1..] == [];
    assert Concat([x], f) == f(x) + "" == f(x);
  }

  /**
   * The line one style entry adds inside a rule: a tab-indented line for a
   * key `validProperties` knows, nothing for any other key.
   */
  function Declaration(key: string, v: Value, show: real -> string): (r: string)
    ensures PropertyName(key).None? <==> r == ""
    ensures r != "" ==> r[0] == '\t' && r[|r| - 1] == '\n'
  {
    match PropertyName(key)
    case None => ""
    case Some(prop) => "\t" + prop + ": " + Display(v, show) + ";\n"
  }

  function DeclarationOf(show: real -> string): ((string, Value)) -> string {
    (entry: (string, Value)) => Declaration(entry.0, entry.1, show)
  }

  /** The lines of a rule, one `Declaration` per style entry, in key order. */
  function Declarations(style: Object<Value>, show: real -> string): string {
    Concat(style, DeclarationOf(show))
  }

  /** The rule a `TEXT` node named `name` with style `style` contributes. */
  function Block(name: string, style: Object<Value>, show: real -> string): string {
    "." + name + " {\n" + Declarations(style, show) + "}\n\n"
  }

  /** The rule text of a styled node (`Walk` never asks for an unstyled one). */
  function RuleOf(show: real -> string): Node -> string {
    (n: Node) => if n.style.Some? then Block(n.name, n.style.value, show) else ""
  }

  /** The generated text, and the number of `TEXT` nodes that contributed to it. */
  datatype Emitted = Emitted(css: string, texts: nat)

  /**
   * The walk of `appendCSS`, with `rule` giving the text of a styled
   * `TEXT` node. The text only ever grows, and it grows only when some
   * `TEXT` node was counted.
   */
  function Walk(item: Node, css: string, rule: Node -> string): (r: Outcome<Emitted>)
    ensures r.Returned? ==> css <= r.value.css
    ensures r.Returned? && r.value.texts == 0 ==> r.value.css == css
    decreases item
  {
    if item.kind == "TEXT" then
      match item.style
      case None => Threw(StyleUndefined)
      case Some(_) => Returned(Emitted(css + rule(item), 1))
    else
      match item.children
      case Absent => Returned(Emitted(css, 0))
      case Present(cs) => WalkEach(cs, css, rule)
  }

  /** The fold over a node's children, left to right, threading the text and adding the counts. */
  function WalkEach(items: seq<Node>, css: string, rule: Node -> string): (r: Outcome<Emitted>)
    ensures r.Returned? ==> css <= r.value.css
    ensures r.Returned? && r.value.texts == 0 ==> r.value.css == css
    decreases items
  {
    if |items| == 0 then Returned(Emitted(css, 0))
    else
      match Walk(items[0], css, rule)
      case Threw(e) => Threw(e)
      case Returned(first) =>
        match WalkEach(items[1..], first.css, rule)
        case Threw(e) => Threw(e)
        case Returned(rest) => Returned(Emitted(rest.css, first.texts + rest.texts))
  }

  /**
   * `appendCSS(item, css)`: the text grows from `css`, and `iterator` by the
   * number of `TEXT` nodes reached; it throws exactly when one of them has
   * no `style`.
   */
  function AppendCss(item: Node, css: string, show: real -> string): (r: Outcome<Emitted>)
    ensures r.Returned? ==> css <= r.value.css && r.value.texts == |Reached(item)|
    ensures r.Threw? <==> !Styled(Reached(item))
  {
    WalkPreOrder(item, css, RuleOf(show));
    Walk(item, css, RuleOf(show))
  }

  /** The fold of `appendCSS` over a list of siblings. */
  function AppendEach(items: seq<Node>, css: string, show: real -> string): (r: Outcome<Emitted>)
    ensures r.Returned? ==> css <= r.value.css && r.value.texts == |ReachedAll(items)|
    ensures r.Threw? <==> !Styled(ReachedAll(items))
  {
    WalkEachPreOrder(items, css, RuleOf(show));
    WalkEach(items, css, RuleOf(show))
  }

  /** The `TEXT` nodes the walk reaches from `item`, in pre-order. */
  function Reached(item: Node): (r: seq<Node>)
    ensures forall n :: n in r ==> n.kind == "TEXT"
    decreases item
  {
    if item.kind == "TEXT" then [item]
    else
      match item.children
      case Absent => []
      case Present(cs) => ReachedAll(cs)
  }

  function ReachedAll(items: seq<Node>): (r: seq<Node>)
    ensures forall n :: n in r ==> n.kind == "TEXT"
    decreases items
  {
    if |items| == 0 then [] else Reached(items[0]) + ReachedAll(items[1..])
  }

  predicate Styled(ns: seq<Node>) {
    forall n :: n in ns ==> n.style.Some?
  }

  /**
   * The outcome of a walk that reaches the `TEXT` nodes `ns`, starting from
   * `css`: one rule per node appended in order and counted, or the
   * `TypeError` of a node without a `style`.
   */
  function PreOrderOutcome(ns: seq<Node>, css: string, rule: Node -> string): Outcome<Emitted> {
    if Styled(ns) then Returned(Emitted(css + Concat(ns, rule), |ns|)) else Threw(StyleUndefined)
  }

  /**
   * The walk from `item` appends one rule per reached `TEXT` node, in
   * pre-order, and counts them; it throws when a reached `TEXT` node has no
   * `style`.
   */
  lemma {:induction false} WalkPreOrder(item: Node, css: string, rule: Node -> string)
    ensures Walk(item, css, rule) == PreOrderOutcome(Reached(item), css, rule)
    decreases item
  {
    if item.kind == "TEXT" {
      assert Reached(item) == [item];
      if item.style.Some? {
        assert [item][1..] == [];
        assert Concat([item], rule) == rule(item) + "" == rule(item);
      }
    } else if item.children.Present? {
      WalkEachPreOrder(item.children.nodes, css, rule);
    } else {
      assert css + Concat([], rule) == css;
    }
  }

  lemma {:induction false} WalkEachPreOrder(items: seq<Node>, css: string, rule: Node -> string)
    ensures WalkEach(items, css, rule) == PreOrderOutcome(ReachedAll(items), css, rule)
    decreases items
  {
    if |items| == 0 {
      assert css + Concat([], rule) == css;
    } else {
      var a, b := Reached(items[0]), ReachedAll(items[1..]);
      assert ReachedAll(items) == a + b;
      assert Styled(a + b) <==> Styled(a) && Styled(b);
      WalkPreOrder(items[0], css, rule);
      if Styled(a) {
        var mid := css + Concat(a, rule);
        WalkEachPreOrder(items[1..], mid, rule);
        ConcatAppend(a, b, rule);
        assert mid + Concat(b, rule) == css + Concat(a + b, rule);
      }
    }
  }

  /**
   * `appendCSS` appends to `css` one rule per `TEXT` node it reaches, in
   * pre-order, and `iterator` grows by their number; it throws when a
   * reached `TEXT` node has no `style`.
   */
  lemma AppendCssPreOrder(item: Node, css: string, show: real -> string)
    ensures AppendCss(item, css, show) == PreOrderOutcome(Reached(item), css, RuleOf(show))
  {
    WalkPreOrder(item, css, RuleOf(show));
  }

  /** The same, for the `forEach` over a list of siblings. */
  lemma AppendEachPreOrder(items: seq<Node>, css: string, show: real -> string)
    ensures AppendEach(items, css, show) == PreOrderOutcome(ReachedAll(items), css, RuleOf(show))
  {
    WalkEachPreOrder(items, css, RuleOf(show));
  }

  /**
   * The fold over a list of siblings runs left to right: walking `a + b`
   * is walking `a`, then walking `b` from where `a` left the text.
   */
  lemma {:induction false} WalkEachLeftToRight(a: seq<Node>, b: seq<Node>, css: string,
                                               rule: Node -> string)
    ensures WalkEach(a + b, css, rule) ==
      match WalkEach(a, css, rule)
      case Threw(e) => Threw(e)
      case Returned(ea) =>
        match WalkEach(b, ea.css, rule)
        case Threw(e) => Threw(e)
        case Returned(eb) => Returned(Emitted(eb.css, ea.texts + eb.texts))
    decreases a
  {
    if |a| == 0 {
      assert a + b == b;
    } else {
      assert (a + b)[0] == a[0];
      assert (a + b)[1..] == a[1..] + b;
      match Walk(a[0], css, rule)
      case Threw(_) =>
      case Returned(first) =>
        WalkEachLeftToRight(a[1..], b, first.css, rule);
    }
  }

  /**
   * A `TEXT` node adds exactly one rule and counts once, whatever lies
   * beneath it: its children are never visited.
   */
  lemma TextAddsOneBlock(item: Node, below: Children, css: string, show: real -> string)
    requires item.kind == "TEXT" && item.style.Some?
    ensures AppendCss(item.(children := below), css, show)
         == Returned(Emitted(css + Block(item.name, item.style.value, show), 1))
  {
  }

  /** A `TEXT` node without a `style` throws, whatever lies beneath it. */
  lemma UnstyledTextThrows(item: Node, css: string, show: real -> string)
    requires item.kind == "TEXT" && item.style.None?
    ensures AppendCss(item, css, show) == Threw(StyleUndefined)
  {
  }

  /** A container with no `children` property, or an empty one, leaves the text alone. */
  lemma ChildlessLeavesCss(item: Node, css: string, show: real -> string)
    requires item.kind != "TEXT"
    requires item.children.Absent? || item.children == Present([])
    ensures AppendCss(item, css, show) == Returned(Emitted(css, 0))
  {
    if item.children.Present? {
      assert WalkEach([], css, RuleOf(show)) == Returned(Emitted(css, 0));
    }
  }

  /**
   * Two styled `TEXT` nodes with the same name each give their own rule,
   * both under the selector `.name`: nothing is deduplicated by name.
   */
  lemma DuplicatesKept(a: Node, b: Node, css: string, show: real -> string)
    requires a.kind == "TEXT" && a.style.Some?
    requires b.kind == "TEXT" && b.style.Some?
    requires a.name == b.name
    ensures AppendEach([a, b], css, show) ==
      Returned(Emitted(css + Block(a.name, a.style.value, show) + Block(b.name, b.style.value, show), 2))
  {
    var rule := RuleOf(show);
    var ra := Block(a.name, a.style.value, show);
    var rb := Block(b.name, b.style.value, show);
    assert rule(a) == ra;
    assert rule(b) == rb;
    assert Walk(a, css, rule) == Returned(Emitted(css + ra, 1));
    assert Walk(b, css + ra, rule) == Returned(Emitted(css + ra + rb, 1));
    assert [a, b][1..] == [b];
    assert [b][1..] == [];
    assert WalkEach([], css + ra + rb, rule) == Returned(Emitted(css + ra + rb, 0));
    assert WalkEach([b], css + ra, rule) == Returned(Emitted(css + ra + rb, 1));
  }

  /**
   * An entry between two runs of style keys contributes the line
   * `\t<property>: <value>;\n` in its place when its key is known, and
   * nothing when it is not: lines follow the style's key order.
   */
  lemma DeclarationsInKeyOrder(a: Object<Value>, key: string, v: Value, b: Object<Value>,
                               show: real -> string)
    ensures PropertyName(key).None? ==>
      Declarations(a + [(key, v)] + b, show) == Declarations(a, show) + Declarations(b, show)
    ensures PropertyName(key).Some? ==>
      Declarations(a + [(key, v)] + b, show) ==
        Declarations(a, show)
        + ("\t" + PropertyName(key).value + ": " + Display(v, show) + ";\n")
        + Declarations(b, show)
  {
    var f := DeclarationOf(show);
    ConcatAround(a, (key, v), b, f);
    var line := Declaration(key, v, show);
    assert f((key, v)) == line;
    if PropertyName(key).None? {
      assert line == "";
      assert Declarations(a, show) + line == Declarations(a, show);
    }
  }

  /** A text style with one key `validProperties` knows and one it does not. */
  const TitleStyle: Object<Value> := [("fontSize", Num(24.0)), ("textAlignHorizontal", Str("LEFT"))]

  /** `.title {\n\tfont-size: 24;\n}\n\n`, written in the pieces a rule is made of. */
  const TitleRule: string := "." + "title" + " {\n" + FontSize24 + "}\n\n"

  /** `\tfont-size: 24;\n`, in the pieces a declaration line is made of. */
  const FontSize24: string := "\t" + "font-size" + ": " + "24" + ";\n"

  /** `fontSize` is known and its value is printed verbatim. */
  lemma FontSizeLine()
    ensures Declaration("fontSize", Num(24.0), IntegralToString) == FontSize24
  {
    assert IntegralToString(24.0) == "24" by {
      assert (24.0).Floor == 24;
      assert NatToString(2) == "2";
      assert NatToString(24) == "24";
    }
    assert PropertyName("fontSize") == Some("font-size") by {
      ValidPropertiesTable("fontSize");
    }
  }

  /** `textAlignHorizontal` is not in `validProperties`: it gives no line. */
  lemma AlignmentSkipped()
    ensures Declaration("textAlignHorizontal", Str("LEFT"), IntegralToString) == ""
  {
    ValidPropertiesTable("textAlignHorizontal");
  }

  lemma TitleDeclarations()
    ensures Declarations(TitleStyle, IntegralToString) == FontSize24
  {
    var f := DeclarationOf(IntegralToString);
    var style := TitleStyle;
    FontSizeLine();
    AlignmentSkipped();
    ConcatAround([], style[0], [style[1]], f);
    ConcatAround([], style[1], [], f);
    assert [] + [style[0]] + [style[1]] == style;
    assert [] + [style[1]] + [] == [style[1]];
    assert Concat([], f) == "";
  }

  lemma TitleStyleRule()
    ensures Block("title", TitleStyle, IntegralToString) == TitleRule
  {
    TitleDeclarations();
  }
}
