/**
 * The `generate` command's pure core: with the node `findObject` returned,
 * start from empty text and fold `appendCSS` over that node's children.
 * Reading `children` of a found node that has none throws.
 */
module Generate {
  import opened Wrappers
  import opened Json
  import opened DesignTree
  import opened Stylesheet

  /**
   * The stylesheet for a found node: one rule per `TEXT` node reached below
   * it, in pre-order, counted; or the `TypeError` the fold throws.
   */
  function GenerateCss(found: Node, show: real -> string): (r: Outcome<Emitted>)
    ensures found.children.Absent? ==> r == Threw(ChildrenUndefined)
    ensures found.children.Present? ==>
      r == PreOrderOutcome(ReachedAll(found.children.nodes), "", RuleOf(show))
  {
    match found.children
    case Absent => Threw(ChildrenUndefined)
    case Present(cs) =>
      AppendEachPreOrder(cs, "", show);
      AppendEach(cs, "", show)
  }

  /**
   * For a found container the fold is the same as one `appendCSS` call on
   * the container itself from empty text.
   */
  lemma GenerateIsAppendOnContainer(found: Node, show: real -> string)
    requires found.kind != "TEXT" && found.children.Present?
    ensures GenerateCss(found, show) == AppendCss(found, "", show)
  {
  }

  /**
   * The found node's own rule is never produced: a found `TEXT` node with
   * an empty `children` array yields empty text.
   */
  lemma FoundTextNotRendered(found: Node, show: real -> string)
    requires found.kind == "TEXT" && found.children == Present([])
    ensures GenerateCss(found, show) == Returned(Emitted("", 0))
  {
    assert ReachedAll([]) == [];
  }

  /**
   * A frame holding two `TEXT` nodes both named `title`: the output holds
   * the `title` rule twice and `iterator` ends at 2.
   */
  lemma TwoTitlesTwoRules()
    ensures var title := Node("TEXT", "title", Some(TitleStyle), Absent);
      var frame := Node("FRAME", "Home", None, Present([title, title]));
      GenerateCss(frame, IntegralToString) == Returned(Emitted(TitleRule + TitleRule, 2))
  {
    var title := Node("TEXT", "title", Some(TitleStyle), Absent);
    TitleStyleRule();
    DuplicatesKept(title, title, "", IntegralToString);
    assert "" + TitleRule + TitleRule == TitleRule + TitleRule;
  }
}
