/**
 * `findObject(data, type, name)`: look for a node with the given type and
 * name. The direct children of `data` are checked first, in order; when none
 * matches, the search continues in the FIRST child only. Reading `children`
 * of a node that has none throws a `TypeError`.
 *
 * `FindDeep` is the search the code evidently intends (every child, in
 * order, and no exception on a leaf); it is proved complete and shown to
 * agree with `FindObject` wherever `FindObject` finds something.
 */
module Lookup {
  import opened Wrappers
  import opened DesignTree

  predicate Matches(n: Node, kind: string, name: string) {
    n.kind == kind && n.name == name
  }

  /** The first loop of `findObject`: position of the first matching child, or `|cs|`. */
  function FirstMatch(cs: seq<Node>, kind: string, name: string): (i: nat)
    ensures i <= |cs|
    ensures forall j :: 0 <= j < i ==> !Matches(cs[j], kind, name)
    ensures i < |cs| ==> Matches(cs[i], kind, name)
  {
    if |cs| == 0 then 0
    else if Matches(cs[0], kind, name) then 0
    else 1 + FirstMatch(cs[1..], kind, name)
  }

  /** `n` lies strictly below `data` in the tree. */
  ghost predicate Descendant(n: Node, data: Node)
    decreases data
  {
    data.children.Present? &&
    exists i :: 0 <= i < |data.children.nodes| &&
      (data.children.nodes[i] == n || Descendant(n, data.children.nodes[i]))
  }

  function FindObject(data: Node, kind: string, name: string): (r: Outcome<Option<Node>>)
    ensures data.children.Absent? ==> r == Threw(ChildrenUndefined)
    ensures data.children == Present([]) ==> r == Returned(None)
    ensures data.children.Present? ==>
      forall i ::
        (0 <= i < |data.children.nodes| && Matches(data.children.nodes[i], kind, name) &&
         forall j :: 0 <= j < i ==> !Matches(data.children.nodes[j], kind, name)) ==>
        r == Returned(Some(data.children.nodes[i]))
    ensures r.Returned? && r.value.Some? ==>
      Matches(r.value.value, kind, name) && Descendant(r.value.value, data)
    decreases data
  {
    match data.children
    case Absent => Threw(ChildrenUndefined)
    case Present(cs) =>
      var i := FirstMatch(cs, kind, name);
      if i < |cs| then Returned(Some(cs[i]))
      else if |cs| == 0 then Returned(None)
      else
        var r := FindObject(cs[0], kind, name);
        assert r.Returned? && r.value.Some? ==> Descendant(r.value.value, data) by {
          if r.Returned? && r.value.Some? {
            assert Descendant(r.value.value, cs[0]);
          }
        }
        r
  }

  /** `data`, its first child, that child's first child, ... down to a node without children. */
  function Spine(data: Node): (s: seq<Node>)
    ensures |s| >= 1 && s[0] == data
    decreases data
  {
    match data.children
    case Absent => [data]
    case Present(cs) => if |cs| == 0 then [data] else [data] + Spine(cs[0])
  }

  predicate HasDirectMatch(n: Node, kind: string, name: string) {
    n.children.Present? && FirstMatch(n.children.nodes, kind, name) < |n.children.nodes|
  }

  function FirstDirectMatch(n: Node, kind: string, name: string): Node
    requires HasDirectMatch(n, kind, name)
  {
    n.children.nodes[FirstMatch(n.children.nodes, kind, name)]
  }

  /** Below a node with no direct match, `findObject` continues in the first child alone. */
  lemma DescendsIntoFirstChild(data: Node, kind: string, name: string)
    requires data.children.Present? && |data.children.nodes| > 0
    requires !HasDirectMatch(data, kind, name)
    ensures Spine(data) == [data] + Spine(data.children.nodes[0])
    ensures FindObject(data, kind, name) == FindObject(data.children.nodes[0], kind, name)
  {
  }

  /**
   * What `findObject` returns when some node on the first-child spine has a
   * direct match: the first direct match under the first such spine node.
   */
  lemma {:induction false} FindObjectAlongSpine(data: Node, kind: string, name: string, k: int)
    requires 0 <= k < |Spine(data)|
    requires HasDirectMatch(Spine(data)[k], kind, name)
    requires forall j :: 0 <= j < k ==> !HasDirectMatch(Spine(data)[j], kind, name)
    ensures FindObject(data, kind, name) == Returned(Some(FirstDirectMatch(Spine(data)[k], kind, name)))
    decreases data
  {
    if k > 0 {
      assert !HasDirectMatch(data, kind, name);
      var c := data.children.nodes[0];
      DescendsIntoFirstChild(data, kind, name);
      var s, t := Spine(data), Spine(c);
      assert t[k - 1] == s[k];
      forall j | 0 <= j < k - 1 ensures !HasDirectMatch(t[j], kind, name) {
        assert t[j] == s[j + 1];
      }
      FindObjectAlongSpine(c, kind, name, k - 1);
    }
  }

  /**
   * When no node on the first-child spine has a direct match, `findObject`
   * throws if the spine ends at a node without `children` and returns `null`
   * if it ends at an empty `children` array.
   */
  lemma {:induction false} FindObjectOffSpine(data: Node, kind: string, name: string)
    requires forall k :: 0 <= k < |Spine(data)| ==> !HasDirectMatch(Spine(data)[k], kind, name)
    ensures var last := Spine(data)[|Spine(data)| - 1];
      FindObject(data, kind, name) ==
        (if last.children.Absent? then Threw(ChildrenUndefined) else Returned(None))
    decreases data
  {
    if data.children.Present? && |data.children.nodes| > 0 {
      assert !HasDirectMatch(Spine(data)[0], kind, name);
      var c := data.children.nodes[0];
      DescendsIntoFirstChild(data, kind, name);
      var s, t := Spine(data), Spine(c);
      forall k | 0 <= k < |t| ensures !HasDirectMatch(t[k], kind, name) {
        assert t[k] == s[k + 1];
      }
      FindObjectOffSpine(c, kind, name);
      assert s[|s| - 1] == t[|t| - 1];
    }
  }

  /**
   * Once no direct child matches, only the first child is searched: the
   * later siblings, whatever lies beneath them, cannot change the result.
   */
  lemma LaterSiblingsIgnored(data: Node, first: Node, rest1: seq<Node>, rest2: seq<Node>,
                             kind: string, name: string)
    requires !Matches(first, kind, name)
    requires forall i :: 0 <= i < |rest1| ==> !Matches(rest1[i], kind, name)
    requires forall i :: 0 <= i < |rest2| ==> !Matches(rest2[i], kind, name)
    ensures FindObject(data.(children := Present([first] + rest1)), kind, name)
         == FindObject(data.(children := Present([first] + rest2)), kind, name)
  {
    var cs1, cs2 := [first] + rest1, [first] + rest2;
    assert forall i :: 0 < i < |cs1| ==> cs1[i] == rest1[i - 1];
    assert forall i :: 0 < i < |cs2| ==> cs2[i] == rest2[i - 1];
    assert FirstMatch(cs1, kind, name) == |cs1|;
    assert FirstMatch(cs2, kind, name) == |cs2|;
  }

  /** The intended search: direct children first, then every child in order. */
  function FindDeep(data: Node, kind: string, name: string): (r: Option<Node>)
    ensures r.Some? ==> Matches(r.value, kind, name) && Descendant(r.value, data)
    decreases data
  {
    match data.children
    case Absent => None
    case Present(cs) =>
      var i := FirstMatch(cs, kind, name);
      if i < |cs| then Some(cs[i])
      else FindInChildren(cs, kind, name)
  }

  /** The first result of `FindDeep` over `cs`, in order. */
  function FindInChildren(cs: seq<Node>, kind: string, name: string): (r: Option<Node>)
    ensures r.Some? ==>
      Matches(r.value, kind, name) && exists i :: 0 <= i < |cs| && Descendant(r.value, cs[i])
    decreases cs
  {
    if |cs| == 0 then None
    else
      match FindDeep(cs[0], kind, name)
      case Some(n) => Some(n)
      case None =>
        var r := FindInChildren(cs[1..], kind, name);
        assert r.Some? ==> exists i :: 0 <= i < |cs| && Descendant(r.value, cs[i]) by {
          if r.Some? {
            var i :| 0 <= i < |cs[1..]| && Descendant(r.value, cs[1..][i]);
            assert cs[1..][i] == cs[i + 1];
          }
        }
        r
  }

  lemma {:induction false} FindInChildrenSome(cs: seq<Node>, i: int, kind: string, name: string)
    requires 0 <= i < |cs| && FindDeep(cs[i], kind, name).Some?
    ensures FindInChildren(cs, kind, name).Some?
    decreases i
  {
    if FindDeep(cs[0], kind, name).None? {
      assert cs[1..][i - 1] == cs[i];
      FindInChildrenSome(cs[1..], i - 1, kind, name);
    }
  }

  lemma {:induction false} FindInChildrenFirstHit(cs: seq<Node>, i: int, kind: string, name: string)
    requires 0 <= i < |cs| && FindDeep(cs[i], kind, name).Some?
    requires forall j :: 0 <= j < i ==> FindDeep(cs[j], kind, name).None?
    ensures FindInChildren(cs, kind, name) == FindDeep(cs[i], kind, name)
    decreases i
  {
    if i > 0 {
      assert cs[1..][i - 1] == cs[i];
      forall j | 0 <= j < i - 1 ensures FindDeep(cs[1..][j], kind, name).None? {
        assert cs[1..][j] == cs[j + 1];
      }
      FindInChildrenFirstHit(cs[1..], i - 1, kind, name);
    }
  }

  lemma {:induction false} FindInChildrenNoHit(cs: seq<Node>, kind: string, name: string)
    requires forall j :: 0 <= j < |cs| ==> FindDeep(cs[j], kind, name).None?
    ensures FindInChildren(cs, kind, name).None?
    decreases cs
  {
    if |cs| > 0 {
      assert forall j :: 0 <= j < |cs[1..]| ==> cs[1..][j] == cs[j + 1];
      FindInChildrenNoHit(cs[1..], kind, name);
    }
  }

  /**
   * Which match the intended search returns: the first matching direct
   * child if there is one; otherwise the hit of the first child, in order,
   * whose subtree holds a match; and nothing when no child's subtree does.
   */
  lemma FindDeepFirstHit(data: Node, kind: string, name: string)
    ensures HasDirectMatch(data, kind, name) ==>
      FindDeep(data, kind, name) == Some(FirstDirectMatch(data, kind, name))
    ensures data.children.Present? && !HasDirectMatch(data, kind, name) ==>
      forall i ::
        (0 <= i < |data.children.nodes| && FindDeep(data.children.nodes[i], kind, name).Some? &&
         forall j :: 0 <= j < i ==> FindDeep(data.children.nodes[j], kind, name).None?) ==>
        FindDeep(data, kind, name) == FindDeep(data.children.nodes[i], kind, name)
    ensures (data.children.Present? && !HasDirectMatch(data, kind, name) &&
             forall j :: 0 <= j < |data.children.nodes| ==>
               FindDeep(data.children.nodes[j], kind, name).None?) ==>
      FindDeep(data, kind, name).None?
  {
    if data.children.Present? && !HasDirectMatch(data, kind, name) {
      var cs := data.children.nodes;
      forall i | 0 <= i < |cs| && FindDeep(cs[i], kind, name).Some? &&
        (forall j :: 0 <= j < i ==> FindDeep(cs[j], kind, name).None?)
        ensures FindDeep(data, kind, name) == FindDeep(cs[i], kind, name)
      {
        FindInChildrenFirstHit(cs, i, kind, name);
      }
      if forall j :: 0 <= j < |cs| ==> FindDeep(cs[j], kind, name).None? {
        FindInChildrenNoHit(cs, kind, name);
      }
    }
  }

  /** The intended search finds a match whenever one lies anywhere below `data`. */
  lemma {:induction false} FindDeepComplete(data: Node, n: Node, kind: string, name: string)
    requires Descendant(n, data) && Matches(n, kind, name)
    ensures FindDeep(data, kind, name).Some?
    decreases data
  {
    var cs := data.children.nodes;
    var i :| 0 <= i < |cs| && (cs[i] == n || Descendant(n, cs[i]));
    if FirstMatch(cs, kind, name) == |cs| {
      assert cs[i] != n;
      FindDeepComplete(cs[i], n, kind, name);
      FindInChildrenSome(cs, i, kind, name);
    }
  }

  /** Wherever `findObject` finds a node, the intended search finds the same node. */
  lemma {:induction false} FindDeepExtendsFindObject(data: Node, kind: string, name: string)
    requires FindObject(data, kind, name).Returned?
    requires FindObject(data, kind, name).value.Some?
    ensures FindDeep(data, kind, name) == FindObject(data, kind, name).value
    decreases data
  {
    var cs := data.children.nodes;
    if FirstMatch(cs, kind, name) == |cs| {
      FindDeepExtendsFindObject(cs[0], kind, name);
      assert FindInChildren(cs, kind, name) == FindDeep(cs[0], kind, name);
    }
  }

  /**
   * A page whose first frame is empty and whose second frame holds "Home":
   * `findObject` returns `null`, the intended search finds the frame.
   */
  lemma MissedUnderSecondSibling()
    ensures var home := Node("FRAME", "Home", None, Absent);
      var page := Node("CANVAS", "Page", None, Present([
        Node("FRAME", "Empty", None, Present([])),
        Node("FRAME", "Other", None, Present([home]))]));
      FindObject(page, "FRAME", "Home") == Returned(None) &&
      FindDeep(page, "FRAME", "Home") == Some(home)
  {
    var home := Node("FRAME", "Home", None, Absent);
    var empty := Node("FRAME", "Empty", None, Present([]));
    var other := Node("FRAME", "Other", None, Present([home]));
    var page := Node("CANVAS", "Page", None, Present([empty, other]));
    assert FirstMatch([empty, other], "FRAME", "Home") == 2;
    assert FindObject(page, "FRAME", "Home") == FindObject(empty, "FRAME", "Home");
    assert FindDeep(other, "FRAME", "Home") == Some(home);
    assert FindInChildren([other], "FRAME", "Home") == Some(home);
    assert [empty, other][1..] == [other];
  }
}
