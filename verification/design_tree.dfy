/**
 * A node of the design document as the CSS generator reads it, and the
 * outcome of an operation that may throw a JavaScript `TypeError`.
 */
module DesignTree {
  import opened Wrappers
  import opened Json

  /**
   * A design node. `kind` is the node's `type` field ("TEXT", "FRAME",
   * "CANVAS", ...). `style` is present on text nodes; `children` is absent
   * on leaf nodes and may be present but empty on containers.
   */
  datatype Node = Node(
    kind: string,
    name: string,
    style: Option<Object<Value>>,
    children: Children)

  /** The `children` property: absent, or an array (possibly empty). */
  datatype Children = Absent | Present(nodes: seq<Node>)

  /** Why an operation threw: a property read on `undefined`. */
  datatype TypeError =
    | ChildrenUndefined   // `children` missing where it is read
    | StyleUndefined      // `style` missing on a text node

  /** A returned value, or the `TypeError` the JavaScript code throws. */
  datatype Outcome<+T> = Returned(value: T) | Threw(error: TypeError)
}
