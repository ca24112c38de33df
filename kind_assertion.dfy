/**
 * `validateNodeKind` and the kind assertions every view carries: a view may only be bound to a
 * node whose `kind` is the one the view is for.
 */
module KindAssertion {
  import opened Wrappers
  import opened Js
  import opened Errors
  import opened Nodes

  /** `node.kind === tag`. */
  predicate IsKind(node: Value, tag: string) {
    Get(node, "kind") == Str(tag)
  }

  /** `validateNodeKind(expected, node)`: the node itself, or a mismatch naming both kinds. */
  function ValidateNodeKind(expected: string, node: Value): (r: Result<Value, Error>)
    ensures r.Success? <==> IsKind(node, expected)
    ensures r.Success? ==> r.value == node
    ensures r.Failure? ==> r.error == KindMismatch(expected, Get(node, "kind"))
  {
    if IsKind(node, expected) then Success(node) else Failure(KindMismatch(expected, Get(node, "kind")))
  }

  /** The kind-assertion capability: `isKind(tag)` and `assertKind(tag)` on the bound node. */
  class KindAssertionApi {
    const node: Node

    constructor(node: Node)
      ensures this.node == node
    {
      this.node := node;
    }

    predicate IsKindOf(tag: string)
      reads node
    {
      IsKind(node.value, tag)
    }

    /** Narrowing to the kind `tag`: fails, naming the node's actual kind, when it has another. */
    function AssertKind(tag: string): (r: Result<Value, Error>)
      reads node
      ensures r.Success? <==> IsKindOf(tag)
      ensures r.Failure? ==> r.error == KindMismatch(tag, Get(node.value, "kind"))
    {
      ValidateNodeKind(tag, node.value)
    }
  }
}
