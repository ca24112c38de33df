/**
 * `ArgumentApi`: a view of one Argument node (`name: value` inside a field or directive) that
 * reads and replaces the argument's value in place.
 */
module ArgumentApis {
  import opened Wrappers
  import opened Js
  import opened Errors
  import opened Nodes
  import opened KindAssertion

  const ARGUMENT := "Argument"

  class ArgumentApi {
    const node: Node
    /** The `KindAssertionApiMixin` capability; `NameApiMixin` is not part of this model. */
    const kind: KindAssertionApi

    constructor(node: Node)
      requires IsKind(node.value, ARGUMENT)
      ensures this.node == node && kind.node == node
    {
      this.node := node;
      this.kind := new KindAssertionApi(node);
    }

    /** `getValue()`: the stored value node. */
    function GetValue(): (r: Value)
      reads node
      ensures !Has(node.value, "value") ==> r == Undefined
    {
      Get(node.value, "value")
    }

    /** `setValue(v)`: replaces the value in place, keeps the name and kind, returns the same view. */
    method SetValue(v: Value) returns (r: ArgumentApi)
      modifies node
      ensures r == this
      ensures node.value == Set(old(node.value), "value", v)
      ensures old(node.value).Obj? ==> GetValue() == v
      ensures Get(node.value, "name") == old(Get(node.value, "name"))
      ensures Get(node.value, "kind") == old(Get(node.value, "kind"))
    {
      node.value := Set(node.value, "value", v);
      return this;
    }
  }

  /** `argumentApi(node)`: a view of `node`, which must be an Argument. */
  method ArgumentApiOf(node: Node) returns (r: Result<ArgumentApi, Error>)
    ensures r.Success? <==> IsKind(node.value, ARGUMENT)
    ensures r.Failure? ==> r.error == KindMismatch(ARGUMENT, Get(node.value, "kind"))
    ensures r.Success? ==> fresh(r.value) && r.value.node == node
  {
    var checked := ValidateNodeKind(ARGUMENT, node.value);
    if checked.Failure? {
      return Failure(checked.error);
    }
    var api := new ArgumentApi(node);
    return Success(api);
  }
}
