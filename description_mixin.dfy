/**
 * `DescriptionApiMixin`: the optional `description` of a definition node, a StringValue node
 * whose `value` is the text. Reading goes through `description?.value`; writing replaces the
 * whole `description` field in place.
 */
module DescriptionMixin {
  import opened Wrappers
  import opened Js
  import opened Nodes
  import opened Kinds
  import Ast
  import AstProperties

  const DESCRIPTION := "description"

  /** `node.description?.value`. */
  function DescriptionOf(node: Value): (r: Value)
    ensures !Has(node, DESCRIPTION) ==> r == Undefined
  {
    Get(Get(node, DESCRIPTION), "value")
  }

  /**
   * `hasDescription(value)`: with a non-empty `value`, whether the text is that value; with no
   * argument or the empty string, whether there is any non-empty text.
   */
  function HasDescriptionOf(node: Value, value: Option<string>): (r: bool)
    ensures r ==> Truthy(DescriptionOf(node))
    ensures value.Some? && value.value != "" ==> (r <==> DescriptionOf(node) == Str(value.value))
    ensures value.None? || value == Some("") ==> (r <==> Truthy(DescriptionOf(node)))
  {
    if value.Some? && value.value != "" then DescriptionOf(node) == Str(value.value)
    else Truthy(DescriptionOf(node))
  }

  /** `stringValueNode(s)` holds `s` as its value. */
  lemma StringValueHolds(s: string)
    ensures Ast.StringValueNode(Str(s)).Success?
    ensures Get(Ast.StringValueNode(Str(s)).value, "value") == Str(s)
  {
    AstProperties.FieldOf(StringValue, [Entry("value", Str(s))], 0);
  }

  /**
   * `setDescription(value)` on the node: `undefined` clears the field, a string stores a
   * StringValue node holding it, so the text then reads back as that string. No other field
   * changes.
   */
  function WithDescription(node: Value, value: Option<string>): (r: Value)
    ensures forall k :: k != DESCRIPTION ==> Get(r, k) == Get(node, k)
    ensures node.Obj? && value.Some? ==> DescriptionOf(r) == Str(value.value)
    ensures node.Obj? && value.None? ==> DescriptionOf(r) == Undefined
    ensures !node.Obj? ==> r == node
  {
    match value
    case None => Set(node, DESCRIPTION, Undefined)
    case Some(s) =>
      StringValueHolds(s);
      Set(node, DESCRIPTION, Ast.StringValueNode(Str(s)).value)
  }

  /** `descriptionApiMixin(node)`. */
  class DescriptionApi {
    const node: Node

    constructor(node: Node)
      ensures this.node == node
    {
      this.node := node;
    }

    /** `getDescription()`: the text, `undefined` when there is no description. */
    function GetDescription(): (r: Value)
      reads node
      ensures Nullish(Get(node.value, DESCRIPTION)) ==> r == Undefined
    {
      DescriptionOf(node.value)
    }

    function HasDescription(value: Option<string>): (r: bool)
      reads node
      ensures r ==> Truthy(GetDescription())
    {
      HasDescriptionOf(node.value, value)
    }

    /** `setDescription(value)`: stores or clears the description and returns the same view. */
    method SetDescription(value: Option<string>) returns (r: DescriptionApi)
      modifies node
      ensures r == this
      ensures node.value == WithDescription(old(node.value), value)
      ensures old(node.value).Obj? && value.Some? ==> GetDescription() == Str(value.value)
      ensures old(node.value).Obj? && value.Some? ==> (HasDescription(value) <==> value.value != "")
      ensures old(node.value).Obj? && value.None? ==> GetDescription() == Undefined && forall v :: !HasDescription(v)
    {
      node.value := WithDescription(node.value, value);
      return this;
    }
  }
}
