/**
 * `InputValueDefinitionApi`: a view of an argument or input-object field definition. It reads and
 * replaces the default value in place and converts the definition into a field definition.
 */
module InputValueDefinitionApis {
  import opened Wrappers
  import opened Js
  import opened Errors
  import opened Nodes
  import opened KindAssertion
  import AP = ApplyProps
  import Ast
  import DescriptionMixin
  import DirectiveMixin

  const INPUT_VALUE_DEFINITION := "InputValueDefinition"
  const FIELD_DEFINITION := "FieldDefinition"

  /**
   * `const { kind, defaultValue, loc, ...rest } = node; ({ kind: 'FieldDefinition', ...rest })`:
   * a FieldDefinition with every other field of the input value (name, description, type,
   * directives) and without a default value or location.
   */
  function ToFieldOf(node: Value): (r: Value)
    ensures IsKind(r, FIELD_DEFINITION) && AP.IsAstNode(r)
    ensures !Has(r, "defaultValue") && !Has(r, "loc")
    ensures forall k :: k != "kind" && k != "defaultValue" && k != "loc" ==> Get(r, k) == Get(node, k)
  {
    var rest := Rest(node);
    KindFirst(FIELD_DEFINITION, rest);
    Obj([Entry("kind", Str(FIELD_DEFINITION))] + rest.entries)
  }

  /** `rest` in `const { kind, defaultValue, loc, ...rest } = node`. */
  function Rest(node: Value): (rest: Value)
    ensures rest.Obj? && !Has(rest, "defaultValue") && !Has(rest, "loc")
    ensures forall k :: k != "kind" && k != "defaultValue" && k != "loc" ==> Get(rest, k) == Get(node, k)
  {
    var a := Without(node, "kind");
    var b := Without(a, "defaultValue");
    WithoutKeeps(b, "loc", "defaultValue");
    Without(b, "loc")
  }

  /** Dropping `k` from an object that lacks `absent` leaves it lacking `absent`. */
  lemma WithoutKeeps(v: Value, k: string, absent: string)
    requires !Has(v, absent) && k != absent
    ensures !Has(Without(v, k), absent)
  {
  }

  /** `{ kind: tag, ...rest }` for a `rest` without `kind`: the tag, then every key of `rest`. */
  lemma KindFirst(tag: string, rest: Value)
    requires rest.Obj?
    ensures var o := Obj([Entry("kind", Str(tag))] + rest.entries);
      && Get(o, "kind") == Str(tag)
      && (forall k :: k != "kind" ==> Get(o, k) == Get(rest, k))
      && (forall k :: k != "kind" ==> (Has(o, k) <==> Has(rest, k)))
  {
    var es := [Entry("kind", Str(tag))] + rest.entries;
    assert es[1..] == rest.entries;
  }

  class InputValueDefinitionApi {
    const node: Node
    const kind: KindAssertionApi
    const description: DescriptionMixin.DescriptionApi
    const directives: DirectiveMixin.DirectivesApi

    constructor(node: Node, host: Ast.Host)
      requires IsKind(node.value, INPUT_VALUE_DEFINITION)
      ensures this.node == node && kind.node == node && description.node == node && directives.node == node
    {
      this.node := node;
      this.kind := new KindAssertionApi(node);
      this.description := new DescriptionMixin.DescriptionApi(node);
      this.directives := new DirectiveMixin.DirectivesApi(node, host);
    }

    /**
     * `toField()`: a new FieldDefinition node, which a field-definition view accepts; the input
     * value itself is left as it was.
     */
    method ToField() returns (f: Node)
      ensures fresh(f) && f.value == ToFieldOf(node.value)
      ensures ValidateNodeKind(FIELD_DEFINITION, f.value) == Success(f.value)
    {
      f := new Node(ToFieldOf(node.value));
    }

    /** `getDefaultValue()`. */
    function GetDefaultValue(): (r: Value)
      reads node
      ensures !Has(node.value, "defaultValue") ==> r == Undefined
    {
      Get(node.value, "defaultValue")
    }

    /** `setDefaultValue(v)`: replaces only the default value and returns the same view. */
    method SetDefaultValue(v: Value) returns (r: InputValueDefinitionApi)
      modifies node
      ensures r == this
      ensures node.value == Set(old(node.value), "defaultValue", v)
      ensures old(node.value).Obj? ==> GetDefaultValue() == v
      ensures forall k :: k != "defaultValue" ==> Get(node.value, k) == old(Get(node.value, k))
    {
      node.value := Set(node.value, "defaultValue", v);
      return this;
    }
  }

  /** `inputValueDefinitionApi(node)`: a view of `node`, which must be an InputValueDefinition. */
  method InputValueDefinitionApiOf(node: Node, host: Ast.Host) returns (r: Result<InputValueDefinitionApi, Error>)
    ensures r.Success? <==> IsKind(node.value, INPUT_VALUE_DEFINITION)
    ensures r.Failure? ==> r.error == KindMismatch(INPUT_VALUE_DEFINITION, Get(node.value, "kind"))
    ensures r.Success? ==> fresh(r.value) && r.value.node == node
  {
    var checked := ValidateNodeKind(INPUT_VALUE_DEFINITION, node.value);
    if checked.Failure? {
      return Failure(checked.error);
    }
    var api := new InputValueDefinitionApi(node, host);
    return Success(api);
  }
}
