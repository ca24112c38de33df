/**
 * The type-definition views: one class per kind of type definition, each bound to a node that
 * the constructor has checked to be of that kind, and each carrying the capabilities its kind
 * has (description, directives, and the fields, members or values it holds).
 */
module TypeDefinitionApis {
  import opened Wrappers
  import opened Js
  import opened Errors
  import opened Nodes
  import opened KindAssertion
  import opened Collections
  import Ast
  import DescriptionMixin
  import DirectiveMixin
  import FieldDefinitionMixin

  const OBJECT_TYPE_DEFINITION := "ObjectTypeDefinition"
  const INTERFACE_TYPE_DEFINITION := "InterfaceTypeDefinition"
  const UNION_TYPE_DEFINITION := "UnionTypeDefinition"
  const SCALAR_TYPE_DEFINITION := "ScalarTypeDefinition"
  const ENUM_TYPE_DEFINITION := "EnumTypeDefinition"
  const INPUT_OBJECT_TYPE_DEFINITION := "InputObjectTypeDefinition"

  /** `Ast.namedTypeNode`: the members of a union are named types. */
  function NamedTypeFactory(h: Ast.Host): Constructor {
    p => Ast.NamedTypeNode(h, p)
  }

  /** `Ast.enumValueDefinitionNode`: the values of an enum. */
  function EnumValueFactory(h: Ast.Host): Constructor {
    p => Ast.EnumValueDefinitionNode(h, p)
  }

  /** `Ast.inputValueDefinitionNode`: the fields of an input object. */
  function InputValueFactory(h: Ast.Host): Constructor {
    p => Ast.InputValueDefinitionNode(h, p)
  }

  /** An object type: name, description, directives and field definitions. */
  class ObjectTypeApi {
    const node: Node
    const kind: KindAssertionApi
    const description: DescriptionMixin.DescriptionApi
    const directives: DirectiveMixin.DirectivesApi
    const fields: FieldDefinitionMixin.FieldDefinitionsApi

    constructor(node: Node, host: Ast.Host)
      requires IsKind(node.value, OBJECT_TYPE_DEFINITION)
      ensures this.node == node && kind.node == node && description.node == node
      ensures directives.node == node && fields.node == node && fields.Bound()
    {
      this.node := node;
      this.kind := new KindAssertionApi(node);
      this.description := new DescriptionMixin.DescriptionApi(node);
      this.directives := new DirectiveMixin.DirectivesApi(node, host);
      this.fields := new FieldDefinitionMixin.FieldDefinitionsApi(node, host);
    }
  }

  /** `objectTypeApi(node)`: a view of `node`, which must be an ObjectTypeDefinition. */
  method ObjectTypeApiOf(node: Node, host: Ast.Host) returns (r: Result<ObjectTypeApi, Error>)
    ensures r.Success? <==> IsKind(node.value, OBJECT_TYPE_DEFINITION)
    ensures r.Failure? ==> r.error == KindMismatch(OBJECT_TYPE_DEFINITION, Get(node.value, "kind"))
    ensures r.Success? ==> fresh(r.value) && r.value.node == node && r.value.fields.Bound()
  {
    var checked := ValidateNodeKind(OBJECT_TYPE_DEFINITION, node.value);
    if checked.Failure? {
      return Failure(checked.error);
    }
    var api := new ObjectTypeApi(node, host);
    return Success(api);
  }

  /** An interface type: the same capabilities as an object type. */
  class InterfaceTypeApi {
    const node: Node
    const kind: KindAssertionApi
    const description: DescriptionMixin.DescriptionApi
    const directives: DirectiveMixin.DirectivesApi
    const fields: FieldDefinitionMixin.FieldDefinitionsApi

    constructor(node: Node, host: Ast.Host)
      requires IsKind(node.value, INTERFACE_TYPE_DEFINITION)
      ensures this.node == node && kind.node == node && description.node == node
      ensures directives.node == node && fields.node == node && fields.Bound()
    {
      this.node := node;
      this.kind := new KindAssertionApi(node);
      this.description := new DescriptionMixin.DescriptionApi(node);
      this.directives := new DirectiveMixin.DirectivesApi(node, host);
      this.fields := new FieldDefinitionMixin.FieldDefinitionsApi(node, host);
    }
  }

  /** `interfaceTypeApi(node)`: a view of `node`, which must be an InterfaceTypeDefinition. */
  method InterfaceTypeApiOf(node: Node, host: Ast.Host) returns (r: Result<InterfaceTypeApi, Error>)
    ensures r.Success? <==> IsKind(node.value, INTERFACE_TYPE_DEFINITION)
    ensures r.Failure? ==> r.error == KindMismatch(INTERFACE_TYPE_DEFINITION, Get(node.value, "kind"))
    ensures r.Success? ==> fresh(r.value) && r.value.node == node && r.value.fields.Bound()
  {
    var checked := ValidateNodeKind(INTERFACE_TYPE_DEFINITION, node.value);
    if checked.Failure? {
      return Failure(checked.error);
    }
    var api := new InterfaceTypeApi(node, host);
    return Success(api);
  }

  /** A union type: its member types are named types, kept under `types` and keyed by name. */
  class UnionTypeApi {
    const node: Node
    const kind: KindAssertionApi
    const description: DescriptionMixin.DescriptionApi
    const directives: DirectiveMixin.DirectivesApi
    const types: Crud

    constructor(node: Node, host: Ast.Host)
      requires IsKind(node.value, UNION_TYPE_DEFINITION)
      ensures this.node == node && kind.node == node && description.node == node && directives.node == node
      ensures types.parent == node && types.key == "types" && types.matcher == NameOf
      ensures types.factory == NamedTypeFactory(host)
    {
      this.node := node;
      this.kind := new KindAssertionApi(node);
      this.description := new DescriptionMixin.DescriptionApi(node);
      this.directives := new DirectiveMixin.DirectivesApi(node, host);
      this.types := new Crud(node, "types", NamedTypeFactory(host), NameOf);
    }
  }

  /** `unionTypeApi(node)`: a view of `node`, which must be a UnionTypeDefinition. */
  method UnionTypeApiOf(node: Node, host: Ast.Host) returns (r: Result<UnionTypeApi, Error>)
    ensures r.Success? <==> IsKind(node.value, UNION_TYPE_DEFINITION)
    ensures r.Failure? ==> r.error == KindMismatch(UNION_TYPE_DEFINITION, Get(node.value, "kind"))
    ensures r.Success? ==> fresh(r.value) && r.value.node == node && r.value.types.parent == node
  {
    var checked := ValidateNodeKind(UNION_TYPE_DEFINITION, node.value);
    if checked.Failure? {
      return Failure(checked.error);
    }
    var api := new UnionTypeApi(node, host);
    return Success(api);
  }

  /** A scalar type: name, description and directives only. */
  class ScalarTypeApi {
    const node: Node
    const kind: KindAssertionApi
    const description: DescriptionMixin.DescriptionApi
    const directives: DirectiveMixin.DirectivesApi

    constructor(node: Node, host: Ast.Host)
      requires IsKind(node.value, SCALAR_TYPE_DEFINITION)
      ensures this.node == node && kind.node == node && description.node == node && directives.node == node
    {
      this.node := node;
      this.kind := new KindAssertionApi(node);
      this.description := new DescriptionMixin.DescriptionApi(node);
      this.directives := new DirectiveMixin.DirectivesApi(node, host);
    }
  }

  /** `scalarTypeApi(node)`: a view of `node`, which must be a ScalarTypeDefinition. */
  method ScalarTypeApiOf(node: Node, host: Ast.Host) returns (r: Result<ScalarTypeApi, Error>)
    ensures r.Success? <==> IsKind(node.value, SCALAR_TYPE_DEFINITION)
    ensures r.Failure? ==> r.error == KindMismatch(SCALAR_TYPE_DEFINITION, Get(node.value, "kind"))
    ensures r.Success? ==> fresh(r.value) && r.value.node == node
  {
    var checked := ValidateNodeKind(SCALAR_TYPE_DEFINITION, node.value);
    if checked.Failure? {
      return Failure(checked.error);
    }
    var api := new ScalarTypeApi(node, host);
    return Success(api);
  }

  /** An enum type: its value definitions are kept under `values` and keyed by name. */
  class EnumTypeApi {
    const node: Node
    const kind: KindAssertionApi
    const description: DescriptionMixin.DescriptionApi
    const directives: DirectiveMixin.DirectivesApi
    const values: Crud

    constructor(node: Node, host: Ast.Host)
      requires IsKind(node.value, ENUM_TYPE_DEFINITION)
      ensures this.node == node && kind.node == node && description.node == node && directives.node == node
      ensures values.parent == node && values.key == "values" && values.matcher == NameOf
      ensures values.factory == EnumValueFactory(host)
    {
      this.node := node;
      this.kind := new KindAssertionApi(node);
      this.description := new DescriptionMixin.DescriptionApi(node);
      this.directives := new DirectiveMixin.DirectivesApi(node, host);
      this.values := new Crud(node, "values", EnumValueFactory(host), NameOf);
    }
  }

  /** `enumTypeApi(node)`: a view of `node`, which must be an EnumTypeDefinition. */
  method EnumTypeApiOf(node: Node, host: Ast.Host) returns (r: Result<EnumTypeApi, Error>)
    ensures r.Success? <==> IsKind(node.value, ENUM_TYPE_DEFINITION)
    ensures r.Failure? ==> r.error == KindMismatch(ENUM_TYPE_DEFINITION, Get(node.value, "kind"))
    ensures r.Success? ==> fresh(r.value) && r.value.node == node && r.value.values.parent == node
  {
    var checked := ValidateNodeKind(ENUM_TYPE_DEFINITION, node.value);
    if checked.Failure? {
      return Failure(checked.error);
    }
    var api := new EnumTypeApi(node, host);
    return Success(api);
  }

  /** An input object type: its input value definitions are its `fields`, keyed by name. */
  class InputTypeApi {
    const node: Node
    const kind: KindAssertionApi
    const description: DescriptionMixin.DescriptionApi
    const directives: DirectiveMixin.DirectivesApi
    const fields: Crud

    constructor(node: Node, host: Ast.Host)
      requires IsKind(node.value, INPUT_OBJECT_TYPE_DEFINITION)
      ensures this.node == node && kind.node == node && description.node == node && directives.node == node
      ensures fields.parent == node && fields.key == "fields" && fields.matcher == NameOf
      ensures fields.factory == InputValueFactory(host)
    {
      this.node := node;
      this.kind := new KindAssertionApi(node);
      this.description := new DescriptionMixin.DescriptionApi(node);
      this.directives := new DirectiveMixin.DirectivesApi(node, host);
      this.fields := new Crud(node, "fields", InputValueFactory(host), NameOf);
    }
  }

  /** `inputTypeApi(node)`: a view of `node`, which must be an InputObjectTypeDefinition. */
  method InputTypeApiOf(node: Node, host: Ast.Host) returns (r: Result<InputTypeApi, Error>)
    ensures r.Success? <==> IsKind(node.value, INPUT_OBJECT_TYPE_DEFINITION)
    ensures r.Failure? ==> r.error == KindMismatch(INPUT_OBJECT_TYPE_DEFINITION, Get(node.value, "kind"))
    ensures r.Success? ==> fresh(r.value) && r.value.node == node && r.value.fields.parent == node
  {
    var checked := ValidateNodeKind(INPUT_OBJECT_TYPE_DEFINITION, node.value);
    if checked.Failure? {
      return Failure(checked.error);
    }
    var api := new InputTypeApi(node, host);
    return Success(api);
  }

  /**
   * The six kinds are distinct tags, so a node passes the check of at most one view: the
   * `TypeDefinitonApi` union is discriminated by the node's kind.
   */
  lemma AtMostOneView(v: Value)
    ensures IsKind(v, OBJECT_TYPE_DEFINITION) ==>
      !IsKind(v, INTERFACE_TYPE_DEFINITION) && !IsKind(v, UNION_TYPE_DEFINITION) && !IsKind(v, SCALAR_TYPE_DEFINITION)
      && !IsKind(v, ENUM_TYPE_DEFINITION) && !IsKind(v, INPUT_OBJECT_TYPE_DEFINITION)
    ensures IsKind(v, INTERFACE_TYPE_DEFINITION) ==>
      !IsKind(v, UNION_TYPE_DEFINITION) && !IsKind(v, SCALAR_TYPE_DEFINITION)
      && !IsKind(v, ENUM_TYPE_DEFINITION) && !IsKind(v, INPUT_OBJECT_TYPE_DEFINITION)
    ensures IsKind(v, UNION_TYPE_DEFINITION) ==>
      !IsKind(v, SCALAR_TYPE_DEFINITION) && !IsKind(v, ENUM_TYPE_DEFINITION) && !IsKind(v, INPUT_OBJECT_TYPE_DEFINITION)
    ensures IsKind(v, SCALAR_TYPE_DEFINITION) ==> !IsKind(v, ENUM_TYPE_DEFINITION) && !IsKind(v, INPUT_OBJECT_TYPE_DEFINITION)
    ensures IsKind(v, ENUM_TYPE_DEFINITION) ==> !IsKind(v, INPUT_OBJECT_TYPE_DEFINITION)
  {
  }
}
