/**
 * The node factory of src/ast.ts: one constructor per node kind, each accepting a bare string,
 * a props object or an already-built node, and lowering nested props through the applyProps
 * combinators. The constructors call one another through those combinators, so inside this
 * module a constructor is named first-order by a `Ctor` and run by `Build`.
 */
module Ast {
  import opened Wrappers
  import opened Js
  import opened Errors
  import opened Kinds
  import Numbers
  import AP = ApplyProps

  /**
   * What the factory takes from outside: graphql-js's `parseType` (used for string type props)
   * and the text of `'' + parseFloat(s)`.
   */
  datatype Host = Host(parseType: string -> Result<Value, Error>, floatText: string -> string)

  /** The dispatch tables that map a `kind` tag to a constructor. */
  datatype Table =
    | TypeDefinitionTable
    | TypeExtensionTable
    | TypeSystemDefinitionTable
    | TypeSystemExtensionTable
    | ExecutableDefinitionTable
    | DefinitionTable

  /**
   * A constructor passed to a combinator: the one for a kind, `typeNode`, `selectionNode`, a
   * table dispatcher, or the `(selections) => selectionSetNode({ selections })` of `fieldNode`.
   */
  datatype Ctor =
    | Leaf(kind: Kind)
    | TypeC
    | SelectionC
    | DefinitionC(table: Table)
    | SelectionSetOf

  /** A node of kind `k`: its `kind` tag first, then `fields` in the order the source lists them. */
  function Make(k: Kind, fields: seq<Entry>): (v: Value)
    ensures IsNode(v, k)
  {
    var es := [Entry("kind", Str(Tag(k)))] + fields;
    assert es[0] == Entry("kind", Str(Tag(k)));
    Obj(es)
  }

  /** `v` is a node whose `kind` is the tag of `k`. */
  predicate IsNode(v: Value, k: Kind) {
    AP.IsAstNode(v) && Get(v, "kind") == Str(Tag(k))
  }

  /** `{ ...first, ...second }` read at one key: the later table wins. */
  function Spread(first: Option<Kind>, second: Option<Kind>): Option<Kind> {
    if second.Some? then second else first
  }

  /** `kindToTypeDefinition[key]`; every table is keyed by the tags of the kinds it builds. */
  function TypeDefinitionKind(key: string): (r: Option<Kind>)
    ensures r.Some? ==> Tag(r.value) == key
    ensures r.Some? ==> r.value in {ObjectTypeDefinition, InterfaceTypeDefinition, ScalarTypeDefinition,
      UnionTypeDefinition, EnumTypeDefinition, InputObjectTypeDefinition}
  {
    if key == Tag(ObjectTypeDefinition) then Some(ObjectTypeDefinition)
    else if key == Tag(InterfaceTypeDefinition) then Some(InterfaceTypeDefinition)
    else if key == Tag(ScalarTypeDefinition) then Some(ScalarTypeDefinition)
    else if key == Tag(UnionTypeDefinition) then Some(UnionTypeDefinition)
    else if key == Tag(EnumTypeDefinition) then Some(EnumTypeDefinition)
    else if key == Tag(InputObjectTypeDefinition) then Some(InputObjectTypeDefinition)
    else None
  }

  /** `kindToTypeExtension[key]`. */
  function TypeExtensionKind(key: string): (r: Option<Kind>)
    ensures r.Some? ==> Tag(r.value) == key
    ensures r.Some? ==> r.value in {ObjectTypeExtension, InterfaceTypeExtension, ScalarTypeExtension,
      UnionTypeExtension, EnumTypeExtension, InputObjectTypeExtension}
  {
    if key == Tag(ObjectTypeExtension) then Some(ObjectTypeExtension)
    else if key == Tag(InterfaceTypeExtension) then Some(InterfaceTypeExtension)
    else if key == Tag(ScalarTypeExtension) then Some(ScalarTypeExtension)
    else if key == Tag(UnionTypeExtension) then Some(UnionTypeExtension)
    else if key == Tag(EnumTypeExtension) then Some(EnumTypeExtension)
    else if key == Tag(InputObjectTypeExtension) then Some(InputObjectTypeExtension)
    else None
  }

  /** `kindToTypeSystemDefinition[key]`: the type definitions spread with the schema and directive definitions. */
  function TypeSystemDefinitionKind(key: string): (r: Option<Kind>)
    ensures r.Some? ==> Tag(r.value) == key
    ensures r == TypeDefinitionKind(key) || r == Some(SchemaDefinition) || r == Some(DirectiveDefinition)
  {
    var schema := if key == Tag(SchemaDefinition) then Some(SchemaDefinition)
      else if key == Tag(DirectiveDefinition) then Some(DirectiveDefinition)
      else None;
    Spread(TypeDefinitionKind(key), schema)
  }

  /** `kindToTypeSystemExtension[key]`: the type extensions spread with the schema extension. */
  function TypeSystemExtensionKind(key: string): (r: Option<Kind>)
    ensures r.Some? ==> Tag(r.value) == key
    ensures r == TypeExtensionKind(key) || r == Some(SchemaExtension)
  {
    var schema := if key == Tag(SchemaExtension) then Some(SchemaExtension) else None;
    Spread(TypeExtensionKind(key), schema)
  }

  /** `kindToExecutableDefinition[key]`. */
  function ExecutableDefinitionKind(key: string): (r: Option<Kind>)
    ensures r.Some? ==> Tag(r.value) == key
    ensures r.Some? ==> r.value in {OperationDefinition, FragmentDefinition}
  {
    if key == Tag(OperationDefinition) then Some(OperationDefinition)
    else if key == Tag(FragmentDefinition) then Some(FragmentDefinition)
    else None
  }

  /** `kindToDefinition[key]`: the three tables above spread in order. */
  function DefinitionKind(key: string): (r: Option<Kind>)
    ensures r.Some? ==> Tag(r.value) == key
    ensures r.Some? <==> TypeSystemDefinitionKind(key).Some? || TypeSystemExtensionKind(key).Some? || ExecutableDefinitionKind(key).Some?
  {
    Spread(Spread(TypeSystemDefinitionKind(key), TypeSystemExtensionKind(key)), ExecutableDefinitionKind(key))
  }

  /** The kinds `selectionNode` accepts. */
  function SelectionKind(key: string): (r: Option<Kind>)
    ensures r.Some? ==> r.value in {Field, FragmentSpread, InlineFragment}
  {
    if key == Tag(Field) then Some(Field)
    else if key == Tag(FragmentSpread) then Some(FragmentSpread)
    else if key == Tag(InlineFragment) then Some(InlineFragment)
    else None
  }

  function TableKind(t: Table, key: string): Option<Kind> {
    match t
    case TypeDefinitionTable => TypeDefinitionKind(key)
    case TypeExtensionTable => TypeExtensionKind(key)
    case TypeSystemDefinitionTable => TypeSystemDefinitionKind(key)
    case TypeSystemExtensionTable => TypeSystemExtensionKind(key)
    case ExecutableDefinitionTable => ExecutableDefinitionKind(key)
    case DefinitionTable => DefinitionKind(key)
  }

  /** The second component of the termination measure `(Size(props), Rank(ctor), level)`. */
  function Rank(c: Ctor): nat {
    match c
    case Leaf(k) => if k == Name then 0 else if k == SelectionSet then 4 else 1
    case TypeC => 0
    case SelectionC => 2
    case SelectionSetOf => 3
    case DefinitionC(_) => 5
  }

  /** `props && typeof props === 'object' ? props[key] : props`: the leaf a scalar constructor reads. */
  function ObjectLeaf(p: Value, key: string): (leaf: Value)
    ensures Size(leaf) <= Size(p)
  {
    if Truthy(p) && (p.Obj? || p.Arr?) then Get(p, key) else p
  }

  /** `toBool['' + value] ?? !!value` of `booleanValueNode`. */
  function ParseBoolean(v: Value): bool {
    var text := ToStr(v);
    if text == "true" then true else if text == "false" then false else Truthy(v)
  }

  /** `listTypeNode` on an already lowered type. */
  function WrapList(t: Value): Value {
    Make(ListType, [Entry("type", t)])
  }

  /** `nonNullTypeNode` on an already lowered type: a NonNullType is kept, anything else wrapped once. */
  function WrapNonNull(t: Value): Value {
    if Truthy(t) && Get(t, "kind") == Str(Tag(NonNullType)) then t else Make(NonNullType, [Entry("type", t)])
  }

  // ─── combinators, first-order ─────────────────────────────────────────────────

  /** Run the constructor named by `c`. */
  function Build(h: Host, c: Ctor, p: Value): (r: Result<Value, Error>)
    ensures c.Leaf? && r.Success? ==> IsNode(r.value, c.kind)
    decreases Size(p), Rank(c), 1
  {
    match c
    case TypeC => TypeNode(h, p)
    case SelectionC => SelectionNode(h, p)
    case DefinitionC(t) => Dispatch(h, t, p)
    case SelectionSetOf => SelectionSetFrom(h, p)
    case Leaf(k) =>
      match k
      case Name => NameNode(p)
      case Document => DocumentNode(h, p)
      case OperationDefinition => OperationDefinitionNode(h, p)
      case VariableDefinition => VariableDefinitionNode(h, p)
      case SelectionSet => SelectionSetNode(h, p)
      case Field => FieldNode(h, p)
      case Argument => ArgumentNode(h, p)
      case FragmentSpread => FragmentSpreadNode(h, p)
      case InlineFragment => InlineFragmentNode(h, p)
      case FragmentDefinition => FragmentDefinitionNode(h, p)
      case Variable => VariableNode(p)
      case IntValue => IntValueNode(p)
      case FloatValue => FloatValueNode(h, p)
      case StringValue => StringValueNode(p)
      case BooleanValue => BooleanValueNode(p)
      case NullValue => NullValueNode(p)
      case EnumValue => EnumValueNode(p)
      case ListValue => ListValueNode(p)
      case ObjectValue => ObjectValueNode(p)
      case ObjectField => ObjectFieldNode(h, p)
      case Directive => DirectiveNode(h, p)
      case NamedType => NamedTypeNode(h, p)
      case ListType => ListTypeNode(h, p)
      case NonNullType => NonNullTypeNode(h, p)
      case SchemaDefinition => SchemaDefinitionNode(h, p)
      case OperationTypeDefinition => OperationTypeDefinitionNode(h, p)
      case ScalarTypeDefinition => ScalarTypeDefinitionNode(h, p)
      case ObjectTypeDefinition => ObjectTypeDefinitionNode(h, p)
      case FieldDefinition => FieldDefinitionNode(h, p)
      case InputValueDefinition => InputValueDefinitionNode(h, p)
      case InterfaceTypeDefinition => InterfaceTypeDefinitionNode(h, p)
      case UnionTypeDefinition => UnionTypeDefinitionNode(h, p)
      case EnumTypeDefinition => EnumTypeDefinitionNode(h, p)
      case EnumValueDefinition => EnumValueDefinitionNode(h, p)
      case InputObjectTypeDefinition => InputObjectTypeDefinitionNode(h, p)
      case DirectiveDefinition => DirectiveDefinitionNode(h, p)
      case SchemaExtension => SchemaExtensionNode(h, p)
      case ScalarTypeExtension => ScalarTypeExtensionNode(h, p)
      case ObjectTypeExtension => ObjectTypeExtensionNode(h, p)
      case InterfaceTypeExtension => InterfaceTypeExtensionNode(h, p)
      case UnionTypeExtension => UnionTypeExtensionNode(h, p)
      case EnumTypeExtension => EnumTypeExtensionNode(h, p)
      case InputObjectTypeExtension => InputObjectTypeExtensionNode(h, p)
  }

  /** `propsOrNodeFn(c)(p)`. */
  function Lower(h: Host, c: Ctor, p: Value): (r: Result<Value, Error>)
    decreases Size(p), Rank(c), 2
  {
    if AP.IsAstNode(p) then Success(p) else if Truthy(p) then Build(h, c, p) else Success(Undefined)
  }

  /** `arrayableFn(propsOrNodeFn(c))(p)`. */
  function LowerArr(h: Host, c: Ctor, p: Value): (r: Result<Value, Error>)
    decreases Size(p), Rank(c), 3
  {
    match p
    case Arr(xs) =>
      var ys :- LowerEach(h, c, xs);
      Success(Arr(ys))
    case _ => Failure(TypeError)
  }

  function LowerEach(h: Host, c: Ctor, xs: seq<Value>): (r: Result<seq<Value>, Error>)
    decreases SizeAll(xs), Rank(c), 3
  {
    if xs == [] then Success([])
    else
      var y :- Lower(h, c, xs[0]);
      var ys :- LowerEach(h, c, xs[1..]);
      Success([y] + ys)
  }

  /** `applyProps(c, p)`. */
  function ApplyProps(h: Host, c: Ctor, p: Value): (r: Result<Value, Error>)
    decreases Size(p), Rank(c), 4
  {
    if p != Undefined then Lower(h, c, p) else Success(Undefined)
  }

  /** `applyPropsNullable(c, p)`. */
  function ApplyPropsNullable(h: Host, c: Ctor, p: Value): (r: Result<Value, Error>)
    decreases Size(p), Rank(c), 4
  {
    if Truthy(p) then Lower(h, c, p) else Success(Undefined)
  }

  /** `applyPropsArr(c, p)`. */
  function ApplyPropsArr(h: Host, c: Ctor, p: Value): (r: Result<Value, Error>)
    decreases Size(p), Rank(c), 4
  {
    if p != Undefined then LowerArr(h, c, p) else Success(Undefined)
  }

  /** `applyPropsNullableArr(c, p)`. */
  function ApplyPropsNullableArr(h: Host, c: Ctor, p: Value): (r: Result<Value, Error>)
    decreases Size(p), Rank(c), 4
  {
    if Truthy(p) then LowerArr(h, c, p) else Success(Undefined)
  }

  // ─── name, document, operations ───────────────────────────────────────────────

  function NameNode(p: Value): (r: Result<Value, Error>)
    ensures Nullish(p) <==> r == Failure(TypeError)
    ensures !Nullish(p) ==> r.Success?
    ensures r.Success? ==> IsNode(r.value, Name)
    decreases Size(p), 0, 0
  {
    if p.Str? then Success(Make(Name, [Entry("value", p)]))
    else if Nullish(p) then Failure(TypeError)
    else Success(Make(Name, [Entry("value", Get(p, "name"))]))
  }

  function DocumentNode(h: Host, p: Value): (r: Result<Value, Error>)
    ensures Nullish(p) ==> r == Failure(TypeError)
    ensures r.Success? ==> IsNode(r.value, Document)
    decreases Size(p), 1, 0
  {
    if Nullish(p) then Failure(TypeError)
    else
      var definitions :- ApplyPropsArr(h, DefinitionC(DefinitionTable), Get(p, "definitions"));
      Success(Make(Document, [Entry("definitions", definitions)]))
  }

  /** `applyProps(selectionSetNode, applyNullableImplicit((selections) => ({ selections }), s))`. */
  function WrappedSelectionSet(h: Host, s: Value): (r: Result<Value, Error>)
    decreases Size(s), 3, 1
  {
    if s == Undefined then Success(Undefined) else SelectionSetFrom(h, s)
  }

  function OperationDefinitionNode(h: Host, p: Value): (r: Result<Value, Error>)
    ensures Nullish(p) ==> r == Failure(TypeError)
    ensures r.Success? ==> IsNode(r.value, OperationDefinition)
    decreases Size(p), 1, 0
  {
    if Nullish(p) then Failure(TypeError)
    else
      var name :- ApplyPropsNullable(h, Leaf(Name), Get(p, "name"));
      var variableDefinitions :- ApplyPropsNullableArr(h, Leaf(VariableDefinition), Get(p, "variableDefinitions"));
      var directives :- ApplyPropsNullableArr(h, Leaf(Directive), Get(p, "directives"));
      var selectionSet :- WrappedSelectionSet(h, Get(p, "selections"));
      Success(Make(OperationDefinition, [
        Entry("operation", Get(p, "operation")), Entry("name", name),
        Entry("variableDefinitions", variableDefinitions), Entry("directives", directives),
        Entry("selectionSet", selectionSet)]))
  }

  function VariableDefinitionNode(h: Host, p: Value): (r: Result<Value, Error>)
    ensures Nullish(p) ==> r == Failure(TypeError)
    ensures r.Success? ==> IsNode(r.value, VariableDefinition)
    decreases Size(p), 1, 0
  {
    if Nullish(p) then Failure(TypeError)
    else
      var variable :- ApplyProps(h, Leaf(Variable), Get(p, "variable"));
      var typ :- ApplyProps(h, TypeC, Get(p, "type"));
      var directives :- ApplyPropsNullableArr(h, Leaf(Directive), Get(p, "directives"));
      Success(Make(VariableDefinition, [
        Entry("variable", variable), Entry("type", typ), Entry("defaultValue", Get(p, "defaultValue")),
        Entry("directives", directives)]))
  }

  function VariableNode(p: Value): (r: Result<Value, Error>)
    ensures r.Success? ==> IsNode(r.value, Variable)
    decreases Size(p), 1, 0
  {
    var leaf := ObjectLeaf(p, "name");
    var name :- if leaf != Undefined then NameNode(leaf) else Success(Undefined);
    Success(Make(Variable, [Entry("name", name)]))
  }

  /** The body of `selectionSetNode` once its `selections` have been read. */
  function SelectionSetFrom(h: Host, selections: Value): (r: Result<Value, Error>)
    ensures r.Success? ==> IsNode(r.value, SelectionSet)
    decreases Size(selections), 3, 0
  {
    var lowered :- ApplyPropsArr(h, SelectionC, selections);
    Success(Make(SelectionSet, [Entry("selections", lowered)]))
  }

  function SelectionSetNode(h: Host, p: Value): (r: Result<Value, Error>)
    ensures r.Success? ==> IsNode(r.value, SelectionSet)
    decreases Size(p), 4, 0
  {
    SelectionSetFrom(h, if Truthy(p) then Get(p, "selections") else Undefined)
  }

  function FieldNode(h: Host, p: Value): (r: Result<Value, Error>)
    ensures Nullish(p) ==> r == Failure(TypeError)
    ensures r.Success? ==> IsNode(r.value, Field)
    decreases Size(p), 1, 0
  {
    if p.Str? then Success(Make(Field, [Entry("name", NameNode(p).value)]))
    else if Nullish(p) then Failure(TypeError)
    else
      var name :- ApplyProps(h, Leaf(Name), Get(p, "name"));
      var alias :- ApplyPropsNullable(h, Leaf(Name), Get(p, "alias"));
      var arguments :- ApplyPropsNullableArr(h, Leaf(Argument), Get(p, "arguments"));
      var directives :- ApplyPropsNullableArr(h, Leaf(Directive), Get(p, "directives"));
      var selectionSet :- ApplyPropsNullable(h, SelectionSetOf, Get(p, "selections"));
      Success(Make(Field, [
        Entry("name", name), Entry("alias", alias), Entry("arguments", arguments),
        Entry("directives", directives), Entry("selectionSet", selectionSet)]))
  }

  function ArgumentNode(h: Host, p: Value): (r: Result<Value, Error>)
    ensures Nullish(p) ==> r == Failure(TypeError)
    ensures r.Success? ==> IsNode(r.value, Argument)
    decreases Size(p), 1, 0
  {
    if Nullish(p) then Failure(TypeError)
    else
      var name :- ApplyProps(h, Leaf(Name), Get(p, "name"));
      Success(Make(Argument, [Entry("name", name), Entry("value", Get(p, "value"))]))
  }

  // ─── fragments ────────────────────────────────────────────────────────────────

  function FragmentSpreadNode(h: Host, p: Value): (r: Result<Value, Error>)
    ensures Nullish(p) ==> r == Failure(TypeError)
    ensures r.Success? ==> IsNode(r.value, FragmentSpread)
    decreases Size(p), 1, 0
  {
    if p.Str? then
      var name :- ApplyProps(h, Leaf(Name), p);
      Success(Make(FragmentSpread, [Entry("name", name), Entry("directives", Arr([]))]))
    else if Nullish(p) then Failure(TypeError)
    else
      var name :- ApplyProps(h, Leaf(Name), Get(p, "name"));
      var directives :- ApplyPropsNullableArr(h, Leaf(Directive), Get(p, "directives"));
      Success(Make(FragmentSpread, [Entry("name", name), Entry("directives", directives)]))
  }

  function InlineFragmentNode(h: Host, p: Value): (r: Result<Value, Error>)
    ensures Nullish(p) ==> r == Failure(TypeError)
    ensures r.Success? ==> IsNode(r.value, InlineFragment)
    decreases Size(p), 1, 0
  {
    if Nullish(p) then Failure(TypeError)
    else
      var typeCondition :- ApplyPropsNullable(h, Leaf(NamedType), Get(p, "typeCondition"));
      var directives :- ApplyPropsNullableArr(h, Leaf(Directive), Get(p, "directives"));
      var selectionSet :- WrappedSelectionSet(h, Get(p, "selections"));
      Success(Make(InlineFragment, [
        Entry("typeCondition", typeCondition), Entry("directives", directives),
        Entry("selectionSet", selectionSet)]))
  }

  function FragmentDefinitionNode(h: Host, p: Value): (r: Result<Value, Error>)
    ensures Nullish(p) ==> r == Failure(TypeError)
    ensures r.Success? ==> IsNode(r.value, FragmentDefinition)
    decreases Size(p), 1, 0
  {
    if Nullish(p) then Failure(TypeError)
    else
      var name :- ApplyProps(h, Leaf(Name), Get(p, "name"));
      var variableDefinitions :- ApplyPropsNullableArr(h, Leaf(VariableDefinition), Get(p, "variableDefinitions"));
      var typeCondition :- ApplyProps(h, Leaf(NamedType), Get(p, "typeCondition"));
      var directives :- ApplyPropsNullableArr(h, Leaf(Directive), Get(p, "directives"));
      var selectionSet :- WrappedSelectionSet(h, Get(p, "selections"));
      Success(Make(FragmentDefinition, [
        Entry("name", name), Entry("variableDefinitions", variableDefinitions),
        Entry("typeCondition", typeCondition), Entry("directives", directives),
        Entry("selectionSet", selectionSet)]))
  }

  // ─── values ───────────────────────────────────────────────────────────────────

  function IntValueNode(p: Value): (r: Result<Value, Error>)
    ensures r.Success? ==> IsNode(r.value, IntValue)
    decreases Size(p), 1, 0
  {
    var leaf := ObjectLeaf(p, "value");
    Success(Make(IntValue, [Entry("value", if leaf != Undefined then Str(Numbers.IntText(ToStr(leaf))) else Undefined)]))
  }

  function FloatValueNode(h: Host, p: Value): (r: Result<Value, Error>)
    ensures r.Success? ==> IsNode(r.value, FloatValue)
    decreases Size(p), 1, 0
  {
    var leaf := ObjectLeaf(p, "value");
    Success(Make(FloatValue, [Entry("value", if leaf != Undefined then Str(h.floatText(ToStr(leaf))) else Undefined)]))
  }

  function StringValueNode(p: Value): (r: Result<Value, Error>)
    ensures r.Success? ==> IsNode(r.value, StringValue)
    decreases Size(p), 1, 0
  {
    Success(Make(StringValue, [Entry("value", ObjectLeaf(p, "value"))]))
  }

  function BooleanValueNode(p: Value): (r: Result<Value, Error>)
    ensures r.Success? ==> IsNode(r.value, BooleanValue)
    decreases Size(p), 1, 0
  {
    var leaf := ObjectLeaf(p, "value");
    Success(Make(BooleanValue, [Entry("value", if leaf != Undefined then Bool(ParseBoolean(leaf)) else Undefined)]))
  }

  function NullValueNode(p: Value): (r: Result<Value, Error>)
    ensures r.Success? ==> IsNode(r.value, NullValue)
    decreases Size(p), 1, 0
  {
    Success(Make(NullValue, []))
  }

  function EnumValueNode(p: Value): (r: Result<Value, Error>)
    ensures r.Success? ==> IsNode(r.value, EnumValue)
    decreases Size(p), 1, 0
  {
    Success(Make(EnumValue, [Entry("value", ObjectLeaf(p, "value"))]))
  }

  function ListValueNode(p: Value): (r: Result<Value, Error>)
    ensures r.Success? ==> IsNode(r.value, ListValue)
    decreases Size(p), 1, 0
  {
    Success(Make(ListValue, [Entry("values", if Truthy(p) then Get(p, "values") else Undefined)]))
  }

  function ObjectValueNode(p: Value): (r: Result<Value, Error>)
    ensures r.Success? ==> IsNode(r.value, ObjectValue)
    decreases Size(p), 1, 0
  {
    Success(Make(ObjectValue, [Entry("fields", if Truthy(p) then Get(p, "fields") else Undefined)]))
  }

  function ObjectFieldNode(h: Host, p: Value): (r: Result<Value, Error>)
    ensures Nullish(p) ==> r == Failure(TypeError)
    ensures r.Success? ==> IsNode(r.value, ObjectField)
    decreases Size(p), 1, 0
  {
    if Nullish(p) then Failure(TypeError)
    else
      var name :- ApplyProps(h, Leaf(Name), Get(p, "name"));
      Success(Make(ObjectField, [Entry("name", name), Entry("value", Get(p, "value"))]))
  }

  // ─── directives ───────────────────────────────────────────────────────────────

  function DirectiveNode(h: Host, p: Value): (r: Result<Value, Error>)
    ensures Nullish(p) ==> r == Failure(TypeError)
    ensures r.Success? ==> IsNode(r.value, Directive)
    decreases Size(p), 1, 0
  {
    if p.Str? then Success(Make(Directive, [Entry("name", NameNode(p).value)]))
    else if Nullish(p) then Failure(TypeError)
    else
      var name :- ApplyProps(h, Leaf(Name), Get(p, "name"));
      var arguments :- ApplyPropsNullableArr(h, Leaf(Argument), Get(p, "arguments"));
      Success(Make(Directive, [Entry("name", name), Entry("arguments", arguments)]))
  }

  // ─── types ────────────────────────────────────────────────────────────────────

  function NamedTypeNode(h: Host, p: Value): (r: Result<Value, Error>)
    ensures r.Success? ==> IsNode(r.value, NamedType)
    decreases Size(p), 1, 0
  {
    var leaf := if Truthy(p) && (p.Obj? || p.Arr?) then
        (if Nullish(Get(p, "value")) then Get(p, "name") else Get(p, "value"))
      else p;
    var name :- ApplyProps(h, Leaf(Name), leaf);
    Success(Make(NamedType, [Entry("name", name)]))
  }

  function ListTypeNode(h: Host, p: Value): (r: Result<Value, Error>)
    ensures r.Success? ==> IsNode(r.value, ListType)
    decreases Size(p), 1, 0
  {
    var typ :- ApplyProps(h, TypeC, p);
    Success(Make(ListType, [Entry("type", typ)]))
  }

  function NonNullTypeNode(h: Host, p: Value): (r: Result<Value, Error>)
    ensures r.Success? ==> IsNode(r.value, NonNullType)
    decreases Size(p), 1, 0
  {
    var typ :- ApplyProps(h, TypeC, p);
    if Truthy(typ) && Get(typ, "kind") == Str(Tag(NonNullType)) then Success(typ)
    else Success(Make(NonNullType, [Entry("type", typ)]))
  }

  /**
   * `typeNode`: a string goes to the parser; otherwise the named type is lowered and wrapped by
   * the `list`/`nonNull` flags, the pair of them giving a non-null list of non-null items.
   */
  function TypeNode(h: Host, p: Value): (r: Result<Value, Error>)
    ensures p.Str? ==> r == h.parseType(p.s)
    ensures Nullish(p) ==> r == Failure(TypeError)
    ensures !p.Str? && r.Success? && Truthy(Get(p, "nonNull")) ==> IsNode(r.value, NonNullType)
    ensures !p.Str? && r.Success? && Truthy(Get(p, "list")) && !Truthy(Get(p, "nonNull")) ==> IsNode(r.value, ListType)
    ensures !p.Str? && !Nullish(p) && !Truthy(Get(p, "list")) && !Truthy(Get(p, "nonNull")) ==>
      r == ApplyProps(h, Leaf(NamedType), Get(p, "named"))
    decreases Size(p), 0, 0
  {
    if p.Str? then h.parseType(p.s)
    else if Nullish(p) then Failure(TypeError)
    else
      var named :- ApplyProps(h, Leaf(NamedType), Get(p, "named"));
      var list := Truthy(Get(p, "list"));
      var nonNull := Truthy(Get(p, "nonNull"));
      if !list && !nonNull then Success(named)
      else if list && !nonNull then Success(WrapList(named))
      else if !list && nonNull then Success(WrapNonNull(named))
      else Success(WrapNonNull(WrapList(WrapNonNull(named))))
  }

  // ─── type system definitions ──────────────────────────────────────────────────

  function SchemaDefinitionNode(h: Host, p: Value): (r: Result<Value, Error>)
    ensures Nullish(p) ==> r == Failure(TypeError)
    ensures r.Success? ==> IsNode(r.value, SchemaDefinition)
    decreases Size(p), 1, 0
  {
    if Nullish(p) then Failure(TypeError)
    else
      var directives :- ApplyPropsNullableArr(h, Leaf(Directive), Get(p, "directives"));
      var operationTypes :- ApplyPropsArr(h, Leaf(OperationTypeDefinition), Get(p, "operationTypes"));
      Success(Make(SchemaDefinition, [Entry("directives", directives), Entry("operationTypes", operationTypes)]))
  }

  function OperationTypeDefinitionNode(h: Host, p: Value): (r: Result<Value, Error>)
    ensures Nullish(p) ==> r == Failure(TypeError)
    ensures r.Success? ==> IsNode(r.value, OperationTypeDefinition)
    decreases Size(p), 1, 0
  {
    if Nullish(p) then Failure(TypeError)
    else
      var typ :- ApplyProps(h, Leaf(NamedType), Get(p, "type"));
      Success(Make(OperationTypeDefinition, [Entry("operation", Get(p, "operation")), Entry("type", typ)]))
  }

  function ScalarTypeDefinitionNode(h: Host, p: Value): (r: Result<Value, Error>)
    ensures Nullish(p) ==> r == Failure(TypeError)
    ensures r.Success? ==> IsNode(r.value, ScalarTypeDefinition)
    decreases Size(p), 1, 0
  {
    if Nullish(p) then Failure(TypeError)
    else
      var name :- ApplyProps(h, Leaf(Name), Get(p, "name"));
      var description :- ApplyPropsNullable(h, Leaf(StringValue), Get(p, "description"));
      var directives :- ApplyPropsNullableArr(h, Leaf(Directive), Get(p, "directives"));
      Success(Make(ScalarTypeDefinition, [
        Entry("name", name), Entry("description", description), Entry("directives", directives)]))
  }

  function ObjectTypeDefinitionNode(h: Host, p: Value): (r: Result<Value, Error>)
    ensures Nullish(p) ==> r == Failure(TypeError)
    ensures r.Success? ==> IsNode(r.value, ObjectTypeDefinition)
    decreases Size(p), 1, 0
  {
    if Nullish(p) then Failure(TypeError)
    else
      var name :- ApplyProps(h, Leaf(Name), Get(p, "name"));
      var description :- ApplyPropsNullable(h, Leaf(StringValue), Get(p, "description"));
      var interfaces :- ApplyPropsNullableArr(h, Leaf(NamedType), Get(p, "interfaces"));
      var directives :- ApplyPropsNullableArr(h, Leaf(Directive), Get(p, "directives"));
      var fields :- ApplyPropsNullableArr(h, Leaf(FieldDefinition), Get(p, "fields"));
      Success(Make(ObjectTypeDefinition, [
        Entry("name", name), Entry("description", description), Entry("interfaces", interfaces),
        Entry("directives", directives), Entry("fields", fields)]))
  }

  function FieldDefinitionNode(h: Host, p: Value): (r: Result<Value, Error>)
    ensures Nullish(p) ==> r == Failure(TypeError)
    ensures r.Success? ==> IsNode(r.value, FieldDefinition)
    decreases Size(p), 1, 0
  {
    if Nullish(p) then Failure(TypeError)
    else
      var name :- ApplyProps(h, Leaf(Name), Get(p, "name"));
      var description :- ApplyPropsNullable(h, Leaf(StringValue), Get(p, "description"));
      var arguments :- ApplyPropsNullableArr(h, Leaf(InputValueDefinition), Get(p, "arguments"));
      var typ :- ApplyProps(h, TypeC, Get(p, "type"));
      var directives :- ApplyPropsNullableArr(h, Leaf(Directive), Get(p, "directives"));
      Success(Make(FieldDefinition, [
        Entry("name", name), Entry("description", description), Entry("arguments", arguments),
        Entry("type", typ), Entry("directives", directives)]))
  }

  function InputValueDefinitionNode(h: Host, p: Value): (r: Result<Value, Error>)
    ensures Nullish(p) ==> r == Failure(TypeError)
    ensures r.Success? ==> IsNode(r.value, InputValueDefinition)
    decreases Size(p), 1, 0
  {
    if Nullish(p) then Failure(TypeError)
    else
      var name :- ApplyProps(h, Leaf(Name), Get(p, "name"));
      var description :- ApplyPropsNullable(h, Leaf(StringValue), Get(p, "description"));
      var typ :- ApplyProps(h, TypeC, Get(p, "type"));
      var directives :- ApplyPropsNullableArr(h, Leaf(Directive), Get(p, "directives"));
      Success(Make(InputValueDefinition, [
        Entry("name", name), Entry("description", description), Entry("type", typ),
        Entry("defaultValue", Get(p, "defaultValue")), Entry("directives", directives)]))
  }

  function InterfaceTypeDefinitionNode(h: Host, p: Value): (r: Result<Value, Error>)
    ensures Nullish(p) ==> r == Failure(TypeError)
    ensures r.Success? ==> IsNode(r.value, InterfaceTypeDefinition)
    decreases Size(p), 1, 0
  {
    if Nullish(p) then Failure(TypeError)
    else
      var name :- ApplyProps(h, Leaf(Name), Get(p, "name"));
      var description :- ApplyPropsNullable(h, Leaf(StringValue), Get(p, "description"));
      var directives :- ApplyPropsNullableArr(h, Leaf(Directive), Get(p, "directives"));
      var fields :- ApplyPropsNullableArr(h, Leaf(FieldDefinition), Get(p, "fields"));
      Success(Make(InterfaceTypeDefinition, [
        Entry("name", name), Entry("description", description), Entry("directives", directives),
        Entry("fields", fields)]))
  }

  function UnionTypeDefinitionNode(h: Host, p: Value): (r: Result<Value, Error>)
    ensures Nullish(p) ==> r == Failure(TypeError)
    ensures r.Success? ==> IsNode(r.value, UnionTypeDefinition)
    decreases Size(p), 1, 0
  {
    if Nullish(p) then Failure(TypeError)
    else
      var name :- ApplyProps(h, Leaf(Name), Get(p, "name"));
      var description :- ApplyPropsNullable(h, Leaf(StringValue), Get(p, "description"));
      var directives :- ApplyPropsNullableArr(h, Leaf(Directive), Get(p, "directives"));
      var types :- ApplyPropsNullableArr(h, Leaf(NamedType), Get(p, "types"));
      Success(Make(UnionTypeDefinition, [
        Entry("name", name), Entry("description", description), Entry("directives", directives),
        Entry("types", types)]))
  }

  function EnumTypeDefinitionNode(h: Host, p: Value): (r: Result<Value, Error>)
    ensures Nullish(p) ==> r == Failure(TypeError)
    ensures r.Success? ==> IsNode(r.value, EnumTypeDefinition)
    decreases Size(p), 1, 0
  {
    if Nullish(p) then Failure(TypeError)
    else
      var name :- ApplyProps(h, Leaf(Name), Get(p, "name"));
      var description :- ApplyPropsNullable(h, Leaf(StringValue), Get(p, "description"));
      var directives :- ApplyPropsNullableArr(h, Leaf(Directive), Get(p, "directives"));
      var values :- ApplyPropsNullableArr(h, Leaf(EnumValueDefinition), Get(p, "values"));
      Success(Make(EnumTypeDefinition, [
        Entry("name", name), Entry("description", description), Entry("directives", directives),
        Entry("values", values)]))
  }

  function EnumValueDefinitionNode(h: Host, p: Value): (r: Result<Value, Error>)
    ensures Nullish(p) ==> r == Failure(TypeError)
    ensures r.Success? ==> IsNode(r.value, EnumValueDefinition)
    decreases Size(p), 1, 0
  {
    if p.Str? then Success(Make(EnumValueDefinition, [Entry("name", NameNode(p).value)]))
    else if Nullish(p) then Failure(TypeError)
    else
      var name :- ApplyProps(h, Leaf(Name), Get(p, "name"));
      var description :- ApplyPropsNullable(h, Leaf(StringValue), Get(p, "description"));
      var directives :- ApplyPropsNullableArr(h, Leaf(Directive), Get(p, "directives"));
      Success(Make(EnumValueDefinition, [
        Entry("name", name), Entry("description", description), Entry("directives", directives)]))
  }

  function InputObjectTypeDefinitionNode(h: Host, p: Value): (r: Result<Value, Error>)
    ensures Nullish(p) ==> r == Failure(TypeError)
    ensures r.Success? ==> IsNode(r.value, InputObjectTypeDefinition)
    decreases Size(p), 1, 0
  {
    if Nullish(p) then Failure(TypeError)
    else
      var name :- ApplyProps(h, Leaf(Name), Get(p, "name"));
      var description :- ApplyPropsNullable(h, Leaf(StringValue), Get(p, "description"));
      var directives :- ApplyPropsNullableArr(h, Leaf(Directive), Get(p, "directives"));
      var fields :- ApplyPropsNullableArr(h, Leaf(InputValueDefinition), Get(p, "fields"));
      Success(Make(InputObjectTypeDefinition, [
        Entry("name", name), Entry("description", description), Entry("directives", directives),
        Entry("fields", fields)]))
  }

  function DirectiveDefinitionNode(h: Host, p: Value): (r: Result<Value, Error>)
    ensures Nullish(p) ==> r == Failure(TypeError)
    ensures r.Success? ==> IsNode(r.value, DirectiveDefinition)
    decreases Size(p), 1, 0
  {
    if Nullish(p) then Failure(TypeError)
    else
      var name :- ApplyProps(h, Leaf(Name), Get(p, "name"));
      var description :- ApplyPropsNullable(h, Leaf(StringValue), Get(p, "description"));
      var arguments :- ApplyPropsNullableArr(h, Leaf(InputValueDefinition), Get(p, "arguments"));
      var repeatable := if Nullish(Get(p, "repeatable")) then Bool(false) else Get(p, "repeatable");
      var locations :- ApplyPropsArr(h, Leaf(Name), Get(p, "locations"));
      Success(Make(DirectiveDefinition, [
        Entry("name", name), Entry("description", description), Entry("arguments", arguments),
        Entry("repeatable", repeatable), Entry("locations", locations)]))
  }

  // ─── type system extensions ───────────────────────────────────────────────────

  function SchemaExtensionNode(h: Host, p: Value): (r: Result<Value, Error>)
    ensures Nullish(p) ==> r == Failure(TypeError)
    ensures r.Success? ==> IsNode(r.value, SchemaExtension)
    decreases Size(p), 1, 0
  {
    if Nullish(p) then Failure(TypeError)
    else
      var directives :- ApplyPropsNullableArr(h, Leaf(Directive), Get(p, "directives"));
      var operationTypes :- ApplyPropsArr(h, Leaf(OperationTypeDefinition), Get(p, "operationTypes"));
      Success(Make(SchemaExtension, [Entry("directives", directives), Entry("operationTypes", operationTypes)]))
  }

  function ScalarTypeExtensionNode(h: Host, p: Value): (r: Result<Value, Error>)
    ensures Nullish(p) ==> r == Failure(TypeError)
    ensures r.Success? ==> IsNode(r.value, ScalarTypeExtension)
    decreases Size(p), 1, 0
  {
    if Nullish(p) then Failure(TypeError)
    else
      var name :- ApplyProps(h, Leaf(Name), Get(p, "name"));
      var directives :- ApplyPropsNullableArr(h, Leaf(Directive), Get(p, "directives"));
      Success(Make(ScalarTypeExtension, [Entry("name", name), Entry("directives", directives)]))
  }

  function ObjectTypeExtensionNode(h: Host, p: Value): (r: Result<Value, Error>)
    ensures Nullish(p) ==> r == Failure(TypeError)
    ensures r.Success? ==> IsNode(r.value, ObjectTypeExtension)
    decreases Size(p), 1, 0
  {
    if Nullish(p) then Failure(TypeError)
    else
      var name :- ApplyProps(h, Leaf(Name), Get(p, "name"));
      var interfaces :- ApplyPropsNullableArr(h, Leaf(NamedType), Get(p, "interfaces"));
      var directives :- ApplyPropsNullableArr(h, Leaf(Directive), Get(p, "directives"));
      var fields :- ApplyPropsNullableArr(h, Leaf(FieldDefinition), Get(p, "fields"));
      Success(Make(ObjectTypeExtension, [
        Entry("name", name), Entry("interfaces", interfaces), Entry("directives", directives),
        Entry("fields", fields)]))
  }

  function InterfaceTypeExtensionNode(h: Host, p: Value): (r: Result<Value, Error>)
    ensures Nullish(p) ==> r == Failure(TypeError)
    ensures r.Success? ==> IsNode(r.value, InterfaceTypeExtension)
    decreases Size(p), 1, 0
  {
    if Nullish(p) then Failure(TypeError)
    else
      var name :- ApplyProps(h, Leaf(Name), Get(p, "name"));
      var directives :- ApplyPropsNullableArr(h, Leaf(Directive), Get(p, "directives"));
      var fields :- ApplyPropsNullableArr(h, Leaf(FieldDefinition), Get(p, "fields"));
      Success(Make(InterfaceTypeExtension, [
        Entry("name", name), Entry("directives", directives), Entry("fields", fields)]))
  }

  function UnionTypeExtensionNode(h: Host, p: Value): (r: Result<Value, Error>)
    ensures Nullish(p) ==> r == Failure(TypeError)
    ensures r.Success? ==> IsNode(r.value, UnionTypeExtension)
    decreases Size(p), 1, 0
  {
    if Nullish(p) then Failure(TypeError)
    else
      var name :- ApplyProps(h, Leaf(Name), Get(p, "name"));
      var directives :- ApplyPropsNullableArr(h, Leaf(Directive), Get(p, "directives"));
      var types :- ApplyPropsNullableArr(h, Leaf(NamedType), Get(p, "types"));
      Success(Make(UnionTypeExtension, [
        Entry("name", name), Entry("directives", directives), Entry("types", types)]))
  }

  function EnumTypeExtensionNode(h: Host, p: Value): (r: Result<Value, Error>)
    ensures Nullish(p) ==> r == Failure(TypeError)
    ensures r.Success? ==> IsNode(r.value, EnumTypeExtension)
    decreases Size(p), 1, 0
  {
    if Nullish(p) then Failure(TypeError)
    else
      var name :- ApplyProps(h, Leaf(Name), Get(p, "name"));
      var directives :- ApplyPropsNullableArr(h, Leaf(Directive), Get(p, "directives"));
      var values :- ApplyPropsNullableArr(h, Leaf(EnumValueDefinition), Get(p, "values"));
      Success(Make(EnumTypeExtension, [
        Entry("name", name), Entry("directives", directives), Entry("values", values)]))
  }

  function InputObjectTypeExtensionNode(h: Host, p: Value): (r: Result<Value, Error>)
    ensures Nullish(p) ==> r == Failure(TypeError)
    ensures r.Success? ==> IsNode(r.value, InputObjectTypeExtension)
    decreases Size(p), 1, 0
  {
    if Nullish(p) then Failure(TypeError)
    else
      var name :- ApplyProps(h, Leaf(Name), Get(p, "name"));
      var directives :- ApplyPropsNullableArr(h, Leaf(Directive), Get(p, "directives"));
      var fields :- ApplyPropsNullableArr(h, Leaf(InputValueDefinition), Get(p, "fields"));
      Success(Make(InputObjectTypeExtension, [
        Entry("name", name), Entry("directives", directives), Entry("fields", fields)]))
  }

  // ─── dispatchers ──────────────────────────────────────────────────────────────

  /**
   * `({ kind, ...props }) => kindToX[kind](props)`: the tag selects the constructor, which gets
   * the props without `kind`; a tag the table lacks makes the call fail.
   */
  function Dispatch(h: Host, t: Table, p: Value): (r: Result<Value, Error>)
    ensures Nullish(p) ==> r == Failure(TypeError)
    ensures !Nullish(p) && TableKind(t, ToStr(Get(p, "kind"))).None? ==> r == Failure(UnknownKind(Get(p, "kind")))
    ensures r.Success? ==> TableKind(t, ToStr(Get(p, "kind"))).Some? && IsNode(r.value, TableKind(t, ToStr(Get(p, "kind"))).value)
    decreases Size(p), 5, 0
  {
    if Nullish(p) then Failure(TypeError)
    else
      var kind := TableKind(t, ToStr(Get(p, "kind")));
      if kind.Some? then Build(h, Leaf(kind.value), Without(p, "kind"))
      else Failure(UnknownKind(Get(p, "kind")))
  }

  /** `selectionNode`: a string is a field; an object's `kind` defaults to 'Field'. */
  function SelectionNode(h: Host, p: Value): (r: Result<Value, Error>)
    ensures p.Str? ==> r == FieldNode(h, p)
    ensures Nullish(p) ==> r == Failure(TypeError)
    ensures r.Success? ==> IsNode(r.value, Field) || IsNode(r.value, FragmentSpread) || IsNode(r.value, InlineFragment)
    decreases Size(p), 2, 0
  {
    if p.Str? then FieldNode(h, p)
    else if Nullish(p) then Failure(TypeError)
    else
      var kind := SelectionKind(if Get(p, "kind") == Undefined then "Field" else ToStr(Get(p, "kind")));
      if kind.Some? then Build(h, Leaf(kind.value), Without(p, "kind"))
      else Failure(UnknownKind(Get(p, "kind")))
  }

  function TypeDefinitionNode(h: Host, p: Value): (r: Result<Value, Error>)
    ensures Nullish(p) ==> r == Failure(TypeError)
    ensures r.Success? ==> TypeDefinitionKind(ToStr(Get(p, "kind"))).Some? && IsNode(r.value, TypeDefinitionKind(ToStr(Get(p, "kind"))).value)
  {
    Dispatch(h, TypeDefinitionTable, p)
  }

  function TypeExtensionNode(h: Host, p: Value): (r: Result<Value, Error>)
    ensures Nullish(p) ==> r == Failure(TypeError)
    ensures r.Success? ==> TypeExtensionKind(ToStr(Get(p, "kind"))).Some? && IsNode(r.value, TypeExtensionKind(ToStr(Get(p, "kind"))).value)
  {
    Dispatch(h, TypeExtensionTable, p)
  }

  function TypeSystemDefinitionNode(h: Host, p: Value): (r: Result<Value, Error>)
    ensures Nullish(p) ==> r == Failure(TypeError)
    ensures r.Success? ==> TypeSystemDefinitionKind(ToStr(Get(p, "kind"))).Some? && IsNode(r.value, TypeSystemDefinitionKind(ToStr(Get(p, "kind"))).value)
  {
    Dispatch(h, TypeSystemDefinitionTable, p)
  }

  function TypeSystemExtensionNode(h: Host, p: Value): (r: Result<Value, Error>)
    ensures Nullish(p) ==> r == Failure(TypeError)
    ensures r.Success? ==> TypeSystemExtensionKind(ToStr(Get(p, "kind"))).Some? && IsNode(r.value, TypeSystemExtensionKind(ToStr(Get(p, "kind"))).value)
  {
    Dispatch(h, TypeSystemExtensionTable, p)
  }

  function ExecutableDefinitionNode(h: Host, p: Value): (r: Result<Value, Error>)
    ensures Nullish(p) ==> r == Failure(TypeError)
    ensures r.Success? ==> ExecutableDefinitionKind(ToStr(Get(p, "kind"))).Some? && IsNode(r.value, ExecutableDefinitionKind(ToStr(Get(p, "kind"))).value)
  {
    Dispatch(h, ExecutableDefinitionTable, p)
  }

  function DefinitionNode(h: Host, p: Value): (r: Result<Value, Error>)
    ensures Nullish(p) ==> r == Failure(TypeError)
    ensures r.Success? ==> DefinitionKind(ToStr(Get(p, "kind"))).Some? && IsNode(r.value, DefinitionKind(ToStr(Get(p, "kind"))).value)
  {
    Dispatch(h, DefinitionTable, p)
  }
}
