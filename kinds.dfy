/** The `Kind` constants of graphql-js: one tag per node shape. */
module Kinds {
  datatype Kind =
    | Name | Document | OperationDefinition | VariableDefinition | SelectionSet | Field | Argument
    | FragmentSpread | InlineFragment | FragmentDefinition | Variable
    | IntValue | FloatValue | StringValue | BooleanValue | NullValue | EnumValue | ListValue
    | ObjectValue | ObjectField | Directive | NamedType | ListType | NonNullType
    | SchemaDefinition | OperationTypeDefinition | ScalarTypeDefinition | ObjectTypeDefinition
    | FieldDefinition | InputValueDefinition | InterfaceTypeDefinition | UnionTypeDefinition
    | EnumTypeDefinition | EnumValueDefinition | InputObjectTypeDefinition | DirectiveDefinition
    | SchemaExtension | ScalarTypeExtension | ObjectTypeExtension | InterfaceTypeExtension
    | UnionTypeExtension | EnumTypeExtension | InputObjectTypeExtension

  /** The string stored in a node's `kind` field. */
  function Tag(k: Kind): string {
    match k
    case Name => "Name"
    case Document => "Document"
    case OperationDefinition => "OperationDefinition"
    case VariableDefinition => "VariableDefinition"
    case SelectionSet => "SelectionSet"
    case Field => "Field"
    case Argument => "Argument"
    case FragmentSpread => "FragmentSpread"
    case InlineFragment => "InlineFragment"
    case FragmentDefinition => "FragmentDefinition"
    case Variable => "Variable"
    case IntValue => "IntValue"
    case FloatValue => "FloatValue"
    case StringValue => "StringValue"
    case BooleanValue => "BooleanValue"
    case NullValue => "NullValue"
    case EnumValue => "EnumValue"
    case ListValue => "ListValue"
    case ObjectValue => "ObjectValue"
    case ObjectField => "ObjectField"
    case Directive => "Directive"
    case NamedType => "NamedType"
    case ListType => "ListType"
    case NonNullType => "NonNullType"
    case SchemaDefinition => "SchemaDefinition"
    case OperationTypeDefinition => "OperationTypeDefinition"
    case ScalarTypeDefinition => "ScalarTypeDefinition"
    case ObjectTypeDefinition => "ObjectTypeDefinition"
    case FieldDefinition => "FieldDefinition"
    case InputValueDefinition => "InputValueDefinition"
    case InterfaceTypeDefinition => "InterfaceTypeDefinition"
    case UnionTypeDefinition => "UnionTypeDefinition"
    case EnumTypeDefinition => "EnumTypeDefinition"
    case EnumValueDefinition => "EnumValueDefinition"
    case InputObjectTypeDefinition => "InputObjectTypeDefinition"
    case DirectiveDefinition => "DirectiveDefinition"
    case SchemaExtension => "SchemaExtension"
    case ScalarTypeExtension => "ScalarTypeExtension"
    case ObjectTypeExtension => "ObjectTypeExtension"
    case InterfaceTypeExtension => "InterfaceTypeExtension"
    case UnionTypeExtension => "UnionTypeExtension"
    case EnumTypeExtension => "EnumTypeExtension"
    case InputObjectTypeExtension => "InputObjectTypeExtension"
  }
}
