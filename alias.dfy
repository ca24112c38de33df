/**
 * The short aliases of the node constructors: the root operation types, which default the name
 * of an object type definition; the built-in named types; and one alias per node constructor.
 */
module Alias {
  import opened Wrappers
  import opened Js
  import opened Errors
  import K = Kinds
  import Ast
  import AstProperties
  import Collections

  // ─── root operation types ─────────────────────────────────────────────────────

  const QUERY := "Query"
  const MUTATION := "Mutation"
  const SUBSCRIPTION := "Subscription"

  /**
   * `{ name: dflt, ...props }`: the props with `dflt` as the name unless the props carry a
   * `name` of their own, which wins even when it is `undefined`.
   */
  function RootProps(dflt: string, props: Value): (p: Value)
    ensures p.Obj?
    ensures WellFormed(props) ==> Get(p, "name") == if Has(props, "name") then Get(props, "name") else Str(dflt)
    ensures WellFormed(props) ==> forall k :: k != "name" ==> Get(p, k) == Get(props, k)
  {
    Assign(Obj([Entry("name", Str(dflt))]), props)
  }

  /** A non-empty string as the `name` props is lowered by `nameNode`. */
  lemma NameFromString(h: Ast.Host, s: string)
    requires s != ""
    ensures Ast.ApplyProps(h, Ast.Leaf(K.Name), Str(s)) == Ast.NameNode(Str(s))
    ensures Ast.NameNode(Str(s)).Success? && Get(Ast.NameNode(Str(s)).value, "value") == Str(s)
  {
    assert Truthy(Str(s)) && Str(s) != Undefined;
    assert Ast.Lower(h, Ast.Leaf(K.Name), Str(s)) == Ast.Build(h, Ast.Leaf(K.Name), Str(s));
    assert Ast.Build(h, Ast.Leaf(K.Name), Str(s)) == Ast.NameNode(Str(s));
    AstProperties.NameShorthand(s);
  }

  /** `objectTypeDefinitionNode` on props that carry a non-empty string name. */
  lemma {:induction false} ObjectTypeNamed(h: Ast.Host, p: Value, s: string)
    requires p.Obj? && Get(p, "name") == Str(s) && s != ""
    ensures var r := Ast.ObjectTypeDefinitionNode(h, p);
      r.Success? ==> Collections.NameOf(r.value) == Str(s) && Ast.IsNode(r.value, K.ObjectTypeDefinition)
  {
    var nm := Ast.ApplyProps(h, Ast.Leaf(K.Name), Str(s));
    NameFromString(h, s);
    var d := Ast.ApplyPropsNullable(h, Ast.Leaf(K.StringValue), Get(p, "description"));
    var i := Ast.ApplyPropsNullableArr(h, Ast.Leaf(K.NamedType), Get(p, "interfaces"));
    var ds := Ast.ApplyPropsNullableArr(h, Ast.Leaf(K.Directive), Get(p, "directives"));
    var fs := Ast.ApplyPropsNullableArr(h, Ast.Leaf(K.FieldDefinition), Get(p, "fields"));
    if d.Success? && i.Success? && ds.Success? && fs.Success? {
      var es := [Entry("name", nm.value), Entry("description", d.value), Entry("interfaces", i.value),
        Entry("directives", ds.value), Entry("fields", fs.value)];
      assert Ast.ObjectTypeDefinitionNode(h, p) == Success(Ast.Make(K.ObjectTypeDefinition, es));
      AstProperties.FieldOf(K.ObjectTypeDefinition, es, 0);
    }
  }

  /**
   * A root type built with the default `dflt`: it is named `dflt` unless the props name it,
   * and then it carries the props' name.
   */
  lemma RootTypeName(h: Ast.Host, dflt: string, props: Value, s: string)
    requires dflt != "" && s != "" && WellFormed(props)
    requires if Has(props, "name") then Get(props, "name") == Str(s) else s == dflt
    ensures var r := Ast.ObjectTypeDefinitionNode(h, RootProps(dflt, props));
      r.Success? ==> Collections.NameOf(r.value) == Str(s) && Ast.IsNode(r.value, K.ObjectTypeDefinition)
  {
    ObjectTypeNamed(h, RootProps(dflt, props), s);
  }

  /**
   * `objectTypeDefinitionNode({ name: dflt, ...props })`: an object type, named `dflt` when the
   * props give no name.
   */
  function RootType(h: Ast.Host, dflt: string, props: Value): (r: Result<Value, Error>)
    requires dflt != ""
    ensures r.Success? ==> Ast.IsNode(r.value, K.ObjectTypeDefinition)
    ensures WellFormed(props) && !Has(props, "name") && r.Success? ==> Collections.NameOf(r.value) == Str(dflt)
  {
    if WellFormed(props) && !Has(props, "name") then
      RootTypeName(h, dflt, props, dflt);
      Ast.ObjectTypeDefinitionNode(h, RootProps(dflt, props))
    else
      Ast.ObjectTypeDefinitionNode(h, RootProps(dflt, props))
  }

  /** `queryType(props)`: an object type named `Query` unless the props name it. */
  function QueryType(h: Ast.Host, props: Value): (r: Result<Value, Error>)
    ensures r.Success? ==> Ast.IsNode(r.value, K.ObjectTypeDefinition)
    ensures WellFormed(props) && !Has(props, "name") && r.Success? ==> Collections.NameOf(r.value) == Str(QUERY)
  {
    RootType(h, QUERY, props)
  }

  /** `mutationType(props)` as written: it too defaults the name to `Query`. */
  function MutationTypeAsWritten(h: Ast.Host, props: Value): (r: Result<Value, Error>)
    ensures r.Success? ==> Ast.IsNode(r.value, K.ObjectTypeDefinition)
    ensures WellFormed(props) && !Has(props, "name") && r.Success? ==> Collections.NameOf(r.value) == Str(QUERY)
  {
    RootType(h, QUERY, props)
  }

  /** `subscriptionType(props)` as written: it too defaults the name to `Query`. */
  function SubscriptionTypeAsWritten(h: Ast.Host, props: Value): (r: Result<Value, Error>)
    ensures r.Success? ==> Ast.IsNode(r.value, K.ObjectTypeDefinition)
    ensures WellFormed(props) && !Has(props, "name") && r.Success? ==> Collections.NameOf(r.value) == Str(QUERY)
  {
    RootType(h, QUERY, props)
  }

  /** `mutationType(props)` with the evident default, `Mutation`. */
  function MutationType(h: Ast.Host, props: Value): (r: Result<Value, Error>)
    ensures r.Success? ==> Ast.IsNode(r.value, K.ObjectTypeDefinition)
    ensures WellFormed(props) && !Has(props, "name") && r.Success? ==> Collections.NameOf(r.value) == Str(MUTATION)
  {
    RootType(h, MUTATION, props)
  }

  /** `subscriptionType(props)` with the evident default, `Subscription`. */
  function SubscriptionType(h: Ast.Host, props: Value): (r: Result<Value, Error>)
    ensures r.Success? ==> Ast.IsNode(r.value, K.ObjectTypeDefinition)
    ensures WellFormed(props) && !Has(props, "name") && r.Success? ==> Collections.NameOf(r.value) == Str(SUBSCRIPTION)
  {
    RootType(h, SUBSCRIPTION, props)
  }

  /** Props with nothing in them build a root type: every other field is left out. */
  lemma {:induction false} EmptyRootBuilds(h: Ast.Host, dflt: string)
    requires dflt != ""
    ensures Ast.ObjectTypeDefinitionNode(h, RootProps(dflt, Obj([]))).Success?
  {
    var p := RootProps(dflt, Obj([]));
    assert WellFormed(Obj([]));
    assert Get(p, "description") == Undefined && Get(p, "interfaces") == Undefined;
    assert Get(p, "directives") == Undefined && Get(p, "fields") == Undefined;
    assert Get(p, "name") == Str(dflt);
    NameFromString(h, dflt);
  }

  /** `queryType` names the type `Query` by default and after the props when they name it. */
  lemma QueryTypeName(h: Ast.Host, props: Value, s: string)
    requires s != "" && WellFormed(props)
    requires if Has(props, "name") then Get(props, "name") == Str(s) else s == QUERY
    ensures QueryType(h, props).Success? ==> Collections.NameOf(QueryType(h, props).value) == Str(s)
  {
    RootTypeName(h, QUERY, props, s);
  }

  /**
   * As written, a mutation or subscription type built without a name is a second `Query`: with
   * empty props all three root aliases build the same node, named `Query`.
   */
  lemma RootDefaultsCollide(h: Ast.Host)
    ensures MutationTypeAsWritten(h, Obj([])).Success? && SubscriptionTypeAsWritten(h, Obj([])).Success?
    ensures Collections.NameOf(MutationTypeAsWritten(h, Obj([])).value) == Str(QUERY)
    ensures Collections.NameOf(SubscriptionTypeAsWritten(h, Obj([])).value) == Str(QUERY)
    ensures MutationTypeAsWritten(h, Obj([])) == QueryType(h, Obj([]))
  {
    EmptyRootBuilds(h, QUERY);
    RootTypeName(h, QUERY, Obj([]), QUERY);
  }

  /**
   * With the evident defaults, the three root types built without a name are named `Query`,
   * `Mutation` and `Subscription`, so they are three distinct types; a name in the props wins.
   */
  lemma RootDefaultsDistinct(h: Ast.Host, props: Value)
    requires WellFormed(props) && !Has(props, "name")
    requires QueryType(h, props).Success? && MutationType(h, props).Success? && SubscriptionType(h, props).Success?
    ensures Collections.NameOf(QueryType(h, props).value) == Str(QUERY)
    ensures Collections.NameOf(MutationType(h, props).value) == Str(MUTATION)
    ensures Collections.NameOf(SubscriptionType(h, props).value) == Str(SUBSCRIPTION)
  {
    RootTypeName(h, QUERY, props, QUERY);
    RootTypeName(h, MUTATION, props, MUTATION);
    RootTypeName(h, SUBSCRIPTION, props, SUBSCRIPTION);
  }

  /** The evident defaults hold for empty props, where every root type builds. */
  lemma CorrectedRootTypesBuild(h: Ast.Host)
    ensures MutationType(h, Obj([])).Success? && Collections.NameOf(MutationType(h, Obj([])).value) == Str(MUTATION)
    ensures SubscriptionType(h, Obj([])).Success? && Collections.NameOf(SubscriptionType(h, Obj([])).value) == Str(SUBSCRIPTION)
  {
    EmptyRootBuilds(h, MUTATION);
    EmptyRootBuilds(h, SUBSCRIPTION);
    RootTypeName(h, MUTATION, Obj([]), MUTATION);
    RootTypeName(h, SUBSCRIPTION, Obj([]), SUBSCRIPTION);
  }

  // ─── built-in named types ─────────────────────────────────────────────────────

  /** The named types `type.*` builds without arguments. */
  datatype Builtin = Id | Int | Float | Bool | String | Json | Date | DateTime

  /** The name of each built-in type. */
  function BuiltinName(b: Builtin): string {
    match b
    case Id => "ID"
    case Int => "Int"
    case Float => "Float"
    case Bool => "Boolean"
    case String => "String"
    case Json => "JSON"
    case Date => "Date"
    case DateTime => "DateTime"
  }

  /** `type.id()`, `type.int()`, …: `namedTypeNode(name)`. */
  function BuiltinType(h: Ast.Host, b: Builtin): (r: Result<Value, Error>)
    ensures r.Success? && Ast.IsNode(r.value, K.NamedType)
    ensures Collections.NameOf(r.value) == Str(BuiltinName(b))
  {
    NamedTypeOfName(h, BuiltinName(b));
    Ast.NamedTypeNode(h, Str(BuiltinName(b)))
  }

  /** `namedTypeNode` of a non-empty string is a named type with that name. */
  lemma {:induction false} NamedTypeOfName(h: Ast.Host, s: string)
    requires s != ""
    ensures Ast.NamedTypeNode(h, Str(s)).Success?
    ensures Ast.IsNode(Ast.NamedTypeNode(h, Str(s)).value, K.NamedType)
    ensures Collections.NameOf(Ast.NamedTypeNode(h, Str(s)).value) == Str(s)
  {
    var nm := Ast.ApplyProps(h, Ast.Leaf(K.Name), Str(s));
    NameFromString(h, s);
    var es := [Entry("name", nm.value)];
    assert Ast.NamedTypeNode(h, Str(s)) == Success(Ast.Make(K.NamedType, es));
    AstProperties.FieldOf(K.NamedType, es, 0);
  }

  /** Different built-in aliases build types of different names. */
  lemma BuiltinTypesDistinct(h: Ast.Host, a: Builtin, b: Builtin)
    requires a != b
    ensures BuiltinType(h, a).Success? && BuiltinType(h, b).Success?
    ensures Collections.NameOf(BuiltinType(h, a).value) != Collections.NameOf(BuiltinType(h, b).value)
  {
  }

  // ─── constructor aliases ──────────────────────────────────────────────────────

  /** The exported aliases, each bound to one node constructor. */
  datatype Binding =
    | Name | Document | Operation | Variable | Selections | Field | Arg
    | FragmentSpread | InlineFragment | FragmentDef
    | ValueVariable | ValueInt | ValueFloat | ValueBool | ValueObject | ValueNull | ValueString
    | ValueEnum | ValueList | ValueObjectField
    | Directive | TypeNamed | TypeList | TypeNonNull
    | SchemaDef | OperationType | ScalarType | ObjectType | InterfaceType | UnionType | EnumType
    | InputType | FieldDef | InputVal | EnumVal | DirectiveDef
    | SchemaExt | ObjectExt | InterfaceExt | UnionExt | ScalarExt | EnumExt | InputObjectExt

  /** The kind of node the constructor an alias is bound to builds. */
  function KindOf(a: Binding): (k: K.Kind)
    ensures a.TypeNamed? || a.TypeList? || a.TypeNonNull? <==> k in {K.NamedType, K.ListType, K.NonNullType}
    ensures (|| a.ValueVariable? || a.ValueInt? || a.ValueFloat? || a.ValueBool? || a.ValueObject? || a.ValueNull?
             || a.ValueString? || a.ValueEnum? || a.ValueList? || a.ValueObjectField?)
      <==> k in {K.Variable, K.IntValue, K.FloatValue, K.BooleanValue, K.ObjectValue, K.NullValue,
                 K.StringValue, K.EnumValue, K.ListValue, K.ObjectField}
  {
    match a
    case Name => K.Name
    case Document => K.Document
    case Operation => K.OperationDefinition
    case Variable => K.VariableDefinition
    case Selections => K.SelectionSet
    case Field => K.Field
    case Arg => K.Argument
    case FragmentSpread => K.FragmentSpread
    case InlineFragment => K.InlineFragment
    case FragmentDef => K.FragmentDefinition
    case ValueVariable => K.Variable
    case ValueInt => K.IntValue
    case ValueFloat => K.FloatValue
    case ValueBool => K.BooleanValue
    case ValueObject => K.ObjectValue
    case ValueNull => K.NullValue
    case ValueString => K.StringValue
    case ValueEnum => K.EnumValue
    case ValueList => K.ListValue
    case ValueObjectField => K.ObjectField
    case Directive => K.Directive
    case TypeNamed => K.NamedType
    case TypeList => K.ListType
    case TypeNonNull => K.NonNullType
    case SchemaDef => K.SchemaDefinition
    case OperationType => K.OperationTypeDefinition
    case ScalarType => K.ScalarTypeDefinition
    case ObjectType => K.ObjectTypeDefinition
    case InterfaceType => K.InterfaceTypeDefinition
    case UnionType => K.UnionTypeDefinition
    case EnumType => K.EnumTypeDefinition
    case InputType => K.InputObjectTypeDefinition
    case FieldDef => K.FieldDefinition
    case InputVal => K.InputValueDefinition
    case EnumVal => K.EnumValueDefinition
    case DirectiveDef => K.DirectiveDefinition
    case SchemaExt => K.SchemaExtension
    case ObjectExt => K.ObjectTypeExtension
    case InterfaceExt => K.InterfaceTypeExtension
    case UnionExt => K.UnionTypeExtension
    case ScalarExt => K.ScalarTypeExtension
    case EnumExt => K.EnumTypeExtension
    case InputObjectExt => K.InputObjectTypeExtension
  }

  /** An alias is its constructor: it builds exactly what the constructor builds, a node of its kind. */
  function Apply(h: Ast.Host, a: Binding, p: Value): (r: Result<Value, Error>)
    ensures r.Success? ==> Ast.IsNode(r.value, KindOf(a))
  {
    Ast.Build(h, Ast.Leaf(KindOf(a)), p)
  }
}
