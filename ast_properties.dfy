/** What the node factory of src/ast.ts promises: shapes, coercions, wrapping and dispatch. */
module AstProperties {
  import opened Wrappers
  import opened Js
  import opened Errors
  import opened Kinds
  import opened Ast
  import Numbers
  import AP = ApplyProps

  // ─── the first-order combinators are the generic ones ─────────────────────────

  lemma {:induction false} LowerEachIsMapAll(h: Host, c: Ctor, xs: seq<Value>)
    ensures LowerEach(h, c, xs) == AP.MapAll(y => AP.PropsOrNodeFn(x => Build(h, c, x), y), xs)
    decreases xs
  {
    if xs != [] {
      LowerEachIsMapAll(h, c, xs[1..]);
    }
  }

  /** Each `Ast` combinator is the apply-props combinator of the same name applied to the constructor `c`. */
  lemma CombinatorsAgree(h: Host, c: Ctor, p: Value)
    ensures Ast.ApplyProps(h, c, p) == AP.ApplyProps(x => Build(h, c, x), p)
    ensures Ast.ApplyPropsNullable(h, c, p) == AP.ApplyPropsNullable(x => Build(h, c, x), p)
    ensures Ast.ApplyPropsArr(h, c, p) == AP.ApplyPropsArr(x => Build(h, c, x), p)
    ensures Ast.ApplyPropsNullableArr(h, c, p) == AP.ApplyPropsNullableArr(x => Build(h, c, x), p)
  {
    if p.Arr? {
      LowerEachIsMapAll(h, c, p.items);
    }
  }

  // ─── every constructor builds a node of its own kind ──────────────────────────

  lemma MakeIsNode(k: Kind, fields: seq<Entry>)
    ensures IsNode(Make(k, fields), k) && AP.IsAstNode(Make(k, fields))
    ensures Keys(Make(k, fields)) == ["kind"] + KeysOf(fields)
  {
    var es := [Entry("kind", Str(Tag(k)))] + fields;
    assert es[0] == Entry("kind", Str(Tag(k)));
    assert Lookup(es, "kind") == Str(Tag(k));
    assert KeysOf(es) == ["kind"] + KeysOf(fields);
  }

  /** A field of a built node is read back from the first entry carrying its key. */
  lemma FieldOf(k: Kind, fields: seq<Entry>, i: nat)
    requires i < |fields| && fields[i].key != "kind"
    requires forall j :: 0 <= j < i ==> fields[j].key != fields[i].key
    ensures Get(Make(k, fields), fields[i].key) == fields[i].val
  {
    var es := Make(k, fields).entries;
    assert es == [Entry("kind", Str(Tag(k)))] + fields;
    LookupFirst(es, i + 1, fields[i].key);
  }

  /** An already built node is passed through unchanged by every props combinator. */
  lemma BuiltNodePassesThrough(h: Host, c: Ctor, k: Kind, fields: seq<Entry>)
    ensures Ast.ApplyProps(h, c, Make(k, fields)) == Success(Make(k, fields))
    ensures Ast.ApplyPropsNullable(h, c, Make(k, fields)) == Success(Make(k, fields))
  {
    MakeIsNode(k, fields);
  }

  // ─── shorthand ────────────────────────────────────────────────────────────────

  /** `nameNode` of a bare string stores it as the name's value. */
  lemma NameShorthand(s: string)
    ensures NameNode(Str(s)).Success? && Keys(NameNode(Str(s)).value) == ["kind", "value"]
    ensures Get(NameNode(Str(s)).value, "value") == Str(s)
  {
    FieldOf(Name, [Entry("value", Str(s))], 0);
    MakeIsNode(Name, [Entry("value", Str(s))]);
  }

  /** `fieldNode` of a bare string is a field with that name and nothing else. */
  lemma FieldShorthand(h: Host, s: string)
    ensures FieldNode(h, Str(s)).Success? && Keys(FieldNode(h, Str(s)).value) == ["kind", "name"]
    ensures Get(FieldNode(h, Str(s)).value, "name") == NameNode(Str(s)).value
  {
    var fs := [Entry("name", NameNode(Str(s)).value)];
    FieldOf(Field, fs, 0);
    MakeIsNode(Field, fs);
  }

  /** `directiveNode` of a bare string is a directive with that name and nothing else. */
  lemma DirectiveShorthand(h: Host, s: string)
    ensures DirectiveNode(h, Str(s)).Success? && Keys(DirectiveNode(h, Str(s)).value) == ["kind", "name"]
    ensures Get(DirectiveNode(h, Str(s)).value, "name") == NameNode(Str(s)).value
  {
    var fs := [Entry("name", NameNode(Str(s)).value)];
    FieldOf(Directive, fs, 0);
    MakeIsNode(Directive, fs);
  }

  /** `enumValueDefinitionNode` of a bare string is an enum value with that name and nothing else. */
  lemma EnumValueDefinitionShorthand(h: Host, s: string)
    ensures EnumValueDefinitionNode(h, Str(s)).Success?
    ensures Keys(EnumValueDefinitionNode(h, Str(s)).value) == ["kind", "name"]
    ensures Get(EnumValueDefinitionNode(h, Str(s)).value, "name") == NameNode(Str(s)).value
  {
    var fs := [Entry("name", NameNode(Str(s)).value)];
    FieldOf(EnumValueDefinition, fs, 0);
    MakeIsNode(EnumValueDefinition, fs);
  }

  /**
   * The string shorthand of `fragmentSpreadNode` adds `directives: []`, and an empty string
   * leaves the name out (it is falsy).
   */
  lemma FragmentSpreadShorthand(h: Host, s: string)
    ensures FragmentSpreadNode(h, Str(s)).Success?
    ensures Keys(FragmentSpreadNode(h, Str(s)).value) == ["kind", "name", "directives"]
    ensures Get(FragmentSpreadNode(h, Str(s)).value, "directives") == Arr([])
    ensures s != "" ==> Get(FragmentSpreadNode(h, Str(s)).value, "name") == NameNode(Str(s)).value
    ensures s == "" ==> Get(FragmentSpreadNode(h, Str(s)).value, "name") == Undefined
  {
    var name := if s == "" then Undefined else NameNode(Str(s)).value;
    assert Build(h, Leaf(Name), Str(s)) == NameNode(Str(s));
    assert !AP.IsAstNode(Str(s));
    assert Ast.ApplyProps(h, Leaf(Name), Str(s)) == Success(name);
    var fs := [Entry("name", name), Entry("directives", Arr([]))];
    FieldOf(FragmentSpread, fs, 0);
    FieldOf(FragmentSpread, fs, 1);
    MakeIsNode(FragmentSpread, fs);
  }

  // ─── scalar coercions ─────────────────────────────────────────────────────────

  /** A number's decimal text is never a boolean word. */
  lemma DecimalIsNotBoolean(n: int)
    ensures ToStr(Num(n)) != "true" && ToStr(Num(n)) != "false"
  {
    var d := Numbers.DecimalOf(n);
    assert d[0] == '-' || Numbers.IsDigit(d[0]);
  }

  /**
   * `booleanValueNode` on a scalar: 'true' and true give true, 'false' and false give false,
   * anything else its truthiness (so 1 is true, 0 and '' are false).
   */
  lemma BooleanCoercion(p: Value)
    requires p.Bool? || p.Str? || p.Num? || p.Null?
    ensures BooleanValueNode(p) == Success(Make(BooleanValue, [Entry("value", Bool(
      if p == Str("true") || p == Bool(true) then true
      else if p == Str("false") || p == Bool(false) then false
      else Truthy(p)))]))
  {
    if p.Num? {
      DecimalIsNotBoolean(p.n);
    }
  }

  /** Object props are read through their `value`. */
  lemma BooleanCoercionOfProps(v: Value)
    requires v.Bool? || v.Str? || v.Num? || v.Null?
    ensures BooleanValueNode(Obj([Entry("value", v)])) == BooleanValueNode(v)
  {
  }

  /** `intValueNode` of a number or a string stores the text of `parseInt` of its string form. */
  lemma IntValueOfScalar(v: Value)
    requires v.Num? || v.Str?
    ensures IntValueNode(v) == Success(Make(IntValue, [Entry("value", Str(Numbers.IntText(ToStr(v))))]))
  {
    assert ObjectLeaf(v, "value") == v;
  }

  /** `intValueNode` of a string stores the text of `parseInt` of it. */
  lemma IntValueOfText(d: string)
    ensures IntValueNode(Str(d)) == Success(Make(IntValue, [Entry("value", Str(Numbers.IntText(d)))]))
  {
    IntValueOfScalar(Str(d));
  }

  /** `intValueNode` of an integer stores its decimal text. */
  lemma IntValueOfNumber(n: int)
    ensures IntValueNode(Num(n)) == Success(Make(IntValue, [Entry("value", Str(Numbers.DecimalOf(n)))]))
  {
    IntValueOfScalar(Num(n));
    assert ToStr(Num(n)) == Numbers.DecimalOf(n);
    Numbers.IntTextOfDecimal(n);
  }

  /** Scalar props given as `{ value }` are read through `value`. */
  lemma ScalarValueOfProps(v: Value)
    requires !v.Obj? && !v.Arr?
    ensures IntValueNode(Obj([Entry("value", v)])) == IntValueNode(v)
    ensures BooleanValueNode(Obj([Entry("value", v)])) == BooleanValueNode(v)
    ensures StringValueNode(Obj([Entry("value", v)])) == StringValueNode(v)
    ensures EnumValueNode(Obj([Entry("value", v)])) == EnumValueNode(v)
  {
    assert ObjectLeaf(Obj([Entry("value", v)]), "value") == v == ObjectLeaf(v, "value");
  }

  /** `intValueNode` of an integer, of its decimal text, or of `{ value }` props stores the decimal text. */
  lemma IntValueOfInteger(n: int)
    ensures IntValueNode(Num(n)) == Success(Make(IntValue, [Entry("value", Str(Numbers.DecimalOf(n)))]))
    ensures IntValueNode(Str(Numbers.DecimalOf(n))) == IntValueNode(Num(n))
    ensures IntValueNode(Obj([Entry("value", Num(n))])) == IntValueNode(Num(n))
  {
    IntValueOfNumber(n);
    ScalarValueOfProps(Num(n));
    Numbers.IntTextOfDecimal(n);
    IntValueOfText(Numbers.DecimalOf(n));
  }

  lemma IntValueOf123()
    ensures IntValueNode(Num(123)) == Success(Make(IntValue, [Entry("value", Str("123"))]))
  {
    IntValueOfNumber(123);
    DecimalOf123();
  }

  lemma DecimalOf123()
    ensures Numbers.DecimalOf(123) == "123"
  {
    assert Numbers.DigitChar(1) == '1' && Numbers.DigitChar(2) == '2' && Numbers.DigitChar(3) == '3';
    assert Numbers.NatDigits(1) == ['1'];
    assert Numbers.NatDigits(12) == ['1'] + ['2'];
    assert Numbers.NatDigits(123) == ['1', '2'] + ['3'];
  }

  /** Building an int value node from the text it stores reproduces it. */
  lemma IntValueIdempotent(p: Value)
    ensures Get(IntValueNode(p).value, "value") != Undefined ==>
      IntValueNode(Get(IntValueNode(p).value, "value")) == IntValueNode(p)
  {
    var leaf := ObjectLeaf(p, "value");
    var v := if leaf != Undefined then Str(Numbers.IntText(ToStr(leaf))) else Undefined;
    assert IntValueNode(p) == Success(Make(IntValue, [Entry("value", v)]));
    FieldOf(IntValue, [Entry("value", v)], 0);
    if v != Undefined {
      Numbers.IntTextIdempotent(ToStr(leaf));
      IntValueOfText(Numbers.IntText(ToStr(leaf)));
    }
  }

  // ─── type wrappers ────────────────────────────────────────────────────────────

  /**
   * `applyProps` of a constructor gives undefined or a node; given props that are not yet a node
   * and are truthy, it gives a node of the constructor's own kind.
   */
  lemma LoweredLeaf(h: Host, k: Kind, x: Value)
    ensures Ast.ApplyProps(h, Leaf(k), x).Success? ==>
      Ast.ApplyProps(h, Leaf(k), x).value == Undefined || AP.IsAstNode(Ast.ApplyProps(h, Leaf(k), x).value)
    ensures Ast.ApplyProps(h, Leaf(k), x).Success? && !AP.IsAstNode(x) && Truthy(x) ==>
      IsNode(Ast.ApplyProps(h, Leaf(k), x).value, k)
  {
  }

  /** On a lowered type, `listTypeNode` and `nonNullTypeNode` are `WrapList` and `WrapNonNull`. */
  lemma WrappersOfLowered(h: Host, t: Value)
    requires t == Undefined || AP.IsAstNode(t)
    ensures ListTypeNode(h, t) == Success(WrapList(t)) && AP.IsAstNode(WrapList(t))
    ensures NonNullTypeNode(h, t) == Success(WrapNonNull(t)) && AP.IsAstNode(WrapNonNull(t))
  {
    assert Ast.ApplyProps(h, TypeC, t) == Success(t);
  }

  /**
   * `typeNode` wraps the named type exactly as the source's calls to `listTypeNode` and
   * `nonNullTypeNode` do, the pair of flags giving `nonNull(list(nonNull(named)))`.
   */
  lemma TypeNodeComposesWrappers(h: Host, p: Value, n: Value)
    requires !p.Str? && !Nullish(p)
    requires Ast.ApplyProps(h, Leaf(NamedType), Get(p, "named")) == Success(n)
    ensures !Truthy(Get(p, "list")) && !Truthy(Get(p, "nonNull")) ==> TypeNode(h, p) == Success(n)
    ensures Truthy(Get(p, "list")) && !Truthy(Get(p, "nonNull")) ==> TypeNode(h, p) == ListTypeNode(h, n)
    ensures !Truthy(Get(p, "list")) && Truthy(Get(p, "nonNull")) ==> TypeNode(h, p) == NonNullTypeNode(h, n)
    ensures Truthy(Get(p, "list")) && Truthy(Get(p, "nonNull")) ==>
      NonNullTypeNode(h, n).Success? && ListTypeNode(h, NonNullTypeNode(h, n).value).Success? &&
      TypeNode(h, p) == NonNullTypeNode(h, ListTypeNode(h, NonNullTypeNode(h, n).value).value)
  {
    LoweredLeaf(h, NamedType, Get(p, "named"));
    WrappersOfLowered(h, n);
    WrappersOfLowered(h, WrapNonNull(n));
    WrappersOfLowered(h, WrapList(WrapNonNull(n)));
  }

  lemma WrapperTags()
    ensures Tag(NamedType) == "NamedType" && Tag(ListType) == "ListType" && Tag(NonNullType) == "NonNullType"
  {
  }

  /** With a NamedType inside, the flags give exactly Named, List(Named), NonNull(Named) and NonNull(List(NonNull(Named))). */
  lemma TypeNodeFlags(h: Host, p: Value, n: Value)
    requires !p.Str? && !Nullish(p)
    requires Ast.ApplyProps(h, Leaf(NamedType), Get(p, "named")) == Success(n) && IsNode(n, NamedType)
    ensures !Truthy(Get(p, "list")) && !Truthy(Get(p, "nonNull")) ==> TypeNode(h, p) == Success(n)
    ensures Truthy(Get(p, "list")) && !Truthy(Get(p, "nonNull")) ==>
      TypeNode(h, p) == Success(Make(ListType, [Entry("type", n)]))
    ensures !Truthy(Get(p, "list")) && Truthy(Get(p, "nonNull")) ==>
      TypeNode(h, p) == Success(Make(NonNullType, [Entry("type", n)]))
    ensures Truthy(Get(p, "list")) && Truthy(Get(p, "nonNull")) ==>
      TypeNode(h, p) == Success(Make(NonNullType, [Entry("type",
        Make(ListType, [Entry("type", Make(NonNullType, [Entry("type", n)]))]))]))
  {
    WrapperTags();
    var list, nonNull := Truthy(Get(p, "list")), Truthy(Get(p, "nonNull"));
    assert TypeNode(h, p) ==
      if !list && !nonNull then Success(n)
      else if list && !nonNull then Success(WrapList(n))
      else if !list && nonNull then Success(WrapNonNull(n))
      else Success(WrapNonNull(WrapList(WrapNonNull(n))));
    var inner := Make(NonNullType, [Entry("type", n)]);
    assert WrapNonNull(n) == inner;
    var listOfInner := Make(ListType, [Entry("type", inner)]);
    assert WrapList(inner) == listOfInner;
    assert Get(listOfInner, "kind") == Str(Tag(ListType));
    assert WrapNonNull(listOfInner) == Make(NonNullType, [Entry("type", listOfInner)]);
  }

  /**
   * `nonNullTypeNode` never double-wraps: a lowered NonNullType comes back unchanged, anything
   * else is wrapped once, and the result is always a NonNullType.
   */
  lemma NonNullNeverDoubleWraps(h: Host, p: Value)
    ensures Ast.ApplyProps(h, TypeC, p).Success? && IsNode(Ast.ApplyProps(h, TypeC, p).value, NonNullType) ==>
      NonNullTypeNode(h, p) == Ast.ApplyProps(h, TypeC, p)
    ensures Ast.ApplyProps(h, TypeC, p).Success? && !IsNode(Ast.ApplyProps(h, TypeC, p).value, NonNullType) ==>
      NonNullTypeNode(h, p) == Success(Make(NonNullType, [Entry("type", Ast.ApplyProps(h, TypeC, p).value)]))
    ensures NonNullTypeNode(h, p).Success? ==> IsNode(NonNullTypeNode(h, p).value, NonNullType)
  {
    var t := Ast.ApplyProps(h, TypeC, p);
    if t.Success? {
      MakeIsNode(NonNullType, [Entry("type", t.value)]);
    }
  }

  lemma NonNullIdempotent(h: Host, p: Value)
    requires NonNullTypeNode(h, p).Success?
    ensures NonNullTypeNode(h, NonNullTypeNode(h, p).value) == NonNullTypeNode(h, p)
  {
    var r := NonNullTypeNode(h, p).value;
    assert Ast.ApplyProps(h, TypeC, r) == Success(r);
  }

  // ─── selection sets ───────────────────────────────────────────────────────────

  /** The `selectionSet` of operations and fragments is `applyProps(selectionSetNode, { selections })`. */
  lemma SelectionSetWrapping(h: Host, s: Value)
    ensures WrappedSelectionSet(h, s) ==
      Ast.ApplyProps(h, Leaf(SelectionSet), if s == Undefined then Undefined else Obj([Entry("selections", s)]))
    ensures Build(h, SelectionSetOf, s) == SelectionSetNode(h, Obj([Entry("selections", s)]))
  {
    var props := Obj([Entry("selections", s)]);
    assert Get(props, "selections") == s;
    MentionsIndex(props.entries, "kind");
    assert !AP.IsAstNode(props);
    assert Build(h, Leaf(SelectionSet), props) == SelectionSetNode(h, props);
  }

  // ─── dispatch tables ──────────────────────────────────────────────────────────

  // The tags the definition tables are keyed by, spelled out.

  lemma TypeDefinitionTags()
    ensures Tag(ObjectTypeDefinition) == "ObjectTypeDefinition"
    ensures Tag(InterfaceTypeDefinition) == "InterfaceTypeDefinition"
    ensures Tag(ScalarTypeDefinition) == "ScalarTypeDefinition"
  {
  }

  lemma MoreTypeDefinitionTags()
    ensures Tag(UnionTypeDefinition) == "UnionTypeDefinition"
    ensures Tag(EnumTypeDefinition) == "EnumTypeDefinition"
    ensures Tag(InputObjectTypeDefinition) == "InputObjectTypeDefinition"
  {
  }

  lemma TypeExtensionTags()
    ensures Tag(ObjectTypeExtension) == "ObjectTypeExtension"
    ensures Tag(InterfaceTypeExtension) == "InterfaceTypeExtension"
    ensures Tag(ScalarTypeExtension) == "ScalarTypeExtension"
  {
  }

  lemma MoreTypeExtensionTags()
    ensures Tag(UnionTypeExtension) == "UnionTypeExtension"
    ensures Tag(EnumTypeExtension) == "EnumTypeExtension"
    ensures Tag(InputObjectTypeExtension) == "InputObjectTypeExtension"
  {
  }

  lemma SchemaTags()
    ensures Tag(SchemaDefinition) == "SchemaDefinition"
    ensures Tag(DirectiveDefinition) == "DirectiveDefinition"
    ensures Tag(SchemaExtension) == "SchemaExtension"
  {
  }

  lemma ExecutableTags()
    ensures Tag(OperationDefinition) == "OperationDefinition"
    ensures Tag(FragmentDefinition) == "FragmentDefinition"
  {
  }

  /** `kindToTypeSystemDefinition` is `kindToTypeDefinition` plus SchemaDefinition and DirectiveDefinition. */
  lemma TypeSystemDefinitionTableComposes(key: string)
    ensures TypeDefinitionKind(key).Some? ==> TypeSystemDefinitionKind(key) == TypeDefinitionKind(key)
    ensures TypeSystemDefinitionKind(key).Some? <==>
      TypeDefinitionKind(key).Some? || key == "SchemaDefinition" || key == "DirectiveDefinition"
  {
    TypeDefinitionTags();
    MoreTypeDefinitionTags();
    TypeExtensionTags();
    MoreTypeExtensionTags();
    SchemaTags();
    ExecutableTags();
  }

  /** `kindToTypeSystemExtension` is `kindToTypeExtension` plus SchemaExtension. */
  lemma TypeSystemExtensionTableComposes(key: string)
    ensures TypeExtensionKind(key).Some? ==> TypeSystemExtensionKind(key) == TypeExtensionKind(key)
    ensures TypeSystemExtensionKind(key).Some? <==> TypeExtensionKind(key).Some? || key == "SchemaExtension"
  {
    TypeDefinitionTags();
    MoreTypeDefinitionTags();
    TypeExtensionTags();
    MoreTypeExtensionTags();
    SchemaTags();
    ExecutableTags();
  }

  /** `kindToDefinition` is the union of three disjoint tables, so none of them is overridden. */
  lemma DefinitionTableComposes(key: string)
    ensures TypeSystemDefinitionKind(key).Some? ==> DefinitionKind(key) == TypeSystemDefinitionKind(key)
    ensures TypeSystemExtensionKind(key).Some? ==> DefinitionKind(key) == TypeSystemExtensionKind(key)
    ensures ExecutableDefinitionKind(key).Some? ==> DefinitionKind(key) == ExecutableDefinitionKind(key)
    ensures DefinitionKind(key).Some? <==>
      TypeSystemDefinitionKind(key).Some? || TypeSystemExtensionKind(key).Some? || ExecutableDefinitionKind(key).Some?
  {
    TypeDefinitionTags();
    MoreTypeDefinitionTags();
    TypeExtensionTags();
    MoreTypeExtensionTags();
    SchemaTags();
    ExecutableTags();
  }

  lemma TypeDefinitionTagged(key: string)
    ensures TypeDefinitionKind(key).Some? ==> Tag(TypeDefinitionKind(key).value) == key
  {
  }

  lemma TypeExtensionTagged(key: string)
    ensures TypeExtensionKind(key).Some? ==> Tag(TypeExtensionKind(key).value) == key
  {
  }

  lemma ExecutableDefinitionTagged(key: string)
    ensures ExecutableDefinitionKind(key).Some? ==> Tag(ExecutableDefinitionKind(key).value) == key
  {
  }

  /** Each table maps a tag to the kind carrying that tag. */
  lemma TableKeysAreTags(t: Table, key: string)
    ensures TableKind(t, key).Some? ==> Tag(TableKind(t, key).value) == key
  {
    TypeDefinitionTagged(key);
    TypeExtensionTagged(key);
    ExecutableDefinitionTagged(key);
  }

  /**
   * A dispatcher fails on null props and on a tag its table lacks, and otherwise builds a node
   * whose `kind` is the tag it was given.
   */
  lemma DispatchBuildsTaggedNode(h: Host, t: Table, p: Value)
    ensures Nullish(p) ==> Dispatch(h, t, p) == Failure(TypeError)
    ensures !Nullish(p) && TableKind(t, ToStr(Get(p, "kind"))).None? ==>
      Dispatch(h, t, p) == Failure(UnknownKind(Get(p, "kind")))
    ensures Dispatch(h, t, p).Success? ==> Get(Dispatch(h, t, p).value, "kind") == Str(ToStr(Get(p, "kind")))
  {
    var key := ToStr(Get(p, "kind"));
    if !Nullish(p) && TableKind(t, key).Some? {
      TableKeysAreTags(t, key);
    }
  }

  /** Two dispatchers whose tables give the same kind for the props' tag build the same thing. */
  lemma SameKindSameDispatch(h: Host, t1: Table, t2: Table, p: Value)
    requires TableKind(t1, ToStr(Get(p, "kind"))) == TableKind(t2, ToStr(Get(p, "kind")))
    ensures Dispatch(h, t1, p) == Dispatch(h, t2, p)
  {
  }

  /** On a type-definition tag the three dispatchers that know it agree. */
  lemma TypeDefinitionDispatchersAgree(h: Host, p: Value)
    ensures TypeDefinitionKind(ToStr(Get(p, "kind"))).Some? ==>
      TypeDefinitionNode(h, p) == TypeSystemDefinitionNode(h, p) == DefinitionNode(h, p)
  {
    var key := ToStr(Get(p, "kind"));
    TypeSystemDefinitionTableComposes(key);
    DefinitionTableComposes(key);
    if TypeDefinitionKind(key).Some? {
      SameKindSameDispatch(h, TypeDefinitionTable, TypeSystemDefinitionTable, p);
      SameKindSameDispatch(h, TypeSystemDefinitionTable, DefinitionTable, p);
    }
  }

  /** On a type-extension tag the three dispatchers that know it agree. */
  lemma TypeExtensionDispatchersAgree(h: Host, p: Value)
    ensures TypeExtensionKind(ToStr(Get(p, "kind"))).Some? ==>
      TypeExtensionNode(h, p) == TypeSystemExtensionNode(h, p) == DefinitionNode(h, p)
  {
    var key := ToStr(Get(p, "kind"));
    TypeSystemExtensionTableComposes(key);
    DefinitionTableComposes(key);
    if TypeExtensionKind(key).Some? {
      SameKindSameDispatch(h, TypeExtensionTable, TypeSystemExtensionTable, p);
      SameKindSameDispatch(h, TypeSystemExtensionTable, DefinitionTable, p);
    }
  }

  /** On an executable-definition tag `executableDefinitionNode` and `definitionNode` agree. */
  lemma ExecutableDispatchersAgree(h: Host, p: Value)
    ensures ExecutableDefinitionKind(ToStr(Get(p, "kind"))).Some? ==>
      ExecutableDefinitionNode(h, p) == DefinitionNode(h, p)
  {
    var key := ToStr(Get(p, "kind"));
    DefinitionTableComposes(key);
    if ExecutableDefinitionKind(key).Some? {
      SameKindSameDispatch(h, ExecutableDefinitionTable, DefinitionTable, p);
    }
  }

  /** A string selection is a field, and object props without a `kind` build a field. */
  lemma SelectionDefaultsToField(h: Host, p: Value)
    ensures p.Str? ==> SelectionNode(h, p) == FieldNode(h, p)
    ensures p.Obj? && Get(p, "kind") == Undefined ==> SelectionNode(h, p) == FieldNode(h, Without(p, "kind"))
  {
    if p.Obj? && Get(p, "kind") == Undefined {
      assert SelectionKind("Field") == Some(Field);
      assert Build(h, Leaf(Field), Without(p, "kind")) == FieldNode(h, Without(p, "kind"));
    }
  }

  /** `selectionNode` builds a Field, a FragmentSpread or an InlineFragment, or fails. */
  lemma SelectionKinds(h: Host, p: Value)
    ensures SelectionNode(h, p).Success? ==>
      IsNode(SelectionNode(h, p).value, Field) || IsNode(SelectionNode(h, p).value, FragmentSpread) ||
      IsNode(SelectionNode(h, p).value, InlineFragment)
  {
    if !p.Str? && !Nullish(p) {
      var kind := SelectionKind(if Get(p, "kind") == Undefined then "Field" else ToStr(Get(p, "kind")));
      if kind.Some? {
      }
    }
  }

  /** `directiveDefinitionNode` stores `repeatable: false` when the props leave it out. */
  lemma RepeatableDefaultsToFalse(h: Host, p: Value)
    requires DirectiveDefinitionNode(h, p).Success?
    ensures Nullish(Get(p, "repeatable")) ==> Get(DirectiveDefinitionNode(h, p).value, "repeatable") == Bool(false)
    ensures !Nullish(Get(p, "repeatable")) ==>
      Get(DirectiveDefinitionNode(h, p).value, "repeatable") == Get(p, "repeatable")
  {
    var name := Ast.ApplyProps(h, Leaf(Name), Get(p, "name")).value;
    var description := Ast.ApplyPropsNullable(h, Leaf(StringValue), Get(p, "description")).value;
    var arguments := Ast.ApplyPropsNullableArr(h, Leaf(InputValueDefinition), Get(p, "arguments")).value;
    var repeatable := if Nullish(Get(p, "repeatable")) then Bool(false) else Get(p, "repeatable");
    var locations := Ast.ApplyPropsArr(h, Leaf(Name), Get(p, "locations")).value;
    var fields := [Entry("name", name), Entry("description", description), Entry("arguments", arguments),
      Entry("repeatable", repeatable), Entry("locations", locations)];
    assert DirectiveDefinitionNode(h, p) == Success(Make(DirectiveDefinition, fields));
    FieldOf(DirectiveDefinition, fields, 3);
  }
}
