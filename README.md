# graphql-extra, modelled in Dafny

graphql-extra builds and edits GraphQL syntax trees. This project models its core in Dafny and
proves properties of that model:

- **Node constructors.** There is one constructor per node kind. Each accepts one of three inputs:
  - a bare string, taken as the node's name;
  - a props object;
  - an already-built node, which is passed through unchanged.
- **Props combinators.** The `applyProps*` combinators lower nested inputs.
- **Aliases.** These are short names for the constructors, including the root operation types.
- **Named child collections.** Directives and field definitions are kept inside a node and
  keyed by `name.value`.
- **Per-node views.** These are bound to one node and change it in place. They are the
  description, argument, input-value, selection-set and type-definition views.
- **SDL normalisation.** This flattens a string, a document, or nested arrays of either into a
  single list of definitions.

JavaScript values are modelled as `Js.Value`, which is one of:

- `undefined`, `null`, booleans, integers and strings;
- arrays;
- objects, each an ordered list of entries.

A node is an object with a string `kind`. Truthiness and `undefined`-valued keys follow
JavaScript, because the source relies on both. A thrown error is a `Failure` of
`Errors.Error`: a `TypeError`, an unknown kind, `NotFound`, `Conflict`, `KindMismatch`, or a
parser error.

The views that change their node in place are classes, written in imperative Dafny:

- each is a `Nodes.Node` holding the current tree value;
- each has `modifies` clauses on its mutators;
- each is specified by a function of the old state.

The collection engine behind directives and fields is modelled from how the source calls it.
It is the class `Collections.Crud` over a stored sequence, with the invariant that names are
pairwise distinct. The parser of the `graphql` package is a parameter of the model:
`Ast.Host.parseType` and `SdlInput.Parser`.

## Model

| member | source | states |
|---|---|---|
| ApplyProps.NullableFn | src/utils/apply-props.ts:34-37 | `f` is applied to truthy input; every falsy input gives `undefined` |
| ApplyProps.NullableImplicitFn | src/utils/apply-props.ts:45-49 | `f` is applied to anything but `undefined`, which stays `undefined` |
| ApplyProps.MapAll | src/utils/apply-props.ts:54-55 | on success it keeps the length, and each slot is `f` of the matching input; a failure is the failure of some element |
| ApplyProps.ArrayableFn | src/utils/apply-props.ts:54-55 | a non-array fails with a TypeError; an array is mapped element by element, in order, keeping its length |
| ApplyProps.PropsOrNodeFn | src/utils/apply-props.ts:60-63 | a built node is returned unchanged; other truthy props are built; falsy props give `undefined` |
| ApplyProps.ApplyNullable | src/utils/apply-props.ts:92-94 | `f` on truthy input, `undefined` for every falsy input |
| ApplyProps.ApplyNullableImplicit | src/utils/apply-props.ts:101-103 | `f` on anything but `undefined` |
| ApplyProps.ApplyProps | src/utils/apply-props.ts:110-112 | identity on a built node; builds other truthy props; `undefined` for any falsy non-node, not only for `undefined` |
| ApplyProps.ApplyPropsArr | src/utils/apply-props.ts:119-121 | `undefined` exactly when the input is `undefined`; otherwise each element is lowered, in order |
| ApplyProps.ApplyPropsNullable | src/utils/apply-props.ts:128-130 | identity on a node; builds truthy props; `undefined` for a falsy input such as an empty description |
| ApplyProps.ApplyPropsNullableArr | src/utils/apply-props.ts:137-140 | falsy input gives `undefined`; an array, `[]` included, is lowered element by element |
| ApplyProps.ApplyPropsCloned | src/utils/apply-props.ts:154-156 | builds from anything but `undefined`, with no node check |
| ApplyProps.Compact | src/utils/apply-props.ts:68-74 | the kept entries are exactly those whose value is not `undefined`, and there are no more of them than before |
| ApplyProps.PartialFn | src/utils/apply-props.ts:68-74 | the loop deletes exactly the `undefined`-valued keys of the built object; a build failure propagates; a nullish build throws |
| ApplyProps.ApplyPropsPartial | src/utils/apply-props.ts:163-165 | `undefined` stays `undefined`; otherwise a build failure propagates, a nullish build throws (`Object.keys`), a built object loses its `undefined`-valued keys and any other built value is returned |
| ApplyProps.ApplyPropsClonedPartial | src/utils/apply-props.ts:172-174 | as `applyPropsPartial`, in all four cases, building from a copy |
| ApplyProps.IsAstNode | src/utils/apply-props.ts:8-10 | an AST node is exactly an object whose `kind` is a string; such an object is truthy |
| ApplyProps.CompactLookup | src/utils/apply-props.ts:68-74 | with distinct keys, deleting the `undefined` entries leaves every lookup unchanged |
| ApplyProps.CompactKeepsNoNewKeys | src/utils/apply-props.ts:68-74 | deleting adds no key |
| ApplyProps.CompactMentions | src/utils/apply-props.ts:68-74 | a key stays exactly when it was present with a value other than `undefined` |
| ApplyProps.CompactDistinct | src/utils/apply-props.ts:68-74 | deleting keeps keys distinct |
| ApplyProps.PartialDeletesUndefined | src/utils/apply-props.ts:68-74 | after `partialFn`, every key reads the same value, and a key is present iff it held a value other than `undefined` |
| ApplyProps.CompactAppend | src/utils/apply-props.ts:68-74 | the deletion is done entry by entry: it distributes over concatenation |
| Ast.Make | src/ast.ts:37-41 | every constructor's object literal is a node of its kind |
| Ast.Build | src/ast.ts:37-1470 | each constructor, chosen by its kind, builds a node of that kind |
| Ast.SelectionKind | src/ast.ts:1459-1463 | the selection table holds only Field, FragmentSpread and InlineFragment |
| Ast.NameNode | src/ast.ts:37-41 | fails exactly on nullish props (reading a property of them); otherwise builds a Name node |
| Ast.DocumentNode | src/ast.ts:62-66 | nullish props throw; otherwise the result is a Document |
| Ast.OperationDefinitionNode | src/ast.ts:89-98 | nullish props throw; otherwise the result is an OperationDefinition |
| Ast.VariableDefinitionNode | src/ast.ts:120-127 | nullish props throw; otherwise the result is a VariableDefinition |
| Ast.VariableNode | src/ast.ts:144-150 | builds a Variable node |
| Ast.SelectionSetFrom | src/ast.ts:169-173 | `{ selections }` builds a SelectionSet |
| Ast.SelectionSetNode | src/ast.ts:169-173 | builds a SelectionSet node |
| Ast.FieldNode | src/ast.ts:203-208 | nullish props throw; otherwise the result is a Field |
| Ast.ArgumentNode | src/ast.ts:238-243 | nullish props throw; otherwise the result is an Argument |
| Ast.FragmentSpreadNode | src/ast.ts:273-279 | nullish props throw; otherwise the result is a FragmentSpread |
| Ast.InlineFragmentNode | src/ast.ts:307-314 | nullish props throw; otherwise the result is an InlineFragment |
| Ast.FragmentDefinitionNode | src/ast.ts:337-346 | nullish props throw; otherwise the result is a FragmentDefinition |
| Ast.IntValueNode | src/ast.ts:374-381 | builds an IntValue node |
| Ast.FloatValueNode | src/ast.ts:406-413 | builds a FloatValue node; the text comes from the host |
| Ast.StringValueNode | src/ast.ts:437-443 | builds a StringValue node |
| Ast.BooleanValueNode | src/ast.ts:467-480 | builds a BooleanValue node |
| Ast.NullValueNode | src/ast.ts:487-490 | builds a NullValue node |
| Ast.EnumValueNode | src/ast.ts:514-520 | builds an EnumValue node |
| Ast.ListValueNode | src/ast.ts:537-541 | builds a ListValue node |
| Ast.ObjectValueNode | src/ast.ts:558-562 | builds an ObjectValue node |
| Ast.ObjectFieldNode | src/ast.ts:580-585 | nullish props throw; otherwise the result is an ObjectField |
| Ast.DirectiveNode | src/ast.ts:614-620 | nullish props throw; otherwise the result is a Directive |
| Ast.NamedTypeNode | src/ast.ts:646-652 | builds a NamedType node |
| Ast.ListTypeNode | src/ast.ts:669-675 | builds a ListType node |
| Ast.NonNullTypeNode | src/ast.ts:692-704 | builds a NonNullType node |
| Ast.TypeNode | src/ast.ts:731-752 | a string is parsed by the host; nullish props throw; a truthy `nonNull` gives a NonNullType, a truthy `list` alone a ListType, and neither gives `applyProps(namedTypeNode, named)` |
| Ast.SchemaDefinitionNode | src/ast.ts:773-778 | nullish props throw; otherwise the result is a SchemaDefinition |
| Ast.OperationTypeDefinitionNode | src/ast.ts:798-803 | nullish props throw; otherwise the result is an OperationTypeDefinition |
| Ast.ScalarTypeDefinitionNode | src/ast.ts:826-832 | nullish props throw; otherwise the result is a ScalarTypeDefinition |
| Ast.ObjectTypeDefinitionNode | src/ast.ts:855-863 | nullish props throw; otherwise the result is an ObjectTypeDefinition |
| Ast.FieldDefinitionNode | src/ast.ts:890-898 | nullish props throw; otherwise the result is a FieldDefinition |
| Ast.InputValueDefinitionNode | src/ast.ts:922-930 | nullish props throw; otherwise the result is an InputValueDefinition |
| Ast.InterfaceTypeDefinitionNode | src/ast.ts:952-959 | nullish props throw; otherwise the result is an InterfaceTypeDefinition |
| Ast.UnionTypeDefinitionNode | src/ast.ts:981-988 | nullish props throw; otherwise the result is a UnionTypeDefinition |
| Ast.EnumTypeDefinitionNode | src/ast.ts:1010-1017 | nullish props throw; otherwise the result is an EnumTypeDefinition |
| Ast.EnumValueDefinitionNode | src/ast.ts:1045-1050 | nullish props throw; otherwise the result is an EnumValueDefinition |
| Ast.InputObjectTypeDefinitionNode | src/ast.ts:1080-1089 | nullish props throw; otherwise the result is an InputObjectTypeDefinition |
| Ast.DirectiveDefinitionNode | src/ast.ts:1114-1122 | nullish props throw; otherwise the result is a DirectiveDefinition |
| Ast.SchemaExtensionNode | src/ast.ts:1144-1149 | nullish props throw; otherwise the result is a SchemaExtension |
| Ast.ScalarTypeExtensionNode | src/ast.ts:1171-1176 | nullish props throw; otherwise the result is a ScalarTypeExtension |
| Ast.ObjectTypeExtensionNode | src/ast.ts:1198-1207 | nullish props throw; otherwise the result is an ObjectTypeExtension |
| Ast.InterfaceTypeExtensionNode | src/ast.ts:1228-1234 | nullish props throw; otherwise the result is an InterfaceTypeExtension |
| Ast.UnionTypeExtensionNode | src/ast.ts:1255-1261 | nullish props throw; otherwise the result is a UnionTypeExtension |
| Ast.EnumTypeExtensionNode | src/ast.ts:1282-1288 | nullish props throw; otherwise the result is an EnumTypeExtension |
| Ast.InputObjectTypeExtensionNode | src/ast.ts:1309-1317 | nullish props throw; otherwise the result is an InputObjectTypeExtension |
| Ast.TypeDefinitionKind | src/ast.ts:1339-1346 | the type-definition table maps each key to the kind it is the tag of: one of the six type definitions |
| Ast.TypeExtensionKind | src/ast.ts:1362-1369 | the type-extension table maps each key to the kind it is the tag of: one of the six type extensions |
| Ast.TypeSystemDefinitionKind | src/ast.ts:1382-1386 | the spread table is the type-definition table plus SchemaDefinition and DirectiveDefinition, keyed by their tags |
| Ast.TypeSystemExtensionKind | src/ast.ts:1401-1404 | the spread table is the type-extension table plus SchemaExtension, keyed by its tag |
| Ast.ExecutableDefinitionKind | src/ast.ts:1419-1422 | the executable table holds only OperationDefinition and FragmentDefinition, keyed by their tags |
| Ast.DefinitionKind | src/ast.ts:1437-1441 | the definition table holds a key exactly when one of the three spread tables does, mapping it to the kind it is the tag of |
| Ast.Dispatch | src/ast.ts:1348-1350 | `kindToX[kind](props)`: nullish props throw, a kind missing from the table fails, and a success is a node of the kind the table maps the tag to |
| Ast.TypeDefinitionNode | src/ast.ts:1348-1350 | nullish props throw; a success is a node of the kind `kindToTypeDefinition` maps the tag to |
| Ast.TypeExtensionNode | src/ast.ts:1371-1373 | nullish props throw; a success is a node of the kind `kindToTypeExtension` maps the tag to |
| Ast.TypeSystemDefinitionNode | src/ast.ts:1388-1392 | nullish props throw; a success is a node of the kind `kindToTypeSystemDefinition` maps the tag to |
| Ast.TypeSystemExtensionNode | src/ast.ts:1406-1410 | nullish props throw; a success is a node of the kind `kindToTypeSystemExtension` maps the tag to |
| Ast.ExecutableDefinitionNode | src/ast.ts:1424-1428 | nullish props throw; a success is a node of the kind `kindToTypeExecutableDefinition` maps the tag to |
| Ast.DefinitionNode | src/ast.ts:1443-1447 | nullish props throw; a success is a node of the kind `kindToDefinition` maps the tag to |
| Ast.SelectionNode | src/ast.ts:1465-1475 | a string is a field; nullish props throw; a success is a Field, FragmentSpread or InlineFragment |
| AstProperties.LowerEachIsMapAll | src/utils/apply-props.ts:54-63 | lowering an array in the constructors is `arrayableFn(propsOrNodeFn(fn))` |
| AstProperties.CombinatorsAgree | src/utils/apply-props.ts:110-140 | the constructors' four `applyProps*` calls are the generic combinators applied to the constructor |
| AstProperties.MakeIsNode | src/ast.ts:37-41 | a built literal passes `isAstNode`, and its keys are `kind` followed by its fields in order |
| AstProperties.FieldOf | src/ast.ts:37-41 | a field of a built node reads back as the first entry with that key |
| AstProperties.BuiltNodePassesThrough | src/utils/apply-props.ts:60-63 | `applyProps` and `applyPropsNullable` return an already built node unchanged |
| AstProperties.NameShorthand | src/ast.ts:37-41 | `nameNode('s')` has exactly the keys `kind` and `value`, and its value is `s` |
| AstProperties.FieldShorthand | src/ast.ts:204-208 | `fieldNode('s')` has exactly the keys `kind` and `name`, with no arguments, alias or directives |
| AstProperties.DirectiveShorthand | src/ast.ts:614-620 | `directiveNode('s')` has exactly the keys `kind` and `name` |
| AstProperties.EnumValueDefinitionShorthand | src/ast.ts:1045-1050 | `enumValueDefinitionNode('s')` has exactly the keys `kind` and `name` |
| AstProperties.FragmentSpreadShorthand | src/ast.ts:273-279 | the exception: `fragmentSpreadNode('s')` also sets `directives: []`; an empty name is dropped |
| AstProperties.DecimalIsNotBoolean | src/ast.ts:467-480 | no number prints as `"true"` or `"false"`, so numbers fall back to truthiness |
| AstProperties.BooleanCoercion | src/ast.ts:467-480 | `"true"`/`true` give true, `"false"`/`false` give false, any other scalar gives its truthiness |
| AstProperties.BooleanCoercionOfProps | src/ast.ts:467-480 | object props are coerced through their `.value` |
| AstProperties.IntValueOfScalar | src/ast.ts:374-381 | `intValueNode` stores the decimal text of `parseInt` of the input |
| AstProperties.IntValueOfText | src/ast.ts:374-381 | a string input stores the decimal text of its parsed prefix |
| AstProperties.IntValueOfNumber | src/ast.ts:374-381 | an integer input stores its decimal text |
| AstProperties.ScalarValueOfProps | src/ast.ts:374-520 | the int, boolean, string and enum value nodes read object props through `.value` |
| AstProperties.IntValueOfInteger | src/ast.ts:374-381 | an integer, its decimal text, and `{ value: n }` all build the same IntValue |
| AstProperties.IntValueOf123 | src/ast.ts:374-381 | integer 123 stores `"123"` |
| AstProperties.DecimalOf123 | src/ast.ts:374-381 | the decimal text of 123 is `"123"` |
| AstProperties.IntValueIdempotent | src/ast.ts:374-381 | rebuilding from the stored text gives the same node |
| AstProperties.LoweredLeaf | src/utils/apply-props.ts:60-63 | `applyProps` gives `undefined` or a node, and builds truthy non-node props into a node of the constructor's kind |
| AstProperties.WrappersOfLowered | src/ast.ts:669-704 | on a lowered type, the list and non-null constructors are plain wrappers |
| AstProperties.TypeNodeComposesWrappers | src/ast.ts:731-752 | `typeNode` on `{named}` returns the named type, `listTypeNode(named)` or `nonNullTypeNode(named)` according to the flags; with both flags it returns `nonNull(list(nonNull(named)))` |
| AstProperties.TypeNodeFlags | src/ast.ts:736-751 | the four flag combinations build Named, List(Named), NonNull(Named) and NonNull(List(NonNull(Named))) exactly |
| AstProperties.NonNullNeverDoubleWraps | src/ast.ts:692-704 | an inner NonNullType is returned unchanged; anything else is wrapped once |
| AstProperties.NonNullIdempotent | src/ast.ts:692-704 | applying `nonNullTypeNode` twice equals applying it once |
| AstProperties.SelectionSetWrapping | src/ast.ts:89-98 | the `{ selections }` wrapping is `selectionSetNode` of that object |
| AstProperties.TypeSystemDefinitionTableComposes | src/ast.ts:1382-1386 | `kindToTypeSystemDefinition` is `kindToTypeDefinition` plus SchemaDefinition and DirectiveDefinition |
| AstProperties.TypeSystemExtensionTableComposes | src/ast.ts:1401-1404 | `kindToTypeSystemExtension` is `kindToTypeExtension` plus SchemaExtension |
| AstProperties.DefinitionTableComposes | src/ast.ts:1437-1441 | `kindToDefinition` is the union of the three tables |
| AstProperties.TypeDefinitionTagged | src/ast.ts:1339-1346 | every key of the table is the tag of the kind it maps to |
| AstProperties.TypeExtensionTagged | src/ast.ts:1362-1369 | as above for the extension table |
| AstProperties.ExecutableDefinitionTagged | src/ast.ts:1419-1422 | as above for the executable table |
| AstProperties.TableKeysAreTags | src/ast.ts:1339-1463 | in every table, a key is the tag of the kind it maps to |
| AstProperties.DispatchBuildsTaggedNode | src/ast.ts:1348-1447 | nullish props throw; a tag missing from the table fails; a built node has the dispatched `kind` |
| AstProperties.SameKindSameDispatch | src/ast.ts:1348-1447 | tables that agree on a key dispatch it identically |
| AstProperties.TypeDefinitionDispatchersAgree | src/ast.ts:1348-1447 | a type-definition kind is built identically by the three dispatchers that accept it |
| AstProperties.TypeExtensionDispatchersAgree | src/ast.ts:1371-1447 | as above for type extensions |
| AstProperties.ExecutableDispatchersAgree | src/ast.ts:1424-1447 | as above for executable definitions |
| AstProperties.SelectionDefaultsToField | src/ast.ts:1465-1475 | a string builds a Field, and an object without `kind` defaults to `'Field'` |
| AstProperties.SelectionKinds | src/ast.ts:1459-1475 | a selection is a Field, a FragmentSpread or an InlineFragment |
| AstProperties.RepeatableDefaultsToFalse | src/ast.ts:1114-1122 | `repeatable` defaults to `false` and otherwise keeps the given value |
| Numbers.NatDigits | src/ast.ts:374-381 | the decimal digits of a natural number, with no leading zero |
| Numbers.TrimStart | src/ast.ts:374-381 | `parseInt` skips exactly the leading JavaScript white space: the result is a suffix, every dropped character is white space, and the result does not start with white space |
| Numbers.LeadingDigits | src/ast.ts:374-381 | the digit prefix is absent exactly when the text does not start with a digit |
| Numbers.NatDigitsValue | src/ast.ts:374-381 | the printed digits read back as the number |
| Numbers.ParseDecimalOf | src/ast.ts:374-381 | `parseInt` of the decimal text of `n` is `n` |
| Numbers.ParseUnsigned | src/ast.ts:374-381 | a digit string parses to its value |
| Numbers.ParseNegative | src/ast.ts:374-381 | a minus sign and digits parse to the negative value |
| Numbers.IntTextOfDecimal | src/ast.ts:374-381 | the stored text of a decimal is that decimal |
| Numbers.ParseNaN | src/ast.ts:374-381 | a text with no digits does not parse |
| Numbers.IntTextIdempotent | src/ast.ts:374-381 | re-storing the stored text changes nothing |
| Numbers.DecimalOfInjective | src/ast.ts:374-381 | different integers have different decimal texts |
| Numbers.DecimalOf | src/ast.ts:374-381 | `String(n)` is non-empty and starts with a minus sign or a digit |
| Numbers.DigitRun | src/ast.ts:374-381 | the digit prefix is all digits and stops at the first non-digit |
| Numbers.LeadingDigitsOf | src/ast.ts:374-381 | the digit prefix of printed digits is the whole number |
| Numbers.ParseDecimalOfNatural | src/ast.ts:374-381 | `parseInt(String(n))` is `n` for every natural number |
| Numbers.ParseDecimalOfNegative | src/ast.ts:374-381 | `parseInt(String(n))` is `n` for every negative integer |
| Numbers.ParseInt | src/ast.ts:374-381 | `parseInt` is NaN exactly when, after the white space and an optional sign, no digit follows |
| Numbers.IntText | src/ast.ts:374-381 | the stored text is "NaN" exactly when `parseInt` is NaN, and otherwise parses back to the same number |
| Numbers.NatDigitsLength | src/ast.ts:374-381 | a natural number below `10^k` prints as at most `k` digits |
| Numbers.SafeDecimalIsPlain | src/ast.ts:374-381 | a safe integer (at most 2^53 - 1 in magnitude) prints as at most 16 plain digits after an optional sign, where `'' + n` gives the same text |
| Alias.RootProps | src/node/alias.ts:14-16 | `{ name: dflt, ...props }` reads the props' own `name` when they have one, `dflt` otherwise, and every other key from the props |
| Alias.ObjectTypeNamed | src/ast.ts:855-863 | an object type built from a non-empty string name is named by it |
| Alias.RootTypeName | src/node/alias.ts:14-30 | a root type is named by the default unless the props name it |
| Alias.RootType | src/node/alias.ts:14-30 | a root type built from `{ name: dflt, ...props }` is an object type definition, named `dflt` when the props give no name |
| Alias.QueryType | src/node/alias.ts:14-16 | `queryType` builds an object type definition, named `Query` when the props give no name |
| Alias.MutationTypeAsWritten | src/node/alias.ts:21-23 | `mutationType` as written builds an object type definition, named `Query` when the props give no name |
| Alias.SubscriptionTypeAsWritten | src/node/alias.ts:28-30 | `subscriptionType` as written builds an object type definition, named `Query` when the props give no name |
| Alias.MutationType | src/node/alias.ts:21-23 | the corrected `mutationType` is named `Mutation` when the props give no name |
| Alias.SubscriptionType | src/node/alias.ts:28-30 | the corrected `subscriptionType` is named `Subscription` when the props give no name |
| Alias.QueryTypeName | src/node/alias.ts:14-16 | `queryType` is named `Query` by default, and otherwise after the props |
| Alias.EmptyRootBuilds | src/node/alias.ts:14-30 | empty props build a root type |
| Alias.RootDefaultsCollide | src/node/alias.ts:21-30 | as written, `mutationType({})` and `subscriptionType({})` are named `Query`, and `mutationType({})` equals `queryType({})` |
| Alias.RootDefaultsDistinct | src/node/alias.ts:14-30 | with the corrected defaults, the three root types built without a name are Query, Mutation and Subscription |
| Alias.CorrectedRootTypesBuild | src/node/alias.ts:21-30 | the corrected `mutationType({})` and `subscriptionType({})` build, named Mutation and Subscription |
| Alias.NameFromString | src/ast.ts:37-41 | a non-empty string name is lowered by `nameNode` and reads back |
| Alias.NamedTypeOfName | src/ast.ts:646-652 | `namedTypeNode('s')` is a NamedType named `s` |
| Alias.BuiltinType | src/node/alias.ts:121-130 | `type.id()` … `type.dateTime()` build named types called ID, Int, Float, Boolean, String, JSON, Date and DateTime |
| Alias.BuiltinTypesDistinct | src/node/alias.ts:121-130 | two different built-in aliases build types with different names |
| Alias.Apply | src/node/alias.ts:37-238 | each alias is its constructor, building a node of that constructor's kind |
| Alias.KindOf | src/node/alias.ts:37-238 | the `type.*` aliases are exactly those building NamedType, ListType or NonNullType, and the `value.*` aliases exactly those building value nodes |
| KindAssertion.ValidateNodeKind | src/api/argument.ts:21 | succeeds exactly when the node has the expected kind; a mismatch names the expected and the actual kind |
| KindAssertion.KindAssertionApi.AssertKind | src/api/type-definition.ts:34 | narrowing succeeds exactly on the view's kind |
| KindAssertion.KindAssertionApi.constructor | src/api/selection-set.ts:15-19 | the kind view is bound to the node |
| Collections.WithElements | src/mixin/directive.ts:63-114 | storing a collection reads back as that collection and changes no other key |
| Collections.NamesOf | dist/esm/mixin/field-definition.js:14-16 | the names are in stored order, one per element |
| Collections.HasNameIndex | src/mixin/directive.ts:42-46 | `some(el => getter(el) === n)` holds iff some index carries the name |
| Collections.IndexOf | src/mixin/directive.ts:52-61 | the first element carrying the name |
| Collections.FindIn | src/mixin/directive.ts:52-61 | succeeds exactly when the name is present, with an element of that name; otherwise NotFound |
| Collections.CreateIn | src/mixin/directive.ts:63-74 | a build failure propagates; a taken name conflicts; otherwise the new element is appended |
| Collections.UpdateIn | src/mixin/directive.ts:76-90 | an absent name is NotFound; a build failure propagates; otherwise the element at the name's index becomes the merge of the built element's defined keys into it, unless that renames it to a name another element holds, which is a Conflict |
| Collections.UpsertIn | src/mixin/directive.ts:92-103 | a build failure propagates; a present built name is an update at that name, an absent one appends the built element |
| Collections.RemoveIn | src/mixin/directive.ts:105-114 | an absent name is NotFound; a removal shortens the list by one |
| Collections.ModifyIn | dist/esm/mixin/field-definition.js:48-58 | an absent name is NotFound |
| Collections.UnnamedMembers | src/mixin/directive.ts:105-114 | after removal, the elements are exactly those with another name |
| Collections.CreateKeepsNamesDistinct | src/mixin/directive.ts:63-74 | a create appends and keeps names distinct |
| Collections.CreateThenFindRemove | src/mixin/directive.ts:63-114 | after a create, the new name is found, and removing it restores the list |
| Collections.UpdateKeepsNamesDistinct | src/mixin/directive.ts:76-90 | an update keeps names distinct |
| Collections.UpdateRenames | src/mixin/directive.ts:76-90 | an update replaces only the element at the old name's index, with the merge of the built element's defined keys into the old element |
| Collections.MergeReads | src/mixin/directive.ts:76-90 | the merged element reads the built value where it is defined, else the old value |
| Collections.MergeName | src/mixin/directive.ts:76-90 | a named patch renames the element; an unnamed one keeps its name |
| Collections.UpsertFindsBuiltName | src/mixin/directive.ts:92-103 | upsert appends when the built name is free, succeeds, keeps names distinct, and leaves the built name present |
| Collections.UpdateRenamesTo | src/mixin/directive.ts:76-90 | a rename to a free name succeeds; the new name is present and the old one absent |
| Collections.Patch | src/mixin/directive.ts:76-90 | the patch of a built object keeps exactly its entries whose value is defined |
| Collections.Merge | src/mixin/directive.ts:76-90 | `{ ...el, ...patch }` reads every key from the patch when the patch has it and from the old element otherwise |
| Collections.RemoveLeavesOthers | src/mixin/directive.ts:105-114 | removal deletes the named element only, keeps the others in order, and leaves the name absent |
| Collections.RemovedAt | src/mixin/directive.ts:105-114 | deleting one index keeps names distinct and removes that name |
| Collections.UnnamedSplit | src/mixin/directive.ts:105-114 | with distinct names, the removal is the deletion at the name's index |
| Collections.UnnamedNone | src/mixin/directive.ts:105-114 | removing a name nobody carries changes nothing |
| Collections.Commit | src/mixin/directive.ts:63-114 | a success is stored as the new collection; a failure changes nothing |
| Collections.OneToManyCreate | src/mixin/directive.ts:63-74 | the node's collection becomes the created list, or stays as it was on failure |
| Collections.OneToManyUpdate | src/mixin/directive.ts:76-90 | as above, for an update |
| Collections.OneToManyUpsert | src/mixin/directive.ts:92-103 | as above, for an upsert |
| Collections.OneToManyRemoveOrFail | src/mixin/directive.ts:105-114 | as above, for a removal |
| Collections.Crud.Create | dist/esm/mixin/field-definition.js:29-32 | the new state is the create of the old collection, and distinct names are preserved |
| Collections.Crud.Update | dist/esm/mixin/field-definition.js:33-36 | the new state is the update of the old collection, and distinct names are preserved |
| Collections.Crud.Upsert | dist/esm/mixin/field-definition.js:37-40 | the new state is the upsert of the old collection, and distinct names are preserved |
| Collections.Crud.Remove | dist/esm/mixin/field-definition.js:41-44 | the new state is the removal from the old collection, and distinct names are preserved |
| Collections.Crud.Modify | dist/esm/mixin/field-definition.js:48-58 | the named element is replaced by its update in place |
| Collections.Crud.constructor | dist/esm/mixin/field-definition.js:5-12 | the collection is bound to its parent node, key, factory and name getter |
| Collections.ModifyKeepsNames | dist/esm/mixin/field-definition.js:48-58 | an update that keeps the element's name keeps every name and their distinctness |
| DirectiveMixin.DirectiveFromName | src/ast.ts:614-620 | a directive built from a bare name is well formed and carries that name |
| DirectiveMixin.CreateDirectiveByName | src/mixin/directive.ts:63-74 | `createDirective('n')` appends when `n` is free and conflicts on `n` when it is taken |
| DirectiveMixin.RenameDirective | src/mixin/directive.ts:76-90 | `updateDirective(n, 'm')` to a free `m` leaves `m` present, `n` absent, and names distinct |
| DirectiveMixin.DirectivesApi.GetDirectiveNames | src/mixin/directive.ts:38-40 | the names in stored order; `[]` without `directives` |
| DirectiveMixin.DirectivesApi.HasDirective | src/mixin/directive.ts:42-46 | false without `directives`; otherwise true exactly when some element carries the name |
| DirectiveMixin.DirectivesApi.GetDirective | src/mixin/directive.ts:52-61 | succeeds iff `hasDirective`, with a member of that name; otherwise NotFound |
| DirectiveMixin.DirectivesApi.CreateDirective | src/mixin/directive.ts:63-74 | returns `this`; the new state is the create; the built name is then present; distinct names are kept |
| DirectiveMixin.DirectivesApi.UpdateDirective | src/mixin/directive.ts:76-90 | returns `this`; an absent name is NotFound; distinct names are kept |
| DirectiveMixin.DirectivesApi.UpsertDirective | src/mixin/directive.ts:92-103 | returns `this`; the new state is the upsert; distinct names are kept |
| DirectiveMixin.DirectivesApi.RemoveDirective | src/mixin/directive.ts:105-114 | returns `this`; afterwards `hasDirective(n)` is false and the others stay in order |
| DirectiveMixin.DirectivesApi.constructor | src/mixin/directive.ts:120-122 | the view is bound to the node and builds elements with `directiveNode` |
| FieldDefinitionMixin.NameNodeOf | src/ast.ts:37-41 | the name node of `s` holds `s` |
| FieldDefinitionMixin.TypenameRoundTrip | dist/esm/mixin/field-definition.js:45-51 | renaming a type reads back as the new name and keeps every list and non-null wrapper |
| FieldDefinitionMixin.TypenameOf | dist/esm/mixin/field-definition.js:45-47 | the type name of an unwrapped type is its name, and of a list or non-null type that of the type it wraps |
| FieldDefinitionMixin.WithTypename | dist/esm/mixin/field-definition.js:48-51 | renaming a type keeps its list and non-null wrappers, keeps an object an object and leaves a non-object alone |
| FieldDefinitionMixin.ByTypenameMembers | dist/esm/mixin/field-definition.js:20-22 | the filter keeps exactly the fields with that type name |
| FieldDefinitionMixin.ByTypenameAppend | dist/esm/mixin/field-definition.js:20-22 | the filter keeps the stored order: it distributes over concatenation |
| FieldDefinitionMixin.TypeUpdateOf | dist/esm/mixin/field-definition.js:48-58 | replacing one field's type keeps its name, and a failed type build fails |
| FieldDefinitionMixin.TypeUpdateKeepsOthers | dist/esm/mixin/field-definition.js:48-58 | a type update changes only the named field's type; names, order and other fields are kept |
| FieldDefinitionMixin.FoundAfterUpdate | dist/esm/mixin/field-definition.js:26-28 | with distinct names, after an update that keeps every name, `getField(n)` finds the field at its old index |
| FieldDefinitionMixin.RetypeReadsBack | dist/esm/mixin/field-definition.js:45-51 | after `setFieldTypename(n, s)`, `getFieldTypename(n)` is `s` |
| FieldDefinitionMixin.SetTypeKeepsOthers | dist/esm/mixin/field-definition.js:55-58 | `setFieldType` gives the field the built type and changes nothing else; a failed build fails |
| FieldDefinitionMixin.FieldDefinitionsApi.GetFieldnames | dist/esm/mixin/field-definition.js:14-16 | the field names in stored order |
| FieldDefinitionMixin.FieldDefinitionsApi.GetFieldsByTypename | dist/esm/mixin/field-definition.js:20-22 | exactly the fields whose type name is `t` |
| FieldDefinitionMixin.FieldDefinitionsApi.HasField | dist/esm/mixin/field-definition.js:23-25 | true exactly when some field carries the name |
| FieldDefinitionMixin.FieldDefinitionsApi.GetField | dist/esm/mixin/field-definition.js:26-28 | succeeds iff `hasField`, with a field of that name; otherwise NotFound |
| FieldDefinitionMixin.FieldDefinitionsApi.GetFieldTypename | dist/esm/mixin/field-definition.js:45-47 | fails with NotFound exactly when the field is absent |
| FieldDefinitionMixin.FieldDefinitionsApi.GetFieldType | dist/esm/mixin/field-definition.js:52-54 | fails with NotFound exactly when the field is absent |
| FieldDefinitionMixin.FieldDefinitionsApi.GetFieldArguments | dist/esm/mixin/field-definition.js:59-61 | fails with NotFound exactly when the field is absent |
| FieldDefinitionMixin.FieldDefinitionsApi.GetFieldDirectives | dist/esm/mixin/field-definition.js:62-64 | fails with NotFound exactly when the field is absent |
| FieldDefinitionMixin.FieldDefinitionsApi.CreateField | dist/esm/mixin/field-definition.js:29-32 | returns `this`; the new state is the create; distinct names are kept |
| FieldDefinitionMixin.FieldDefinitionsApi.UpdateField | dist/esm/mixin/field-definition.js:33-36 | returns `this`; an absent field is NotFound; distinct names are kept |
| FieldDefinitionMixin.FieldDefinitionsApi.UpsertField | dist/esm/mixin/field-definition.js:37-40 | returns `this`; the new state is the upsert; distinct names are kept |
| FieldDefinitionMixin.FieldDefinitionsApi.RemoveField | dist/esm/mixin/field-definition.js:41-44 | returns `this`; the field is then absent; distinct names are kept |
| FieldDefinitionMixin.FieldDefinitionsApi.SetFieldTypename | dist/esm/mixin/field-definition.js:48-51 | returns `this`; the new state is the retype of that one field; an absent field is NotFound |
| FieldDefinitionMixin.FieldDefinitionsApi.SetFieldType | dist/esm/mixin/field-definition.js:55-58 | returns `this`; the new state replaces that one field's type; an absent field is NotFound |
| FieldDefinitionMixin.FieldDefinitionsApi.constructor | dist/esm/mixin/field-definition.js:4-13 | the `fields` collection is bound to the node and builds with `fieldDefinitionNode`; `setFieldType` builds with `typeNode` |
| DescriptionMixin.DescriptionOf | src/mixin/description.ts:32-34 | `undefined` when there is no description |
| DescriptionMixin.HasDescriptionOf | src/mixin/description.ts:24-30 | with a non-empty value, iff the text equals it; with none or `""`, iff the text is non-empty |
| DescriptionMixin.StringValueHolds | src/ast.ts:437-443 | `stringValueNode(s)` holds `s` |
| DescriptionMixin.WithDescription | src/mixin/description.ts:36-45 | setting a string reads back as that string, `undefined` clears it, and no other key changes |
| DescriptionMixin.DescriptionApi.GetDescription | src/mixin/description.ts:32-34 | `undefined` when the description is absent |
| DescriptionMixin.DescriptionApi.HasDescription | src/mixin/description.ts:24-30 | true only when there is non-empty text |
| DescriptionMixin.DescriptionApi.SetDescription | src/mixin/description.ts:36-45 | returns `this`; the text then reads back; clearing makes `hasDescription` false for every argument |
| DescriptionMixin.DescriptionApi.constructor | src/mixin/description.ts:51-53 | the view is bound to the node |
| ArgumentApis.ArgumentApi.GetValue | src/api/argument.ts:24-26 | `undefined` when no value is stored |
| ArgumentApis.ArgumentApi.SetValue | src/api/argument.ts:28-32 | returns `this`; `getValue()` then returns `v`; the name and kind are unchanged |
| ArgumentApis.ArgumentApiOf | src/api/argument.ts:18-22 | succeeds exactly on an Argument node; otherwise a mismatch naming the actual kind |
| ArgumentApis.ArgumentApi.constructor | src/api/argument.ts:18-22 | accepts only an Argument node and binds its kind view to the same node |
| InputValueDefinitionApis.ToFieldOf | src/api/input-value-definition.ts:44-50 | a FieldDefinition with every other key kept, and no `defaultValue` or `loc` |
| InputValueDefinitionApis.InputValueDefinitionApi.ToField | src/api/input-value-definition.ts:44-50 | a new node, which a field-definition view accepts; the original is not modified |
| InputValueDefinitionApis.InputValueDefinitionApi.GetDefaultValue | src/api/input-value-definition.ts:53-55 | `undefined` when there is none |
| InputValueDefinitionApis.InputValueDefinitionApi.SetDefaultValue | src/api/input-value-definition.ts:58-62 | returns `this`; the value then reads back; no other key changes |
| InputValueDefinitionApis.InputValueDefinitionApiOf | src/api/input-value-definition.ts:17-21 | succeeds exactly on an InputValueDefinition; otherwise a mismatch |
| InputValueDefinitionApis.InputValueDefinitionApi.constructor | src/api/input-value-definition.ts:17-21 | accepts only an InputValueDefinition; the kind, description and directive views share its node |
| SelectionSetApis.LengthOf | src/api/selection-set.ts:21-23 | reading `length` of a nullish value throws; an array has its length |
| SelectionSetApis.SelectionSetApi.IsEmpty | src/api/selection-set.ts:21-23 | true exactly when `selections` has length 0; throws when they are missing |
| SelectionSetApis.SelectionSetApiOf | src/api/selection-set.ts:15-19 | succeeds exactly on a SelectionSet, and the view then says `isKind('SelectionSet')`; otherwise a mismatch |
| SelectionSetApis.BuiltFromSelections | src/ast.ts:169-173 | a set built from one or more selections is a SelectionSet that is not empty |
| SelectionSetApis.ThreeSelections | src/api/selection-set.ts:21-23 | a set built from three selections is not empty |
| SdlInput.Definitions | src/api/document/helper.ts:29-31 | a copy of the document's definitions |
| SdlInput.Normalise | src/api/document/helper.ts:20-34 | a string yields the parsed definitions, with the fixed options; an array concatenates its elements' definitions; a document yields its definitions; nullish input throws a TypeError (reading `sdl.kind`); every other input fails with InvalidSdl |
| SdlInput.NormaliseAll | src/api/document/helper.ts:25-27 | `[]` yields `[]` |
| SdlInput.NormaliseAllAppend | src/api/document/helper.ts:25-27 | `flatMap` over a concatenation is the concatenation of the results, left to right |
| SdlInput.Leaves | src/api/document/helper.ts:25-27 | the flattened leaves hold no arrays |
| SdlInput.LeavesAll | src/api/document/helper.ts:25-27 | as above, for a list |
| SdlInput.NormaliseFlattens | src/api/document/helper.ts:20-34 | normalising nested arrays equals normalising their flattened leaves |
| SdlInput.NormaliseAllFlattens | src/api/document/helper.ts:25-27 | as above, for a list |
| SdlInput.OptionsIgnored | src/api/document/helper.ts:20-26 | the `options` argument never changes the result |
| SdlInput.OptionsIgnoredAll | src/api/document/helper.ts:25-27 | as above, for a list |
| SdlInput.DocumentDefinitions | src/api/document/helper.ts:29-31 | a document, alone or nested in arrays, yields its definitions |
| TypeDefinitionApis.ObjectTypeApiOf | src/api/type-definition.ts:28-41 | succeeds exactly on an ObjectTypeDefinition, with the field collection bound to the node; otherwise a mismatch naming the actual kind |
| TypeDefinitionApis.InterfaceTypeApiOf | src/api/type-definition.ts:59-72 | as above, for InterfaceTypeDefinition |
| TypeDefinitionApis.UnionTypeApiOf | src/api/type-definition.ts:90-103 | succeeds exactly on a UnionTypeDefinition, with the member types bound; otherwise a mismatch |
| TypeDefinitionApis.ScalarTypeApiOf | src/api/type-definition.ts:121-133 | succeeds exactly on a ScalarTypeDefinition, which has no member collection; otherwise a mismatch |
| TypeDefinitionApis.EnumTypeApiOf | src/api/type-definition.ts:151-164 | succeeds exactly on an EnumTypeDefinition, with its values bound; otherwise a mismatch |
| TypeDefinitionApis.InputTypeApiOf | src/api/type-definition.ts:182-195 | succeeds exactly on an InputObjectTypeDefinition, with its input values as fields; otherwise a mismatch |
| TypeDefinitionApis.ObjectTypeApi.constructor | src/api/type-definition.ts:28-41 | accepts only an ObjectTypeDefinition; every capability view shares the node |
| TypeDefinitionApis.InterfaceTypeApi.constructor | src/api/type-definition.ts:59-72 | accepts only an InterfaceTypeDefinition; every capability view shares the node |
| TypeDefinitionApis.UnionTypeApi.constructor | src/api/type-definition.ts:90-103 | accepts only a UnionTypeDefinition; its `types` collection is keyed by name |
| TypeDefinitionApis.ScalarTypeApi.constructor | src/api/type-definition.ts:121-133 | accepts only a ScalarTypeDefinition |
| TypeDefinitionApis.EnumTypeApi.constructor | src/api/type-definition.ts:151-164 | accepts only an EnumTypeDefinition; its `values` collection is keyed by name |
| TypeDefinitionApis.InputTypeApi.constructor | src/api/type-definition.ts:182-195 | accepts only an InputObjectTypeDefinition; its `fields` collection builds input values |
| TypeDefinitionApis.AtMostOneView | src/api/type-definition.ts:14-20 | the six kinds differ, so a node passes the check of at most one view |

## Left out

- **Prototype chain.** The lookup table of `booleanValueNode` is exactly the keys `"true"` and
  `"false"`; inherited keys such as `"toString"` are not modelled.
- **Inherited dispatch keys.** The seven `kindTo*` tables (src/ast.ts:1339-1463) are modelled by
  their own keys only. In JavaScript, `kindToX[kind](props)` (src/ast.ts:1349, 1372, 1391, 1409,
  1427, 1446, 1474) also finds the members of `Object.prototype`, and calls them as methods of
  the table:
  - `kind: 'constructor'` calls `Object(props)`, which returns the props without `kind`;
  - `kind: 'toString'` or `'toLocaleString'` returns the string `"[object Object]"`;
  - `kind: 'valueOf'` returns the table itself;
  - `'hasOwnProperty'`, `'isPrototypeOf'` and `'propertyIsEnumerable'` return a boolean;
  - `kind: '__proto__'` is not a function, so the call throws.

  None of these results is a node. The model instead fails with `UnknownKind` on every key a
  table does not own. So Ast.Dispatch, Ast.SelectionNode, the six dispatchers,
  AstProperties.DispatchBuildsTaggedNode and AstProperties.SelectionKinds promise that a success
  is a node of a kind the table holds only for inputs whose `kind` is not such an inherited key.
- **Nameless elements.** Collections.NameOf reads `name.value` of an element and gives
  `undefined` when the element has no name. The source's getter `el => el.name.value`
  (src/mixin/directive.ts:39, 45, 58) throws a TypeError on such an element instead. Such an
  element exists after, say, `createDirective({ name: '' })`, because `applyProps` turns the
  falsy name into `undefined`. So where the source throws, the readers that use the getter
  answer instead:
  - DirectiveMixin.DirectivesApi.HasDirective and FieldDefinitionMixin.FieldDefinitionsApi.HasField
    answer false;
  - DirectiveMixin.DirectivesApi.GetDirectiveNames and
    FieldDefinitionMixin.FieldDefinitionsApi.GetFieldnames list `undefined`;
  - DirectiveMixin.DirectivesApi.GetDirective and FieldDefinitionMixin.FieldDefinitionsApi.GetField
    fail with NotFound.
- **`isAstNode(null)`.** This throws in JavaScript; here it is false.
- **JavaScript `parseInt`.** Only decimal integer prefixes are modelled. `Num` holds integers
  only, so exponent forms and fractions are not modelled. JavaScript numbers are doubles: above
  2^53 `parseInt` rounds (`"9007199254740993"` gives 9007199254740992) and from 1e21 on `'' + n`
  prints an exponent form (`"1e+21"`). The model keeps exact integers, so
  AstProperties.IntValueOfText, AstProperties.IntValueOfNumber, AstProperties.IntValueIdempotent
  and Numbers.ParseDecimalOf match the source only for safe integers (Numbers.SafeDecimalIsPlain).
- **`isPrimitive`.** src/utils/apply-props.ts:20-27 is used by no modelled operation.
- **`floatValueNode`.** The text of a float comes from `Ast.Host.floatText`, because it
  depends on floating-point `parseFloat`.
- **Parsing.** The string branch of `typeNode` and the parser behind `normaliseSDLInput` belong
  to the `graphql` package and are parameters (`Ast.Host.parseType`, `SdlInput.Parser`).
- **Error text.** Failures are typed (`NotFound`, `Conflict`, `KindMismatch`, `TypeError`,
  `UnknownKind`) without their message strings.
- **`loc`.** Source locations are not modelled beyond `toField` dropping them.
- **Mixin machinery.** The `Mix(...)` composition is modelled as plain fields that each hold
  one capability view over the shared node.
- **Unseen mixins.** `NameApiMixin` and `TypeDefinitionAssertionApiMixin` are not part of this
  model. The union, enum and input-value collection mixins are not part of it either; they are
  modelled as a `Crud` keyed by name over `types`, `values` and `fields`.
- **The `Crud` and `oneToMany*` engine.** It is not part of this model. Its behaviour is
  modelled from its call sites:
  - the element key is `name.value` of the element the factory builds;
  - update merges the defined keys of the built element into the old one;
  - rename conflicts fail;
  - a missing collection reads as empty.
- **`TypeApi`.** `getTypename`, `setTypename` and `setType` on a field are not part of this
  model. Retyping is modelled as renaming the named type under the list and non-null wrappers,
  and `setType` as replacing the type with `typeNode(props)`.
- **Returned views.** `Api.*Api` wrappers returned by getters (`getDirective`, `getField`,
  `toField`) are modelled as the node values they wrap.
- **`Hooks`.** The hooks in the input-value view are not part of this model.
- **Strings.** Strings are sequences of characters, without UTF-16 code units.
- **Spreads.** Only objects are spread; spreading a string or an array is not modelled.
- **`cloneDeep`.** Copies of immutable values are the values themselves.
- **`getDirectives` / `getFields`.** These return one view per element. They are modelled by
  `Directives()` and `Fields()`, the element values in order.
- Collections.Crud.Modify: the update is stated through `ModifyIn`; its effect on the field is
  proved by the lemmas beside it rather than in the method's contract.

## Findings

| source | as written | input that shows it | evidently intended | confidence | as-written member | corrected member |
|---|---|---|---|---|---|---|
| src/node/alias.ts:21-30 | `mutationType` and `subscriptionType` spread `{ name: 'Query', ...props }` | `mutationType({})` builds an object type named `Query`, equal to `queryType({})` | default names `Mutation` and `Subscription` | high, not executed | Alias.RootDefaultsCollide | Alias.RootDefaultsDistinct |
