/**
 * `FieldDefinitionsMixin`: the `fields` of an object or interface type, held as a `Crud`
 * collection keyed by each field's `name.value`. Readers go through the named field; the
 * set-through helpers replace that one field's type in place.
 */
module FieldDefinitionMixin {
  import opened Wrappers
  import opened Js
  import opened Errors
  import opened Nodes
  import opened Collections
  import Ast
  import AstProperties

  const FIELDS := "fields"

  /** `Ast.fieldDefinitionNode`, the constructor the collection builds its elements with. */
  function FieldFactory(h: Ast.Host): Constructor {
    p => Ast.FieldDefinitionNode(h, p)
  }

  // ─── the type of a field ──────────────────────────────────────────────────────

  /** A ListType or NonNullType node, which wraps another type under `type`. */
  predicate IsWrapper(t: Value) {
    Get(t, "kind") == Str("ListType") || Get(t, "kind") == Str("NonNullType")
  }

  /** `getTypename()`: the name of the named type under any list and non-null wrappers. */
  function TypenameOf(t: Value): (r: Value)
    ensures Wrapping(t) == [] ==> r == NameOf(t)
    ensures Wrapping(t) != [] ==> r == TypenameOf(Get(t, "type"))
    decreases Size(t)
  {
    if t != Undefined && IsWrapper(t) then TypenameOf(Get(t, "type")) else NameOf(t)
  }

  /** The wrapper kinds from the outside in, the part of a type that renaming keeps. */
  function Wrapping(t: Value): seq<Value>
    decreases Size(t)
  {
    if t != Undefined && IsWrapper(t) then [Get(t, "kind")] + Wrapping(Get(t, "type")) else []
  }

  /** A type node every level of which is an object, down to the named type. */
  predicate TypeShaped(t: Value)
    decreases Size(t)
  {
    t.Obj? && (IsWrapper(t) ==> TypeShaped(Get(t, "type")))
  }

  /** The name node `nameNode(s)`. */
  function NameNodeOf(s: string): (n: Value)
    ensures Get(n, "value") == Str(s)
  {
    AstProperties.NameShorthand(s);
    Ast.NameNode(Str(s)).value
  }

  /** `setTypename`: the named type under the wrappers gets the name node `name`. */
  function WithTypename(t: Value, name: Value): (r: Value)
    ensures Wrapping(r) == Wrapping(t)
    ensures t.Obj? ==> r.Obj?
    ensures !t.Obj? ==> r == t
    decreases Size(t)
  {
    if t != Undefined && IsWrapper(t) then Set(t, "type", WithTypename(Get(t, "type"), name))
    else Set(t, "name", name)
  }

  /** Renaming a type reads back as the new name and keeps every wrapper. */
  lemma {:induction false} TypenameRoundTrip(t: Value, name: Value)
    requires TypeShaped(t)
    ensures TypenameOf(WithTypename(t, name)) == Get(name, "value")
    ensures Wrapping(WithTypename(t, name)) == Wrapping(t)
    ensures TypeShaped(WithTypename(t, name))
    decreases Size(t)
  {
    var r := WithTypename(t, name);
    if IsWrapper(t) {
      var inner := Get(t, "type");
      TypenameRoundTrip(inner, name);
      assert r == Set(t, "type", WithTypename(inner, name));
      assert Get(r, "kind") == Get(t, "kind");
      assert Get(r, "type") == WithTypename(inner, name);
    } else {
      assert r == Set(t, "name", name);
      assert Get(r, "kind") == Get(t, "kind");
      assert Get(r, "name") == name;
    }
  }

  // ─── fields by type name ──────────────────────────────────────────────────────

  /** `fields.filter((field) => field.getTypename() === t)`. */
  function ByTypename(els: seq<Value>, t: Value): seq<Value> {
    if els == [] then []
    else if TypenameOf(Get(els[0], "type")) == t then [els[0]] + ByTypename(els[1..], t)
    else ByTypename(els[1..], t)
  }

  /** The filter keeps exactly the fields whose type name is `t`. */
  lemma {:induction false} ByTypenameMembers(els: seq<Value>, t: Value)
    ensures forall e :: e in ByTypename(els, t) <==> e in els && TypenameOf(Get(e, "type")) == t
  {
    if els != [] {
      ByTypenameMembers(els[1..], t);
      assert els == [els[0]] + els[1..];
    }
  }

  /** The filter keeps the stored order: it distributes over concatenation. */
  lemma {:induction false} ByTypenameAppend(a: seq<Value>, b: seq<Value>, t: Value)
    ensures ByTypename(a + b, t) == ByTypename(a, t) + ByTypename(b, t)
  {
    if a == [] {
      assert a + b == b;
    } else {
      assert (a + b)[0] == a[0];
      assert (a + b)[1..] == a[1..] + b;
      ByTypenameAppend(a[1..], b, t);
    }
  }

  // ─── set-through updates of one field ─────────────────────────────────────────

  /** The update of one field that replaces its type by `retype` of the old one. */
  function TypeUpdate(retype: Value -> Result<Value, Error>): Value -> Result<Value, Error> {
    el => (var t :- retype(Get(el, "type")); Success(Set(el, "type", t)))
  }

  /** The update `setFieldTypename(n, s)` applies to the named field. */
  function Retyped(s: string): Value -> Result<Value, Error> {
    TypeUpdate(t => Success(WithTypename(t, NameNodeOf(s))))
  }

  /** The update `setFieldType(n, props)` applies: the type is rebuilt from `props`. */
  function Typed(typeNode: Constructor, props: Value): Value -> Result<Value, Error> {
    TypeUpdate(t => typeNode(props))
  }

  /** The update applied to one field: its type replaced, or the failure to rebuild the type. */
  lemma TypeUpdateOf(el: Value, retype: Value -> Result<Value, Error>)
    ensures retype(Get(el, "type")).Failure? ==> TypeUpdate(retype)(el) == Failure(retype(Get(el, "type")).error)
    ensures retype(Get(el, "type")).Success? ==>
      && TypeUpdate(retype)(el) == Success(Set(el, "type", retype(Get(el, "type")).value))
      && NameOf(TypeUpdate(retype)(el).value) == NameOf(el)
  {
    var t := retype(Get(el, "type"));
    if t.Success? {
      assert Get(Set(el, "type", t.value), "name") == Get(el, "name");
    }
  }

  /**
   * Replacing the type of the field named `n` changes only that field, and only its type: the
   * names and order of the fields and every other field stay as they were. A failed rebuild of
   * the type fails the whole update.
   */
  lemma TypeUpdateKeepsOthers(els: seq<Value>, n: Value, retype: Value -> Result<Value, Error>)
    requires HasName(els, NameOf, n)
    ensures var i := IndexOf(els, NameOf, n);
      var r := ModifyIn(FIELDS, els, NameOf, n, TypeUpdate(retype));
      && (retype(Get(els[i], "type")).Failure? ==> r == Failure(retype(Get(els[i], "type")).error))
      && (retype(Get(els[i], "type")).Success? ==>
        && r.Success?
        && NamesOf(r.value, NameOf) == NamesOf(els, NameOf)
        && (forall j :: 0 <= j < |els| && j != i ==> r.value[j] == els[j])
        && r.value[i] == Set(els[i], "type", retype(Get(els[i], "type")).value))
  {
    var i := IndexOf(els, NameOf, n);
    TypeUpdateOf(els[i], retype);
    if retype(Get(els[i], "type")).Success? {
      ModifyKeepsNames(FIELDS, els, NameOf, n, TypeUpdate(retype));
    }
  }

  /**
   * Only one field is named `n` when names are distinct, so after an update that keeps every
   * name, the field found under `n` is the one at its old index.
   */
  lemma FoundAfterUpdate(els: seq<Value>, r: seq<Value>, n: Value)
    requires DistinctNames(els, NameOf) && HasName(els, NameOf, n)
    requires NamesOf(r, NameOf) == NamesOf(els, NameOf)
    ensures FindIn(FIELDS, r, NameOf, n) == Success(r[IndexOf(els, NameOf, n)])
  {
    var i := IndexOf(els, NameOf, n);
    assert NamesOf(r, NameOf)[i] == NamesOf(els, NameOf)[i];
    HasNameIndex(r, NameOf, n);
    var j := IndexOf(r, NameOf, n);
    assert NamesOf(r, NameOf)[j] == NamesOf(els, NameOf)[j];
  }

  /** After `setFieldTypename(n, s)` on distinct names, `getFieldTypename(n)` reads `s`. */
  lemma RetypeReadsBack(els: seq<Value>, n: Value, s: string)
    requires DistinctNames(els, NameOf) && HasName(els, NameOf, n)
    requires TypeShaped(Get(els[IndexOf(els, NameOf, n)], "type"))
    ensures var r := ModifyIn(FIELDS, els, NameOf, n, Retyped(s));
      && r.Success?
      && FindIn(FIELDS, r.value, NameOf, n).Success?
      && TypenameOf(Get(FindIn(FIELDS, r.value, NameOf, n).value, "type")) == Str(s)
  {
    var i := IndexOf(els, NameOf, n);
    var name := NameNodeOf(s);
    var retype: Value -> Result<Value, Error> := t => Success(WithTypename(t, name));
    assert Retyped(s) == TypeUpdate(retype);
    TypeUpdateKeepsOthers(els, n, retype);
    FoundAfterUpdate(els, ModifyIn(FIELDS, els, NameOf, n, TypeUpdate(retype)).value, n);
    TypenameRoundTrip(Get(els[i], "type"), name);
  }

  /** `setFieldType(n, props)` gives the field named `n` the type built from `props` and nothing else. */
  lemma SetTypeKeepsOthers(els: seq<Value>, n: Value, typeNode: Constructor, props: Value)
    requires HasName(els, NameOf, n)
    ensures var i := IndexOf(els, NameOf, n);
      var r := ModifyIn(FIELDS, els, NameOf, n, Typed(typeNode, props));
      && (typeNode(props).Failure? ==> r == Failure(typeNode(props).error))
      && (typeNode(props).Success? ==>
        && r.Success?
        && NamesOf(r.value, NameOf) == NamesOf(els, NameOf)
        && (forall j :: 0 <= j < |els| && j != i ==> r.value[j] == els[j])
        && r.value[i] == Set(els[i], "type", typeNode(props).value))
  {
    var retype: Value -> Result<Value, Error> := t => typeNode(props);
    assert Typed(typeNode, props) == TypeUpdate(retype);
    TypeUpdateKeepsOthers(els, n, retype);
  }

  // ─── the mixin ────────────────────────────────────────────────────────────────

  /** `fieldDefinitionsMixin(node)`. */
  class FieldDefinitionsApi {
    const node: Node
    /** `typeNode` over the host, which `setFieldType` builds the new type with. */
    const typeNode: Constructor
    /** `_fields`: the `Crud` over `node.fields`. */
    const fields: Crud

    constructor(node: Node, host: Ast.Host)
      ensures this.node == node && this.typeNode == (p => Ast.TypeNode(host, p))
      ensures Bound() && fields.factory == FieldFactory(host)
    {
      this.node := node;
      this.typeNode := p => Ast.TypeNode(host, p);
      this.fields := new Crud(node, FIELDS, FieldFactory(host), NameOf);
    }

    /** `_fields` is bound to this node's `fields` and keyed by name. */
    ghost predicate Bound() {
      fields.parent == node && fields.key == FIELDS && fields.matcher == NameOf
    }

    function Fields(): seq<Value>
      reads node
    {
      ElementsOf(node.value, FIELDS)
    }

    /** `getFieldnames()`: the field names in stored order. */
    function GetFieldnames(): (ns: seq<Value>)
      requires Bound()
      reads node
      ensures |ns| == |Fields()|
      ensures forall i :: 0 <= i < |ns| ==> ns[i] == NameOf(Fields()[i])
    {
      fields.FindManyNames()
    }

    /** `getFieldsByTypename(t)`: the fields whose type name is `t`, in stored order. */
    function GetFieldsByTypename(t: string): (r: seq<Value>)
      reads node
      ensures forall e :: e in r <==> e in Fields() && TypenameOf(Get(e, "type")) == Str(t)
    {
      ByTypenameMembers(Fields(), Str(t));
      ByTypename(Fields(), Str(t))
    }

    /** `hasField(n)`: some field is named `n`. */
    function HasField(n: string): (r: bool)
      requires Bound()
      reads node
      ensures r <==> exists i :: 0 <= i < |Fields()| && NameOf(Fields()[i]) == Str(n)
    {
      HasNameIndex(Fields(), NameOf, Str(n));
      fields.Has(Str(n))
    }

    /** `getField(n)`: the field named `n`, or `NotFound`. */
    function GetField(n: string): (r: Result<Value, Error>)
      requires Bound()
      reads node
      ensures r.Success? <==> HasField(n)
      ensures r.Success? ==> r.value in Fields() && NameOf(r.value) == Str(n)
      ensures r.Failure? ==> r.error == NotFound(FIELDS, Str(n))
    {
      fields.FindOneOrFail(Str(n))
    }

    /** `getFieldTypename(n)`: the type name of the field named `n`. */
    function GetFieldTypename(n: string): (r: Result<Value, Error>)
      requires Bound()
      reads node
      ensures r.Success? <==> HasField(n)
      ensures r.Failure? ==> r.error == NotFound(FIELDS, Str(n))
    {
      var f :- GetField(n);
      Success(TypenameOf(Get(f, "type")))
    }

    /** `getFieldType(n)`: the type node of the field named `n`. */
    function GetFieldType(n: string): (r: Result<Value, Error>)
      requires Bound()
      reads node
      ensures r.Success? <==> HasField(n)
      ensures r.Failure? ==> r.error == NotFound(FIELDS, Str(n))
    {
      var f :- GetField(n);
      Success(Get(f, "type"))
    }

    /** `getFieldArguments(n)`: the argument definitions of the field named `n`. */
    function GetFieldArguments(n: string): (r: Result<seq<Value>, Error>)
      requires Bound()
      reads node
      ensures r.Success? <==> HasField(n)
      ensures r.Failure? ==> r.error == NotFound(FIELDS, Str(n))
    {
      var f :- GetField(n);
      Success(ElementsOf(f, "arguments"))
    }

    /** `getFieldDirectives(n)`: the directives of the field named `n`. */
    function GetFieldDirectives(n: string): (r: Result<seq<Value>, Error>)
      requires Bound()
      reads node
      ensures r.Success? <==> HasField(n)
      ensures r.Failure? ==> r.error == NotFound(FIELDS, Str(n))
    {
      var f :- GetField(n);
      Success(ElementsOf(f, "directives"))
    }

    /** `createField(props)`: conflicts on a taken name, otherwise appends the field. */
    method CreateField(props: Value) returns (r: Result<FieldDefinitionsApi, Error>)
      requires Bound()
      modifies node
      ensures var c := CreateIn(FIELDS, old(Fields()), NameOf, fields.factory, props);
        && (c.Success? ==> r == Success(this) && node.value == WithElements(old(node.value), FIELDS, c.value))
        && (c.Failure? ==> r == Failure(c.error) && node.value == old(node.value))
      ensures old(fields.Valid()) ==> fields.Valid()
    {
      var c := fields.Create(props);
      if c.Failure? {
        return Failure(c.error);
      }
      return Success(this);
    }

    /** `updateField(n, props)`: fails when `n` is absent, otherwise merges the props into it. */
    method UpdateField(n: string, props: Value) returns (r: Result<FieldDefinitionsApi, Error>)
      requires Bound()
      modifies node
      ensures var c := UpdateIn(FIELDS, old(Fields()), NameOf, fields.factory, Str(n), props);
        && (c.Success? ==> r == Success(this) && node.value == WithElements(old(node.value), FIELDS, c.value))
        && (c.Failure? ==> r == Failure(c.error) && node.value == old(node.value))
      ensures old(!HasField(n)) ==> r == Failure(NotFound(FIELDS, Str(n)))
      ensures old(fields.Valid()) ==> fields.Valid()
    {
      var c := fields.Update(Str(n), props);
      if c.Failure? {
        return Failure(c.error);
      }
      return Success(this);
    }

    /** `upsertField(props)`: an update of the field with the built name, else a create. */
    method UpsertField(props: Value) returns (r: Result<FieldDefinitionsApi, Error>)
      requires Bound()
      modifies node
      ensures var c := UpsertIn(FIELDS, old(Fields()), NameOf, fields.factory, props);
        && (c.Success? ==> r == Success(this) && node.value == WithElements(old(node.value), FIELDS, c.value))
        && (c.Failure? ==> r == Failure(c.error) && node.value == old(node.value))
      ensures old(fields.Valid()) ==> fields.Valid()
    {
      var c := fields.Upsert(props);
      if c.Failure? {
        return Failure(c.error);
      }
      return Success(this);
    }

    /** `removeField(n)`: fails when `n` is absent, otherwise deletes it. */
    method RemoveField(n: string) returns (r: Result<FieldDefinitionsApi, Error>)
      requires Bound()
      modifies node
      ensures var c := RemoveIn(FIELDS, old(Fields()), NameOf, Str(n));
        && (c.Success? ==> r == Success(this) && node.value == WithElements(old(node.value), FIELDS, c.value))
        && (c.Failure? ==> r == Failure(c.error) && node.value == old(node.value))
      ensures old(fields.Valid()) && r.Success? ==> !HasField(n)
      ensures old(fields.Valid()) ==> fields.Valid()
    {
      ghost var els := Fields();
      var c := fields.Remove(Str(n));
      if c.Failure? {
        return Failure(c.error);
      }
      if DistinctNames(els, NameOf) {
        RemoveLeavesOthers(FIELDS, els, NameOf, Str(n));
        HasNameIndex(Fields(), NameOf, Str(n));
      }
      return Success(this);
    }

    /** `setFieldTypename(n, s)`: renames the named type of the field `n`, or fails `NotFound`. */
    method SetFieldTypename(n: string, s: string) returns (r: Result<FieldDefinitionsApi, Error>)
      requires Bound()
      modifies node
      ensures var c := ModifyIn(FIELDS, old(Fields()), NameOf, Str(n), Retyped(s));
        && (c.Success? ==> r == Success(this) && node.value == WithElements(old(node.value), FIELDS, c.value))
        && (c.Failure? ==> r == Failure(c.error) && node.value == old(node.value))
      ensures old(!HasField(n)) ==> r == Failure(NotFound(FIELDS, Str(n)))
    {
      var c := fields.Modify(Str(n), Retyped(s));
      if c.Failure? {
        return Failure(c.error);
      }
      return Success(this);
    }

    /** `setFieldType(n, props)`: replaces the type of the field `n` by `typeNode(props)`. */
    method SetFieldType(n: string, props: Value) returns (r: Result<FieldDefinitionsApi, Error>)
      requires Bound()
      modifies node
      ensures var c := ModifyIn(FIELDS, old(Fields()), NameOf, Str(n), Typed(typeNode, props));
        && (c.Success? ==> r == Success(this) && node.value == WithElements(old(node.value), FIELDS, c.value))
        && (c.Failure? ==> r == Failure(c.error) && node.value == old(node.value))
      ensures old(!HasField(n)) ==> r == Failure(NotFound(FIELDS, Str(n)))
    {
      var c := fields.Modify(Str(n), Typed(typeNode, props));
      if c.Failure? {
        return Failure(c.error);
      }
      return Success(this);
    }
  }
}
