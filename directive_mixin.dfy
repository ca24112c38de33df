/**
 * `DirectivesApiMixin`: the `directives` collection of a node, keyed by each directive's
 * `name.value`. The readers look at the current list; the mutators go through the collection
 * engine, change `node.directives` in place and hand back the same view.
 */
module DirectiveMixin {
  import opened Wrappers
  import opened Js
  import opened Errors
  import opened Nodes
  import opened Kinds
  import opened Collections
  import Ast
  import AstProperties

  const DIRECTIVES := "directives"

  /** `Ast.directiveNode`, the constructor the collection builds its elements with. */
  function DirectiveFactory(h: Ast.Host): Constructor {
    p => Ast.DirectiveNode(h, p)
  }

  /** A directive built from a bare name is well formed and carries that name. */
  lemma DirectiveFromName(h: Ast.Host, s: string)
    ensures DirectiveFactory(h)(Str(s)).Success?
    ensures var d := DirectiveFactory(h)(Str(s)).value;
      NameOf(d) == Str(s) && WellFormed(d) && Get(d, "name") != Undefined
  {
    AstProperties.DirectiveShorthand(h, s);
    AstProperties.NameShorthand(s);
  }

  /**
   * `createDirective('name')` appends a directive with that name when the name is free and
   * fails with a conflict on that name when it is taken.
   */
  lemma CreateDirectiveByName(h: Ast.Host, els: seq<Value>, s: string)
    ensures !HasName(els, NameOf, Str(s)) ==>
      CreateIn(DIRECTIVES, els, NameOf, DirectiveFactory(h), Str(s)) == Success(els + [DirectiveFactory(h)(Str(s)).value])
    ensures HasName(els, NameOf, Str(s)) ==>
      CreateIn(DIRECTIVES, els, NameOf, DirectiveFactory(h), Str(s)) == Failure(Conflict(DIRECTIVES, Str(s)))
  {
    DirectiveFromName(h, s);
  }

  /**
   * `updateDirective(n, 'm')` on a present `n` with `m` free renames it: afterwards `m` is
   * present and `n` is gone, and the rest of the list is untouched.
   */
  lemma RenameDirective(h: Ast.Host, els: seq<Value>, n: Value, s: string)
    requires DistinctNames(els, NameOf) && AllWellFormed(els)
    requires HasName(els, NameOf, n) && (Str(s) == n || !HasName(els, NameOf, Str(s)))
    ensures UpdateIn(DIRECTIVES, els, NameOf, DirectiveFactory(h), n, Str(s)).Success?
    ensures var r := UpdateIn(DIRECTIVES, els, NameOf, DirectiveFactory(h), n, Str(s)).value;
      && |r| == |els|
      && HasName(r, NameOf, Str(s))
      && (Str(s) != n ==> !HasName(r, NameOf, n))
      && DistinctNames(r, NameOf)
  {
    DirectiveFromName(h, s);
    UpdateRenamesTo(DIRECTIVES, els, DirectiveFactory(h), n, Str(s));
  }

  class DirectivesApi {
    const node: Node
    /** `Ast.directiveNode` over the host the model parses type strings with. */
    const factory: Constructor

    /** `directivesApiMixin(node)`. */
    constructor(node: Node, host: Ast.Host)
      ensures this.node == node && this.factory == DirectiveFactory(host)
    {
      this.node := node;
      this.factory := DirectiveFactory(host);
    }

    /** `node.directives ?? []`, which `getDirectives` wraps one view per element. */
    function Directives(): seq<Value>
      reads node
    {
      ElementsOf(node.value, DIRECTIVES)
    }

    /** `getDirectiveNames()`: the names in stored order, none when `directives` is absent. */
    function GetDirectiveNames(): (ns: seq<Value>)
      reads node
      ensures |ns| == |Directives()|
      ensures forall i :: 0 <= i < |ns| ==> ns[i] == NameOf(Directives()[i])
      ensures !Has(node.value, DIRECTIVES) ==> ns == []
    {
      NamesOf(Directives(), NameOf)
    }

    /** `hasDirective(n)`: false without `directives`, else whether some directive is named `n`. */
    function HasDirective(n: string): (r: bool)
      reads node
      ensures r <==> exists i :: 0 <= i < |Directives()| && NameOf(Directives()[i]) == Str(n)
      ensures !Has(node.value, DIRECTIVES) ==> !r
    {
      HasNameIndex(Directives(), NameOf, Str(n));
      Truthy(Get(node.value, DIRECTIVES)) && HasName(Directives(), NameOf, Str(n))
    }

    /** `getDirective(n)`: the directive named `n`, or `NotFound` when there is none. */
    function GetDirective(n: string): (r: Result<Value, Error>)
      reads node
      ensures r.Success? <==> HasDirective(n)
      ensures r.Success? ==> r.value in Directives() && NameOf(r.value) == Str(n)
      ensures r.Failure? ==> r.error == NotFound(DIRECTIVES, Str(n))
    {
      HasNameIndex(Directives(), NameOf, Str(n));
      FindIn(DIRECTIVES, Directives(), NameOf, Str(n))
    }

    /** The collection invariant: no two directives share a name. */
    predicate Valid()
      reads node
    {
      DistinctNames(Directives(), NameOf)
    }

    /** `createDirective(props)`: conflicts on a taken name, otherwise appends the new directive. */
    method CreateDirective(props: Value) returns (r: Result<DirectivesApi, Error>)
      modifies node
      ensures var c := CreateIn(DIRECTIVES, old(Directives()), NameOf, factory, props);
        && (c.Success? ==> r == Success(this) && node.value == WithElements(old(node.value), DIRECTIVES, c.value))
        && (c.Failure? ==> r == Failure(c.error) && node.value == old(node.value))
      ensures r.Success? && old(node.value).Obj? ==> HasName(Directives(), NameOf, NameOf(factory(props).value))
      ensures old(Valid()) ==> Valid()
    {
      ghost var els := Directives();
      var c := OneToManyCreate(node, DIRECTIVES, NameOf, factory, props);
      if c.Failure? {
        return Failure(c.error);
      }
      var built := factory(props).value;
      HasNameIndex(els + [built], NameOf, NameOf(built));
      assert (els + [built])[|els|] == built;
      if DistinctNames(els, NameOf) {
        CreateKeepsNamesDistinct(DIRECTIVES, els, NameOf, factory, props);
      }
      return Success(this);
    }

    /**
     * `updateDirective(n, props)`: fails when `n` is absent; otherwise merges the props into
     * that directive, which is renamed when the props name it.
     */
    method UpdateDirective(n: string, props: Value) returns (r: Result<DirectivesApi, Error>)
      modifies node
      ensures var c := UpdateIn(DIRECTIVES, old(Directives()), NameOf, factory, Str(n), props);
        && (c.Success? ==> r == Success(this) && node.value == WithElements(old(node.value), DIRECTIVES, c.value))
        && (c.Failure? ==> r == Failure(c.error) && node.value == old(node.value))
      ensures old(!HasName(Directives(), NameOf, Str(n))) ==> r == Failure(NotFound(DIRECTIVES, Str(n)))
      ensures old(Valid()) ==> Valid()
    {
      ghost var els := Directives();
      var c := OneToManyUpdate(node, DIRECTIVES, NameOf, factory, Str(n), props);
      if c.Failure? {
        return Failure(c.error);
      }
      if DistinctNames(els, NameOf) {
        UpdateKeepsNamesDistinct(DIRECTIVES, els, NameOf, factory, Str(n), props);
      }
      return Success(this);
    }

    /** `upsertDirective(props)`: an update of the directive with the built name, else a create. */
    method UpsertDirective(props: Value) returns (r: Result<DirectivesApi, Error>)
      modifies node
      ensures var c := UpsertIn(DIRECTIVES, old(Directives()), NameOf, factory, props);
        && (c.Success? ==> r == Success(this) && node.value == WithElements(old(node.value), DIRECTIVES, c.value))
        && (c.Failure? ==> r == Failure(c.error) && node.value == old(node.value))
      ensures old(Valid()) ==> Valid()
    {
      ghost var els := Directives();
      var c := OneToManyUpsert(node, DIRECTIVES, NameOf, factory, props);
      if c.Failure? {
        return Failure(c.error);
      }
      if DistinctNames(els, NameOf) {
        var built := factory(props).value;
        if HasName(els, NameOf, NameOf(built)) {
          UpdateKeepsNamesDistinct(DIRECTIVES, els, NameOf, factory, NameOf(built), props);
        } else {
          CreateKeepsNamesDistinct(DIRECTIVES, els, NameOf, factory, props);
        }
      }
      return Success(this);
    }

    /**
     * `removeDirective(n)`: fails when `n` is absent; otherwise `n` is gone and the other
     * directives stay, in their order.
     */
    method RemoveDirective(n: string) returns (r: Result<DirectivesApi, Error>)
      modifies node
      ensures var c := RemoveIn(DIRECTIVES, old(Directives()), NameOf, Str(n));
        && (c.Success? ==> r == Success(this) && node.value == WithElements(old(node.value), DIRECTIVES, c.value))
        && (c.Failure? ==> r == Failure(c.error) && node.value == old(node.value))
      ensures old(Valid()) && r.Success? ==> !HasDirective(n) && Directives() == Unnamed(old(Directives()), NameOf, Str(n))
      ensures old(Valid()) ==> Valid()
    {
      ghost var els := Directives();
      var c := OneToManyRemoveOrFail(node, DIRECTIVES, NameOf, Str(n));
      if c.Failure? {
        return Failure(c.error);
      }
      if DistinctNames(els, NameOf) {
        RemoveLeavesOthers(DIRECTIVES, els, NameOf, Str(n));
        HasNameIndex(Directives(), NameOf, Str(n));
      }
      return Success(this);
    }
  }
}
