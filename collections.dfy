/**
 * The named-collection engine behind the directive and field mixins (`oneToMany*` and `Crud`):
 * an ordered list of child nodes stored under one key of a parent node, each child keyed by what
 * the caller's `getter` (`matcher`) reads from it, `el => el.name.value` in every caller. The pure
 * functions below say what each operation computes from the current list; the methods and the
 * `Crud` class apply them to the shared parent node in place.
 */
module Collections {
  import opened Wrappers
  import opened Js
  import opened Errors
  import opened Nodes
  import AP = ApplyProps

  /** A node constructor such as `directiveNode` or `fieldDefinitionNode`. */
  type Constructor = Value -> Result<Value, Error>

  /** The key an element is found by. */
  type Getter = Value -> Value

  /** `el => el.name.value`, the getter every collection of the model is keyed by. */
  function NameOf(el: Value): Value {
    Get(Get(el, "name"), "value")
  }

  /** `parent[key] ?? []`: the stored collection; a missing one reads as empty. */
  function ElementsOf(parent: Value, key: string): seq<Value> {
    match Get(parent, key)
    case Arr(xs) => xs
    case _ => []
  }

  /** `parent[key] = els`. */
  function WithElements(parent: Value, key: string, els: seq<Value>): (r: Value)
    ensures parent.Obj? ==> ElementsOf(r, key) == els
    ensures !parent.Obj? ==> r == parent
    ensures forall k :: k != key ==> Get(r, k) == Get(parent, k)
  {
    Set(parent, key, Arr(els))
  }

  /** `els.map(getter)`. */
  function NamesOf(els: seq<Value>, getter: Getter): (ns: seq<Value>)
    ensures |ns| == |els|
    ensures forall i :: 0 <= i < |els| ==> ns[i] == getter(els[i])
  {
    if els == [] then [] else [getter(els[0])] + NamesOf(els[1..], getter)
  }

  /** `els.some(el => getter(el) === n)`. */
  predicate HasName(els: seq<Value>, getter: Getter, n: Value) {
    els != [] && (getter(els[0]) == n || HasName(els[1..], getter, n))
  }

  /** The invariant of every collection: no two elements share a name. */
  predicate DistinctNames(els: seq<Value>, getter: Getter) {
    forall i, j :: 0 <= i < j < |els| ==> getter(els[i]) != getter(els[j])
  }

  lemma {:induction false} HasNameIndex(els: seq<Value>, getter: Getter, n: Value)
    ensures HasName(els, getter, n) <==> exists i :: 0 <= i < |els| && getter(els[i]) == n
  {
    if els != [] {
      HasNameIndex(els[1..], getter, n);
      assert forall i :: 0 < i < |els| ==> els[i] == els[1..][i - 1];
    }
  }

  /** The position of the first element named `n`. */
  function IndexOf(els: seq<Value>, getter: Getter, n: Value): (i: nat)
    requires HasName(els, getter, n)
    ensures i < |els| && getter(els[i]) == n
    ensures forall j :: 0 <= j < i ==> getter(els[j]) != n
  {
    if getter(els[0]) == n then 0
    else
      var i := IndexOf(els[1..], getter, n);
      assert forall j :: 0 < j <= i ==> els[j] == els[1..][j - 1];
      1 + i
  }

  /** `findOneOrFail(n)`: the element named `n`, or `NotFound`. */
  function FindIn(key: string, els: seq<Value>, getter: Getter, n: Value): (r: Result<Value, Error>)
    ensures r.Success? <==> HasName(els, getter, n)
    ensures r.Success? ==> r.value in els && getter(r.value) == n
    ensures r.Failure? ==> r.error == NotFound(key, n)
  {
    if HasName(els, getter, n) then Success(els[IndexOf(els, getter, n)]) else Failure(NotFound(key, n))
  }

  /** `create(props)`: build the element; a taken name is a conflict, otherwise it is appended. */
  function CreateIn(key: string, els: seq<Value>, getter: Getter, factory: Constructor, props: Value): (r: Result<seq<Value>, Error>)
    ensures factory(props).Failure? ==> r == Failure(factory(props).error)
    ensures factory(props).Success? && HasName(els, getter, getter(factory(props).value)) ==>
      r == Failure(Conflict(key, getter(factory(props).value)))
  {
    var el :- factory(props);
    if HasName(els, getter, getter(el)) then Failure(Conflict(key, getter(el))) else Success(els + [el])
  }

  /** `partialFn(factory)(props)`: the built element without its `undefined` entries. */
  function Patch(built: Value): (r: Value)
    ensures built.Obj? ==> r.Obj? && forall e :: e in r.entries <==> e in built.entries && e.val != Undefined
    ensures !built.Obj? ==> r == built
  {
    if built.Obj? then Obj(AP.Compact(built.entries)) else built
  }

  /** `{ ...el, ...patch }`: each key the patch has is read from it, every other key from `el`. */
  function Merge(el: Value, patch: Value): (r: Value)
    ensures r.Obj?
    ensures WellFormed(el) && WellFormed(patch) ==>
      forall k :: Get(r, k) == if Has(patch, k) then Get(patch, k) else Get(el, k)
  {
    var copy := Assign(Obj([]), el);
    assert WellFormed(el) ==> forall k :: Get(copy, k) == Get(el, k);
    Assign(copy, patch)
  }

  /**
   * `update(n, props)`: fails when nothing is named `n`; otherwise the defined fields of the built
   * props are merged into that element, unless the merge renames it to a name another element has.
   */
  function UpdateIn(key: string, els: seq<Value>, getter: Getter, factory: Constructor, n: Value, props: Value): (r: Result<seq<Value>, Error>)
    ensures !HasName(els, getter, n) ==> r == Failure(NotFound(key, n))
    ensures HasName(els, getter, n) && factory(props).Failure? ==> r == Failure(factory(props).error)
    ensures HasName(els, getter, n) && factory(props).Success? ==>
      var i := IndexOf(els, getter, n);
      var m := Merge(els[i], Patch(factory(props).value));
      && (getter(m) != n && HasName(els, getter, getter(m)) ==> r == Failure(Conflict(key, getter(m))))
      && (getter(m) == n || !HasName(els, getter, getter(m)) ==> r == Success(els[i := m]))
  {
    if !HasName(els, getter, n) then Failure(NotFound(key, n))
    else
      var built :- factory(props);
      var i := IndexOf(els, getter, n);
      var merged := Merge(els[i], Patch(built));
      if getter(merged) != n && HasName(els, getter, getter(merged)) then Failure(Conflict(key, getter(merged)))
      else Success(els[i := merged])
  }

  /** `upsert(props)`: update the element with the built name when there is one, else create. */
  function UpsertIn(key: string, els: seq<Value>, getter: Getter, factory: Constructor, props: Value): (r: Result<seq<Value>, Error>)
    ensures factory(props).Failure? ==> r == Failure(factory(props).error)
    ensures factory(props).Success? && HasName(els, getter, getter(factory(props).value)) ==>
      r == UpdateIn(key, els, getter, factory, getter(factory(props).value), props)
    ensures factory(props).Success? && !HasName(els, getter, getter(factory(props).value)) ==>
      r == CreateIn(key, els, getter, factory, props) && r == Success(els + [factory(props).value])
  {
    var built :- factory(props);
    if HasName(els, getter, getter(built)) then UpdateIn(key, els, getter, factory, getter(built), props)
    else CreateIn(key, els, getter, factory, props)
  }

  /** `remove(n)`: fails when nothing is named `n`, otherwise deletes that element. */
  function RemoveIn(key: string, els: seq<Value>, getter: Getter, n: Value): (r: Result<seq<Value>, Error>)
    ensures !HasName(els, getter, n) ==> r == Failure(NotFound(key, n))
    ensures r.Success? ==> |r.value| == |els| - 1
  {
    if !HasName(els, getter, n) then Failure(NotFound(key, n))
    else
      var i := IndexOf(els, getter, n);
      Success(els[..i] + els[i + 1..])
  }

  /** Replace the element named `n` by `update` of it, as the field setters do. */
  function ModifyIn(key: string, els: seq<Value>, getter: Getter, n: Value, update: Value -> Result<Value, Error>): (r: Result<seq<Value>, Error>)
    ensures !HasName(els, getter, n) ==> r == Failure(NotFound(key, n))
  {
    if !HasName(els, getter, n) then Failure(NotFound(key, n))
    else
      var i := IndexOf(els, getter, n);
      var el :- update(els[i]);
      Success(els[i := el])
  }

  /** The elements not named `n`, in their order: what removing `n` should leave. */
  function Unnamed(els: seq<Value>, getter: Getter, n: Value): seq<Value> {
    if els == [] then []
    else if getter(els[0]) == n then Unnamed(els[1..], getter, n)
    else [els[0]] + Unnamed(els[1..], getter, n)
  }

  /** `Unnamed` is the filter `els.filter(el => getter(el) !== n)`. */
  lemma {:induction false} UnnamedMembers(els: seq<Value>, getter: Getter, n: Value)
    ensures forall e :: e in Unnamed(els, getter, n) <==> e in els && getter(e) != n
  {
    if els != [] {
      UnnamedMembers(els[1..], getter, n);
      assert els == [els[0]] + els[1..];
    }
  }

  predicate AllWellFormed(els: seq<Value>) {
    forall e :: e in els ==> WellFormed(e)
  }

  // ─── what the engine promises ─────────────────────────────────────────────────

  /** A successful create keeps the names distinct and appends exactly the built element. */
  lemma CreateKeepsNamesDistinct(key: string, els: seq<Value>, getter: Getter, factory: Constructor, props: Value)
    requires DistinctNames(els, getter) && CreateIn(key, els, getter, factory, props).Success?
    ensures DistinctNames(CreateIn(key, els, getter, factory, props).value, getter)
    ensures CreateIn(key, els, getter, factory, props).value == els + [factory(props).value]
  {
    var el := factory(props).value;
    HasNameIndex(els, getter, getter(el));
    var r := els + [el];
    assert forall i :: 0 <= i < |els| ==> r[i] == els[i];
  }

  /**
   * After a create the new element is found by its name, a second create of it conflicts, and
   * removing it gives back the collection as it was.
   */
  lemma CreateThenFindRemove(key: string, els: seq<Value>, getter: Getter, factory: Constructor, props: Value)
    requires CreateIn(key, els, getter, factory, props).Success?
    ensures var el := factory(props).value;
      var r := CreateIn(key, els, getter, factory, props).value;
      && FindIn(key, r, getter, getter(el)) == Success(el)
      && CreateIn(key, r, getter, factory, props) == Failure(Conflict(key, getter(el)))
      && RemoveIn(key, r, getter, getter(el)) == Success(els)
  {
    var el := factory(props).value;
    var n := getter(el);
    var r := els + [el];
    HasNameIndex(els, getter, n);
    HasNameIndex(r, getter, n);
    assert getter(r[|els|]) == n;
    assert forall j :: 0 <= j < |els| ==> r[j] == els[j];
    var i := IndexOf(r, getter, n);
    assert i == |els|;
    assert r[..i] + r[i + 1..] == els;
  }

  /** A successful update keeps the names distinct: a rename never lands on a taken name. */
  lemma UpdateKeepsNamesDistinct(key: string, els: seq<Value>, getter: Getter, factory: Constructor, n: Value, props: Value)
    requires DistinctNames(els, getter) && UpdateIn(key, els, getter, factory, n, props).Success?
    ensures DistinctNames(UpdateIn(key, els, getter, factory, n, props).value, getter)
  {
    var i := IndexOf(els, getter, n);
    var merged := Merge(els[i], Patch(factory(props).value));
    var r := els[i := merged];
    assert UpdateIn(key, els, getter, factory, n, props).value == r;
    if getter(merged) != n {
      HasNameIndex(els, getter, getter(merged));
    }
  }

  /**
   * An update changes only the element named `n`, in its place: afterwards the merged name is
   * present, and after a rename the old name is gone.
   */
  lemma UpdateRenames(key: string, els: seq<Value>, getter: Getter, factory: Constructor, n: Value, props: Value)
    requires DistinctNames(els, getter) && UpdateIn(key, els, getter, factory, n, props).Success?
    ensures var i := IndexOf(els, getter, n);
      var m := getter(Merge(els[i], Patch(factory(props).value)));
      var r := UpdateIn(key, els, getter, factory, n, props).value;
      && |r| == |els|
      && r[i] == Merge(els[i], Patch(factory(props).value))
      && (forall j :: 0 <= j < |els| && j != i ==> r[j] == els[j])
      && HasName(r, getter, m)
      && (m != n ==> !HasName(r, getter, n))
  {
    var i := IndexOf(els, getter, n);
    var merged := Merge(els[i], Patch(factory(props).value));
    var r := els[i := merged];
    assert UpdateIn(key, els, getter, factory, n, props).value == r;
    HasNameIndex(r, getter, getter(merged));
    HasNameIndex(r, getter, n);
  }

  /** Merging reads each key from the patch when the built props define it, else from the element. */
  lemma MergeReads(el: Value, built: Value, k: string)
    requires WellFormed(el) && WellFormed(built)
    ensures Get(Merge(el, Patch(built)), k) == if Get(built, k) != Undefined then Get(built, k) else Get(el, k)
  {
    var copy := Assign(Obj([]), el);
    assert Get(copy, k) == Get(el, k);
    if built.Obj? {
      AP.CompactDistinct(built.entries);
      AP.PartialDeletesUndefined(built, k);
    }
  }

  /** The merged element keeps its name unless the built props name it. */
  lemma MergeName(el: Value, built: Value)
    requires WellFormed(el) && WellFormed(built)
    ensures Get(built, "name") != Undefined ==> NameOf(Merge(el, Patch(built))) == NameOf(built)
    ensures Get(built, "name") == Undefined ==> NameOf(Merge(el, Patch(built))) == NameOf(el)
  {
    MergeReads(el, built, "name");
  }

  /**
   * Keyed by name, an upsert never renames: afterwards the built name is present and the names
   * stay distinct; on an absent name it is a create.
   */
  lemma UpsertFindsBuiltName(key: string, els: seq<Value>, getter: Getter, factory: Constructor, props: Value)
    requires forall e :: getter(e) == NameOf(e)
    requires DistinctNames(els, getter) && AllWellFormed(els) && factory(props).Success?
    requires WellFormed(factory(props).value)
    ensures !HasName(els, getter, getter(factory(props).value)) ==>
      UpsertIn(key, els, getter, factory, props) == Success(els + [factory(props).value])
    ensures UpsertIn(key, els, getter, factory, props).Success?
    ensures DistinctNames(UpsertIn(key, els, getter, factory, props).value, getter)
    ensures HasName(UpsertIn(key, els, getter, factory, props).value, getter, getter(factory(props).value))
  {
    var built := factory(props).value;
    var n := getter(built);
    if HasName(els, getter, n) {
      var i := IndexOf(els, getter, n);
      MergeName(els[i], built);
      var merged := Merge(els[i], Patch(built));
      assert getter(merged) == n;
      UpdateKeepsNamesDistinct(key, els, getter, factory, n, props);
      UpdateRenames(key, els, getter, factory, n, props);
    } else {
      CreateKeepsNamesDistinct(key, els, getter, factory, props);
      CreateThenFindRemove(key, els, getter, factory, props);
    }
  }

  /**
   * Keyed by name, an update whose built props carry a name `m` renames `n` to `m` when `m` is
   * `n` or free: afterwards `m` is present, `n` is gone unless it is `m`, and names stay distinct.
   */
  lemma UpdateRenamesTo(key: string, els: seq<Value>, factory: Constructor, n: Value, props: Value)
    requires DistinctNames(els, NameOf) && AllWellFormed(els) && HasName(els, NameOf, n)
    requires factory(props).Success? && WellFormed(factory(props).value)
    requires Get(factory(props).value, "name") != Undefined
    requires NameOf(factory(props).value) == n || !HasName(els, NameOf, NameOf(factory(props).value))
    ensures UpdateIn(key, els, NameOf, factory, n, props).Success?
    ensures var m := NameOf(factory(props).value);
      var r := UpdateIn(key, els, NameOf, factory, n, props).value;
      && |r| == |els|
      && HasName(r, NameOf, m)
      && (m != n ==> !HasName(r, NameOf, n))
      && DistinctNames(r, NameOf)
  {
    var i := IndexOf(els, NameOf, n);
    assert els[i] in els;
    MergeName(els[i], factory(props).value);
    UpdateRenames(key, els, NameOf, factory, n, props);
    UpdateKeepsNamesDistinct(key, els, NameOf, factory, n, props);
  }

  /** Removing `n` leaves exactly the other elements, in order, so `n` is then absent. */
  lemma RemoveLeavesOthers(key: string, els: seq<Value>, getter: Getter, n: Value)
    requires DistinctNames(els, getter) && HasName(els, getter, n)
    ensures RemoveIn(key, els, getter, n) == Success(Unnamed(els, getter, n))
    ensures !HasName(Unnamed(els, getter, n), getter, n)
    ensures DistinctNames(Unnamed(els, getter, n), getter)
  {
    var i := IndexOf(els, getter, n);
    UnnamedSplit(els, getter, i, n);
    var r := els[..i] + els[i + 1..];
    RemovedAt(els, getter, i);
    HasNameIndex(r, getter, n);
  }

  /** Deleting position `i` from distinctly named elements leaves distinct names without that one. */
  lemma RemovedAt(els: seq<Value>, getter: Getter, i: nat)
    requires DistinctNames(els, getter) && i < |els|
    ensures var r := els[..i] + els[i + 1..];
      && DistinctNames(r, getter)
      && forall a :: 0 <= a < |r| ==> getter(r[a]) != getter(els[i])
  {
    var r := els[..i] + els[i + 1..];
    assert forall a :: 0 <= a < |r| ==> r[a] == els[if a < i then a else a + 1];
  }

  lemma {:induction false} UnnamedSplit(els: seq<Value>, getter: Getter, i: nat, n: Value)
    requires DistinctNames(els, getter) && i < |els| && getter(els[i]) == n
    ensures Unnamed(els, getter, n) == els[..i] + els[i + 1..]
  {
    var tail := els[1..];
    assert forall j :: 0 <= j < |tail| ==> tail[j] == els[j + 1];
    if i == 0 {
      assert forall j :: 0 <= j < |tail| ==> getter(tail[j]) != n;
      UnnamedNone(tail, getter, n);
      assert els[..0] + els[1..] == tail;
    } else {
      assert getter(els[0]) != n;
      assert Unnamed(els, getter, n) == [els[0]] + Unnamed(tail, getter, n);
      assert DistinctNames(tail, getter);
      UnnamedSplit(tail, getter, i - 1, n);
      assert tail[..i - 1] + tail[i..] == els[1..i] + els[i + 1..];
      assert [els[0]] + els[1..i] == els[..i];
    }
  }

  lemma {:induction false} UnnamedNone(els: seq<Value>, getter: Getter, n: Value)
    requires forall j :: 0 <= j < |els| ==> getter(els[j]) != n
    ensures Unnamed(els, getter, n) == els
  {
    if els != [] {
      assert getter(els[0]) != n;
      UnnamedNone(els[1..], getter, n);
    }
  }

  /** Replacing an element by one with the same name keeps the names and every other element. */
  lemma ModifyKeepsNames(key: string, els: seq<Value>, getter: Getter, n: Value, update: Value -> Result<Value, Error>)
    requires HasName(els, getter, n) && update(els[IndexOf(els, getter, n)]).Success?
    requires getter(update(els[IndexOf(els, getter, n)]).value) == n
    ensures var r := ModifyIn(key, els, getter, n, update).value;
      && NamesOf(r, getter) == NamesOf(els, getter)
      && (forall j :: 0 <= j < |els| && j != IndexOf(els, getter, n) ==> r[j] == els[j])
      && r[IndexOf(els, getter, n)] == update(els[IndexOf(els, getter, n)]).value
  {
  }

  // ─── the engine applied to a shared parent node ───────────────────────────────

  /** Store a successful result as the new collection; a failure changes nothing. */
  method Commit(parent: Node, key: string, c: Result<seq<Value>, Error>) returns (r: Result<(), Error>)
    modifies parent
    ensures c.Success? ==> r == Success(()) && parent.value == WithElements(old(parent.value), key, c.value)
    ensures c.Failure? ==> r == Failure(c.error) && parent.value == old(parent.value)
  {
    if c.Failure? {
      return Failure(c.error);
    }
    parent.value := WithElements(parent.value, key, c.value);
    return Success(());
  }

  /** `oneToManyFindOneOrFail`. */
  function OneToManyFindOneOrFail(parent: Node, key: string, getter: Getter, n: Value): (r: Result<Value, Error>)
    reads parent
  {
    FindIn(key, ElementsOf(parent.value, key), getter, n)
  }

  /** `oneToManyCreate`. */
  method OneToManyCreate(parent: Node, key: string, getter: Getter, factory: Constructor, props: Value) returns (r: Result<(), Error>)
    modifies parent
    ensures var c := CreateIn(key, ElementsOf(old(parent.value), key), getter, factory, props);
      && (c.Success? ==> r.Success? && parent.value == WithElements(old(parent.value), key, c.value))
      && (c.Failure? ==> r == Failure(c.error) && parent.value == old(parent.value))
  {
    r := Commit(parent, key, CreateIn(key, ElementsOf(parent.value, key), getter, factory, props));
  }

  /** `oneToManyUpdate`. */
  method OneToManyUpdate(parent: Node, key: string, getter: Getter, factory: Constructor, n: Value, props: Value)
    returns (r: Result<(), Error>)
    modifies parent
    ensures var c := UpdateIn(key, ElementsOf(old(parent.value), key), getter, factory, n, props);
      && (c.Success? ==> r.Success? && parent.value == WithElements(old(parent.value), key, c.value))
      && (c.Failure? ==> r == Failure(c.error) && parent.value == old(parent.value))
  {
    r := Commit(parent, key, UpdateIn(key, ElementsOf(parent.value, key), getter, factory, n, props));
  }

  /** `oneToManyUpsert`. */
  method OneToManyUpsert(parent: Node, key: string, getter: Getter, factory: Constructor, props: Value) returns (r: Result<(), Error>)
    modifies parent
    ensures var c := UpsertIn(key, ElementsOf(old(parent.value), key), getter, factory, props);
      && (c.Success? ==> r.Success? && parent.value == WithElements(old(parent.value), key, c.value))
      && (c.Failure? ==> r == Failure(c.error) && parent.value == old(parent.value))
  {
    r := Commit(parent, key, UpsertIn(key, ElementsOf(parent.value, key), getter, factory, props));
  }

  /** `oneToManyRemoveOrFail`. */
  method OneToManyRemoveOrFail(parent: Node, key: string, getter: Getter, n: Value) returns (r: Result<(), Error>)
    modifies parent
    ensures var c := RemoveIn(key, ElementsOf(old(parent.value), key), getter, n);
      && (c.Success? ==> r.Success? && parent.value == WithElements(old(parent.value), key, c.value))
      && (c.Failure? ==> r == Failure(c.error) && parent.value == old(parent.value))
  {
    r := Commit(parent, key, RemoveIn(key, ElementsOf(parent.value, key), getter, n));
  }

  /** `new Crud({ parent, key, factory, matcher })`. */
  class Crud {
    const parent: Node
    const key: string
    const factory: Constructor
    const matcher: Getter

    constructor(parent: Node, key: string, factory: Constructor, matcher: Getter)
      ensures this.parent == parent && this.key == key && this.factory == factory && this.matcher == matcher
    {
      this.parent := parent;
      this.key := key;
      this.factory := factory;
      this.matcher := matcher;
    }

    function Elements(): seq<Value>
      reads parent
    {
      ElementsOf(parent.value, key)
    }

    /** The collection keeps its names distinct. */
    predicate Valid()
      reads parent
    {
      DistinctNames(Elements(), matcher)
    }

    /** `findManyNames()`. */
    function FindManyNames(): seq<Value>
      reads parent
    {
      NamesOf(Elements(), matcher)
    }

    /** `has(n)`. */
    predicate Has(n: Value)
      reads parent
    {
      HasName(Elements(), matcher, n)
    }

    /** `findOneOrFail(n)`. */
    function FindOneOrFail(n: Value): Result<Value, Error>
      reads parent
    {
      FindIn(key, Elements(), matcher, n)
    }

    method Create(props: Value) returns (r: Result<(), Error>)
      modifies parent
      ensures var c := CreateIn(key, old(Elements()), matcher, factory, props);
        && (c.Success? ==> r.Success? && parent.value == WithElements(old(parent.value), key, c.value))
        && (c.Failure? ==> r == Failure(c.error) && parent.value == old(parent.value))
      ensures old(Valid()) ==> Valid()
    {
      ghost var els := Elements();
      r := OneToManyCreate(parent, key, matcher, factory, props);
      if r.Success? && DistinctNames(els, matcher) {
        CreateKeepsNamesDistinct(key, els, matcher, factory, props);
      }
    }

    method Update(n: Value, props: Value) returns (r: Result<(), Error>)
      modifies parent
      ensures var c := UpdateIn(key, old(Elements()), matcher, factory, n, props);
        && (c.Success? ==> r.Success? && parent.value == WithElements(old(parent.value), key, c.value))
        && (c.Failure? ==> r == Failure(c.error) && parent.value == old(parent.value))
      ensures old(Valid()) ==> Valid()
    {
      ghost var els := Elements();
      r := OneToManyUpdate(parent, key, matcher, factory, n, props);
      if r.Success? && DistinctNames(els, matcher) {
        UpdateKeepsNamesDistinct(key, els, matcher, factory, n, props);
      }
    }

    method Upsert(props: Value) returns (r: Result<(), Error>)
      modifies parent
      ensures var c := UpsertIn(key, old(Elements()), matcher, factory, props);
        && (c.Success? ==> r.Success? && parent.value == WithElements(old(parent.value), key, c.value))
        && (c.Failure? ==> r == Failure(c.error) && parent.value == old(parent.value))
      ensures old(Valid()) ==> Valid()
    {
      ghost var els := Elements();
      r := OneToManyUpsert(parent, key, matcher, factory, props);
      if r.Success? && DistinctNames(els, matcher) {
        var built := factory(props).value;
        if HasName(els, matcher, matcher(built)) {
          UpdateKeepsNamesDistinct(key, els, matcher, factory, matcher(built), props);
        } else {
          CreateKeepsNamesDistinct(key, els, matcher, factory, props);
        }
      }
    }

    method Remove(n: Value) returns (r: Result<(), Error>)
      modifies parent
      ensures var c := RemoveIn(key, old(Elements()), matcher, n);
        && (c.Success? ==> r.Success? && parent.value == WithElements(old(parent.value), key, c.value))
        && (c.Failure? ==> r == Failure(c.error) && parent.value == old(parent.value))
      ensures old(Valid()) ==> Valid()
    {
      ghost var els := Elements();
      r := OneToManyRemoveOrFail(parent, key, matcher, n);
      if r.Success? && DistinctNames(els, matcher) {
        RemoveLeavesOthers(key, els, matcher, n);
      }
    }

    /** Replace the element named `n` by `update` of it, failing `NotFound` when it is absent. */
    method Modify(n: Value, update: Value -> Result<Value, Error>) returns (r: Result<(), Error>)
      modifies parent
      ensures var c := ModifyIn(key, old(Elements()), matcher, n, update);
        && (c.Success? ==> r.Success? && parent.value == WithElements(old(parent.value), key, c.value))
        && (c.Failure? ==> r == Failure(c.error) && parent.value == old(parent.value))
    {
      r := Commit(parent, key, ModifyIn(key, Elements(), matcher, n, update));
    }
  }
}
