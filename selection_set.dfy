/**
 * `SelectionSetApi`: a read-only view of a SelectionSet node. It checks the kind when it is
 * created and answers whether the set has no selections.
 */
module SelectionSetApis {
  import opened Wrappers
  import opened Js
  import opened Errors
  import opened KindAssertion
  import Ast
  import AstProperties
  import Kinds

  const SELECTION_SET := "SelectionSet"

  /** `v.length`: arrays and strings count their items, other objects read a `length` field. */
  function LengthOf(v: Value): (r: Result<Value, Error>)
    ensures Nullish(v) <==> r == Failure(TypeError)
    ensures v.Arr? ==> r == Success(Num(|v.items|))
  {
    match v
    case Undefined => Failure(TypeError)
    case Null => Failure(TypeError)
    case Arr(xs) => Success(Num(|xs|))
    case Str(s) => Success(Num(|s|))
    case Obj(_) => Success(Get(v, "length"))
    case _ => Success(Undefined)
  }

  datatype SelectionSetApi = SelectionSetApi(node: Value) {
    /** `isKind(tag)`, the kind-assertion capability. */
    predicate IsKindOf(tag: string) {
      IsKind(node, tag)
    }

    /** `isEmpty()`: `selections.length === 0`, which throws when there are no selections at all. */
    function IsEmpty(): (r: Result<bool, Error>)
      ensures Nullish(Get(node, "selections")) <==> r == Failure(TypeError)
      ensures Get(node, "selections").Arr? ==> r == Success(|Get(node, "selections").items| == 0)
    {
      var n :- LengthOf(Get(node, "selections"));
      Success(n == Num(0))
    }
  }

  /** `selectionSetApi(node)`: the view, or a kind mismatch naming the node's kind. */
  function SelectionSetApiOf(node: Value): (r: Result<SelectionSetApi, Error>)
    ensures r.Success? <==> IsKind(node, SELECTION_SET)
    ensures r.Success? ==> r.value.node == node && r.value.IsKindOf(SELECTION_SET)
    ensures r.Failure? ==> r.error == KindMismatch(SELECTION_SET, Get(node, "kind"))
  {
    var checked :- ValidateNodeKind(SELECTION_SET, node);
    Success(SelectionSetApi(checked))
  }

  /**
   * A selection set built from a non-empty list of selections is accepted by the view, which
   * reports it as a SelectionSet and as not empty.
   */
  lemma {:induction false} BuiltFromSelections(h: Ast.Host, xs: seq<Value>)
    requires |xs| > 0 && Ast.SelectionSetFrom(h, Arr(xs)).Success?
    ensures var api := SelectionSetApiOf(Ast.SelectionSetFrom(h, Arr(xs)).value);
      && api.Success?
      && api.value.IsKindOf(SELECTION_SET)
      && api.value.IsEmpty() == Success(false)
  {
    var le := Ast.LowerEach(h, Ast.SelectionC, xs);
    var la := Ast.LowerArr(h, Ast.SelectionC, Arr(xs));
    assert Ast.ApplyPropsArr(h, Ast.SelectionC, Arr(xs)) == la;
    assert la.Success?;
    assert le.Success?;
    assert la == Success(Arr(le.value));
    var ys := le.value;
    AstProperties.LowerEachIsMapAll(h, Ast.SelectionC, xs);
    assert |ys| == |xs|;
    var fields := [Entry("selections", Arr(ys))];
    assert Ast.SelectionSetFrom(h, Arr(xs)) == Success(Ast.Make(Kinds.SelectionSet, fields));
    AstProperties.FieldOf(Kinds.SelectionSet, fields, 0);
    AstProperties.MakeIsNode(Kinds.SelectionSet, fields);
  }

  /** `selectionSetNode({ selections: [a, b, c] })`: three selections make a set that is not empty. */
  lemma ThreeSelections(h: Ast.Host, a: Value, b: Value, c: Value)
    requires Ast.SelectionSetNode(h, Obj([Entry("selections", Arr([a, b, c]))])).Success?
    ensures var api := SelectionSetApiOf(Ast.SelectionSetNode(h, Obj([Entry("selections", Arr([a, b, c]))])).value);
      api.Success? && api.value.IsKindOf(SELECTION_SET) && api.value.IsEmpty() == Success(false)
  {
    var p := Obj([Entry("selections", Arr([a, b, c]))]);
    assert Get(p, "selections") == Arr([a, b, c]);
    BuiltFromSelections(h, [a, b, c]);
  }
}
