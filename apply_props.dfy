/**
 * The combinators every node constructor lowers its nested props with: a constructor `f` is
 * wrapped so that `undefined` (or any falsy value) passes through, an already-built node is kept,
 * and arrays are lowered element by element.
 */
module ApplyProps {
  import opened Wrappers
  import opened Js
  import opened Errors

  /** A node constructor: props in, node out, or the exception it throws. */
  type Constructor = Value -> Result<Value, Error>

  /** `isAstNode`: an object with an own string-typed `kind` (`isAstNode(null)` is taken as false). */
  function IsAstNode(x: Value): (b: bool)
    ensures b <==> x.Obj? && Get(x, "kind").Str?
    ensures b ==> Truthy(x)
  {
    x.Obj? && Has(x, "kind") && Get(x, "kind").Str?
  }

  /** `nullableFn(f)(x)`: `f` on truthy input, `undefined` otherwise. */
  function NullableFn(f: Constructor, x: Value): (r: Result<Value, Error>)
    ensures Truthy(x) ==> r == f(x)
    ensures !Truthy(x) ==> r == Success(Undefined)
  {
    if Truthy(x) then f(x) else Success(Undefined)
  }

  /** `nullableImplicitFn(f)(x)`: `f` on anything but `undefined`. */
  function NullableImplicitFn(f: Constructor, x: Value): (r: Result<Value, Error>)
    ensures x != Undefined ==> r == f(x)
    ensures x == Undefined ==> r == Success(Undefined)
  {
    if x != Undefined then f(x) else Success(Undefined)
  }

  /** `xs.map(f)`, stopping at the first element whose constructor throws. */
  function MapAll(f: Constructor, xs: seq<Value>): (r: Result<seq<Value>, Error>)
    ensures r.Success? ==> |r.value| == |xs| && forall i :: 0 <= i < |xs| ==> f(xs[i]) == Success(r.value[i])
    ensures r.Failure? ==> exists i :: 0 <= i < |xs| && f(xs[i]) == Failure(r.error)
  {
    if xs == [] then Success([])
    else
      var y :- f(xs[0]);
      var ys :- MapAll(f, xs[1..]);
      assert forall i :: 0 < i < |xs| ==> xs[i] == xs[1..][i - 1];
      Success([y] + ys)
  }

  /** `arrayableFn(f)(x)`: `x.map(f)`, which throws unless `x` is an array. */
  function ArrayableFn(f: Constructor, x: Value): (r: Result<Value, Error>)
    ensures !x.Arr? ==> r == Failure(TypeError)
    ensures x.Arr? && r.Success? ==> r.value.Arr? && |r.value.items| == |x.items|
    ensures x.Arr? && r.Success? ==> forall i :: 0 <= i < |x.items| ==> f(x.items[i]) == Success(r.value.items[i])
  {
    match x
    case Arr(xs) =>
      var ys :- MapAll(f, xs);
      Success(Arr(ys))
    case _ => Failure(TypeError)
  }

  /** `propsOrNodeFn(f)(x)`: a built node is returned as is, other truthy props are built, falsy give `undefined`. */
  function PropsOrNodeFn(f: Constructor, x: Value): (r: Result<Value, Error>)
    ensures IsAstNode(x) ==> r == Success(x)
    ensures !IsAstNode(x) && Truthy(x) ==> r == f(x)
    ensures !Truthy(x) ==> r == Success(Undefined)
  {
    if IsAstNode(x) then Success(x) else if Truthy(x) then f(x) else Success(Undefined)
  }

  /** `applyNullable(f, x)`: `f` on truthy input, `undefined` for every falsy one. */
  function ApplyNullable(f: Constructor, x: Value): (r: Result<Value, Error>)
    ensures Truthy(x) ==> r == f(x)
    ensures !Truthy(x) ==> r == Success(Undefined)
  {
    NullableFn(f, x)
  }

  /** `applyNullableImplicit(f, x)`: `f` on anything but `undefined`, which stays `undefined`. */
  function ApplyNullableImplicit(f: Constructor, x: Value): (r: Result<Value, Error>)
    ensures x != Undefined ==> r == f(x)
    ensures x == Undefined ==> r == Success(Undefined)
  {
    NullableImplicitFn(f, x)
  }

  /**
   * `applyProps(f, x)`: a node is kept, other truthy props are built, and every falsy non-node
   * (`undefined`, but also `null`, `""`, `0`, `false`) gives `undefined`.
   */
  function ApplyProps(f: Constructor, x: Value): (r: Result<Value, Error>)
    ensures IsAstNode(x) ==> r == Success(x)
    ensures !IsAstNode(x) && Truthy(x) ==> r == f(x)
    ensures !Truthy(x) ==> r == Success(Undefined)
  {
    NullableImplicitFn(y => PropsOrNodeFn(f, y), x)
  }

  /**
   * `applyPropsArr(f, x)`: `undefined` stays `undefined`; an array is lowered item by item, in
   * order; anything else throws.
   */
  function ApplyPropsArr(f: Constructor, x: Value): (r: Result<Value, Error>)
    ensures x == Undefined ==> r == Success(Undefined)
    ensures x != Undefined ==> r == ArrayableFn(y => PropsOrNodeFn(f, y), x)
    ensures r.Success? ==> (r.value == Undefined <==> x == Undefined)
  {
    NullableImplicitFn(y => ArrayableFn(z => PropsOrNodeFn(f, z), y), x)
  }

  /** `applyPropsNullable(f, x)`: like `ApplyProps`, written with the truthiness guard. */
  function ApplyPropsNullable(f: Constructor, x: Value): (r: Result<Value, Error>)
    ensures IsAstNode(x) ==> r == Success(x)
    ensures !IsAstNode(x) && Truthy(x) ==> r == f(x)
    ensures !Truthy(x) ==> r == Success(Undefined)
  {
    NullableFn(y => PropsOrNodeFn(f, y), x)
  }

  /** `applyPropsNullableArr(f, x)`: falsy input gives `undefined`; `[]` is truthy and gives `[]`. */
  function ApplyPropsNullableArr(f: Constructor, x: Value): (r: Result<Value, Error>)
    ensures !Truthy(x) ==> r == Success(Undefined)
    ensures Truthy(x) ==> r == ArrayableFn(y => PropsOrNodeFn(f, y), x)
  {
    NullableFn(y => ArrayableFn(z => PropsOrNodeFn(f, z), y), x)
  }

  /** `applyPropsCloned(f, x)`: `f` on a copy of anything but `undefined`, without the node check. */
  function ApplyPropsCloned(f: Constructor, x: Value): (r: Result<Value, Error>)
    ensures x != Undefined ==> r == f(x)
    ensures x == Undefined ==> r == Success(Undefined)
  {
    NullableImplicitFn(f, x)
  }

  /** The entries left once every `undefined`-valued entry is deleted. */
  function Compact(es: seq<Entry>): (r: seq<Entry>)
    ensures forall e :: e in r <==> e in es && e.val != Undefined
    ensures |r| <= |es|
  {
    if es == [] then []
    else if es[0].val == Undefined then Compact(es[1..])
    else [es[0]] + Compact(es[1..])
  }

  /**
   * `partialFn(f)(x)`: build with `f`, then delete, in place, every key of the built object whose
   * value is `undefined`. `Object.keys` throws on `null`/`undefined`; other primitives have no
   * keys to delete.
   */
  method PartialFn(f: Constructor, x: Value) returns (r: Result<Value, Error>)
    ensures f(x).Failure? ==> r == Failure(f(x).error)
    ensures f(x).Success? && Nullish(f(x).value) ==> r == Failure(TypeError)
    ensures f(x).Success? && f(x).value.Obj? ==> r == Success(Obj(Compact(f(x).value.entries)))
    ensures f(x).Success? && !f(x).value.Obj? && !Nullish(f(x).value) ==> r == f(x)
  {
    var partial :- f(x);
    assert f(x) == Success(partial);
    if Nullish(partial) {
      return Failure(TypeError);
    }
    if !partial.Obj? {
      return Success(partial);
    }
    var es := partial.entries;
    var j := 0;
    while j < |es|
      invariant j <= |es|
      invariant Compact(partial.entries) == es[..j] + Compact(es[j..])
      decreases |es| - j
    {
      assert es[j..] == [es[j]] + es[j + 1..];
      if es[j].val == Undefined {
        es := es[..j] + es[j + 1..];
      } else {
        j := j + 1;
      }
    }
    assert es[j..] == [] && Compact(es[j..]) == [];
    assert es[..j] == es;
    assert Compact(partial.entries) == es;
    return Success(Obj(es));
  }

  /** `applyPropsPartial(f, x)`: `undefined` passes through, anything else goes to `partialFn`. */
  method ApplyPropsPartial(f: Constructor, x: Value) returns (r: Result<Value, Error>)
    ensures x == Undefined ==> r == Success(Undefined)
    ensures x != Undefined && f(x).Failure? ==> r == Failure(f(x).error)
    ensures x != Undefined && f(x).Success? && Nullish(f(x).value) ==> r == Failure(TypeError)
    ensures x != Undefined && f(x).Success? && f(x).value.Obj? ==> r == Success(Obj(Compact(f(x).value.entries)))
    ensures x != Undefined && f(x).Success? && !f(x).value.Obj? && !Nullish(f(x).value) ==> r == f(x)
  {
    if x == Undefined {
      return Success(Undefined);
    }
    r := PartialFn(f, x);
  }

  /** `applyPropsClonedPartial(f, x)`: the same on a deep copy, which for values is the value itself. */
  method ApplyPropsClonedPartial(f: Constructor, x: Value) returns (r: Result<Value, Error>)
    ensures x == Undefined ==> r == Success(Undefined)
    ensures x != Undefined && f(x).Failure? ==> r == Failure(f(x).error)
    ensures x != Undefined && f(x).Success? && Nullish(f(x).value) ==> r == Failure(TypeError)
    ensures x != Undefined && f(x).Success? && f(x).value.Obj? ==> r == Success(Obj(Compact(f(x).value.entries)))
    ensures x != Undefined && f(x).Success? && !f(x).value.Obj? && !Nullish(f(x).value) ==> r == f(x)
  {
    if x == Undefined {
      return Success(Undefined);
    }
    r := PartialFn(f, x);
  }

  /** Deleting the `undefined` keys is invisible to property reads. */
  lemma {:induction false} CompactLookup(es: seq<Entry>, k: string)
    requires DistinctKeys(es)
    ensures Lookup(Compact(es), k) == Lookup(es, k)
  {
    if es != [] {
      assert DistinctKeys(es[1..]) by {
        assert forall i :: 0 <= i < |es[1..]| ==> es[1..][i] == es[i + 1];
      }
      CompactLookup(es[1..], k);
      if es[0].key == k && es[0].val == Undefined {
        assert !Mentions(es[1..], k) by {
          MentionsIndex(es[1..], k);
        }
        NotMentionedLookup(es[1..], k);
        CompactKeepsNoNewKeys(es[1..], k);
        NotMentionedLookup(Compact(es[1..]), k);
      }
    }
  }

  lemma {:induction false} CompactKeepsNoNewKeys(es: seq<Entry>, k: string)
    ensures Mentions(Compact(es), k) ==> Mentions(es, k)
  {
    if es != [] {
      CompactKeepsNoNewKeys(es[1..], k);
    }
  }

  lemma NotMentionedLookup(es: seq<Entry>, k: string)
    requires !Mentions(es, k)
    ensures Lookup(es, k) == Undefined
  {
  }

  /** A key survives `partialFn` exactly when it was present with a defined value. */
  lemma {:induction false} CompactMentions(es: seq<Entry>, k: string)
    requires DistinctKeys(es)
    ensures Mentions(Compact(es), k) <==> Mentions(es, k) && Lookup(es, k) != Undefined
  {
    if es != [] {
      assert DistinctKeys(es[1..]) by {
        assert forall i :: 0 <= i < |es[1..]| ==> es[1..][i] == es[i + 1];
      }
      CompactMentions(es[1..], k);
      if es[0].key == k {
        assert !Mentions(es[1..], k) by {
          MentionsIndex(es[1..], k);
        }
      }
    }
  }

  /** Deleting entries cannot make two keys clash: a well-formed object stays well-formed. */
  lemma {:induction false} CompactDistinct(es: seq<Entry>)
    requires DistinctKeys(es)
    ensures DistinctKeys(Compact(es))
  {
    if es != [] {
      assert DistinctKeys(es[1..]) by {
        assert forall i :: 0 <= i < |es[1..]| ==> es[1..][i] == es[i + 1];
      }
      CompactDistinct(es[1..]);
      if es[0].val != Undefined {
        var k := es[0].key;
        var rest := Compact(es[1..]);
        assert !Mentions(es[1..], k) by {
          MentionsIndex(es[1..], k);
        }
        CompactKeepsNoNewKeys(es[1..], k);
        MentionsIndex(rest, k);
        var r := Compact(es);
        assert r == [es[0]] + rest;
        assert forall j :: 0 < j < |r| ==> r[j] == rest[j - 1];
      }
    }
  }

  /**
   * `partialFn` deletes exactly the keys whose built value is `undefined`: every read is unchanged,
   * and a key is kept exactly when its value is defined.
   */
  lemma PartialDeletesUndefined(v: Value, k: string)
    requires v.Obj? && WellFormed(v)
    ensures Get(Obj(Compact(v.entries)), k) == Get(v, k)
    ensures Has(Obj(Compact(v.entries)), k) <==> Has(v, k) && Get(v, k) != Undefined
  {
    CompactLookup(v.entries, k);
    CompactMentions(v.entries, k);
  }

  /** The kept entries stay in their original order: deleting commutes with concatenation. */
  lemma {:induction false} CompactAppend(a: seq<Entry>, b: seq<Entry>)
    ensures Compact(a + b) == Compact(a) + Compact(b)
  {
    if a != [] {
      assert (a + b)[1..] == a[1..] + b;
      CompactAppend(a[1..], b);
    } else {
      assert a + b == b;
    }
  }
}
