/**
 * The JavaScript values the node factory and the capability views work on. Props, built nodes and
 * every field of a node are `Value`s; an object is an ordered list of entries, as JavaScript keeps
 * string keys in insertion order.
 */
module Js {
  import opened Numbers

  datatype Value =
    | Undefined
    | Null
    | Bool(b: bool)
    | Num(n: int)
    | Str(s: string)
    | Arr(items: seq<Value>)
    | Obj(entries: seq<Entry>)

  datatype Entry = Entry(key: string, val: Value)

  /** `!!v`: undefined, null, false, 0 and "" are falsy; arrays and objects are always truthy. */
  predicate Truthy(v: Value) {
    match v
    case Undefined => false
    case Null => false
    case Bool(b) => b
    case Num(n) => n != 0
    case Str(s) => s != ""
    case Arr(_) => true
    case Obj(_) => true
  }

  /** `v == null`: the values on which a property read throws and `??` falls back. */
  predicate Nullish(v: Value) {
    v.Undefined? || v.Null?
  }

  /** A structural size used to show that lowering props terminates; `undefined` weighs nothing. */
  function Size(v: Value): nat
    decreases v, 1
  {
    match v
    case Undefined => 0
    case Arr(xs) => 1 + SizeAll(xs)
    case Obj(es) => 1 + SizeEntries(es)
    case _ => 1
  }

  function SizeAll(xs: seq<Value>): nat
    decreases xs, 0
  {
    if xs == [] then 0 else 1 + Size(xs[0]) + SizeAll(xs[1..])
  }

  function SizeEntries(es: seq<Entry>): nat
    decreases es, 0
  {
    if es == [] then 0 else 1 + Size(es[0].val) + SizeEntries(es[1..])
  }

  /** The value stored under `k` among `es`, `undefined` when `k` is absent. */
  function Lookup(es: seq<Entry>, k: string): (r: Value)
    ensures Size(r) <= SizeEntries(es)
    ensures r != Undefined ==> exists i :: 0 <= i < |es| && es[i] == Entry(k, r)
  {
    if es == [] then Undefined
    else if es[0].key == k then es[0].val
    else
      var r := Lookup(es[1..], k);
      assert r != Undefined ==> exists i :: 0 <= i < |es[1..]| && es[1..][i] == Entry(k, r);
      assert forall i :: 0 <= i < |es[1..]| ==> es[1..][i] == es[i + 1];
      r
  }

  /** The first entry with key `k` decides the lookup. */
  lemma {:induction false} LookupFirst(es: seq<Entry>, i: nat, k: string)
    requires i < |es| && es[i].key == k
    requires forall j :: 0 <= j < i ==> es[j].key != k
    ensures Lookup(es, k) == es[i].val
    decreases i
  {
    if i > 0 {
      LookupFirst(es[1..], i - 1, k);
    }
  }

  /**
   * `v[k]` for a string key: an own property of an object, `undefined` otherwise. Array indices,
   * `length` and inherited members are not modelled.
   */
  function Get(v: Value, k: string): (r: Value)
    ensures v != Undefined ==> Size(r) < Size(v)
    ensures r != Undefined ==> Has(v, k)
  {
    match v
    case Obj(es) =>
      MentionsIndex(es, k);
      Lookup(es, k)
    case _ => Undefined
  }

  /** The own keys of `v` in insertion order (`Object.keys`). */
  function Keys(v: Value): (ks: seq<string>)
    ensures v.Obj? ==> |ks| == |v.entries| && forall i :: 0 <= i < |ks| ==> ks[i] == v.entries[i].key
    ensures !v.Obj? ==> ks == []
  {
    match v
    case Obj(es) => KeysOf(es)
    case _ => []
  }

  function KeysOf(es: seq<Entry>): (ks: seq<string>)
    ensures |ks| == |es| && forall i :: 0 <= i < |es| ==> ks[i] == es[i].key
  {
    if es == [] then [] else [es[0].key] + KeysOf(es[1..])
  }

  /** `k in v`, restricted to own keys. */
  predicate Has(v: Value, k: string) {
    v.Obj? && Mentions(v.entries, k)
  }

  predicate Mentions(es: seq<Entry>, k: string) {
    es != [] && (es[0].key == k || Mentions(es[1..], k))
  }

  predicate DistinctKeys(es: seq<Entry>) {
    forall i, j :: 0 <= i < j < |es| ==> es[i].key != es[j].key
  }

  lemma {:induction false} MentionsIndex(es: seq<Entry>, k: string)
    ensures Mentions(es, k) <==> exists i :: 0 <= i < |es| && es[i].key == k
  {
    if es != [] {
      MentionsIndex(es[1..], k);
      assert forall i :: 0 < i < |es| ==> es[i] == es[1..][i - 1];
    }
  }

  /** An object whose keys are pairwise distinct, as every JavaScript object is. */
  predicate WellFormed(v: Value) {
    v.Obj? ==> DistinctKeys(v.entries)
  }

  function Drop(es: seq<Entry>, k: string): (r: seq<Entry>)
    ensures SizeEntries(r) <= SizeEntries(es)
    ensures forall e :: e in r <==> e in es && e.key != k
  {
    if es == [] then []
    else if es[0].key == k then Drop(es[1..], k)
    else [es[0]] + Drop(es[1..], k)
  }

  /**
   * `const { [k]: _, ...rest } = v`: the own entries of `v` other than `k`, in order. A primitive
   * spreads to no entries (string indices are not modelled).
   */
  function Without(v: Value, k: string): (r: Value)
    ensures r.Obj? && !Has(r, k)
    ensures v != Undefined ==> Size(r) <= Size(v)
    ensures forall j :: j != k ==> Get(r, j) == Get(v, j)
    ensures forall j :: j != k ==> (Has(r, j) <==> Has(v, j))
  {
    match v
    case Obj(es) =>
      var r := Obj(Drop(es, k));
      DropLookup(es, k);
      r
    case _ => Obj([])
  }

  lemma DropLookup(es: seq<Entry>, k: string)
    ensures forall j :: j != k ==> Lookup(Drop(es, k), j) == Lookup(es, j)
    ensures !Mentions(Drop(es, k), k)
    ensures forall j :: j != k ==> (Mentions(Drop(es, k), j) <==> Mentions(es, j))
  {
  }


  function Replace(es: seq<Entry>, k: string, x: Value): seq<Entry> {
    if es == [] then [Entry(k, x)]
    else if es[0].key == k then [Entry(k, x)] + es[1..]
    else [es[0]] + Replace(es[1..], k, x)
  }

  /**
   * `v[k] = x` on an object: an existing key keeps its position, a new key is appended. Assigning
   * on a primitive has no effect.
   */
  function Set(v: Value, k: string, x: Value): (r: Value)
    ensures v.Obj? ==> r.Obj? && Get(r, k) == x && Has(r, k)
    ensures forall j :: j != k ==> Get(r, j) == Get(v, j)
    ensures v.Obj? && Has(v, k) ==> Keys(r) == Keys(v)
    ensures v.Obj? && !Has(v, k) ==> Keys(r) == Keys(v) + [k]
    ensures !v.Obj? ==> r == v
  {
    match v
    case Obj(es) => SetEntries(es, k, x); Obj(Replace(es, k, x))
    case _ => v
  }

  lemma {:induction false} SetEntries(es: seq<Entry>, k: string, x: Value)
    ensures Lookup(Replace(es, k, x), k) == x && Mentions(Replace(es, k, x), k)
    ensures forall j :: j != k ==> Lookup(Replace(es, k, x), j) == Lookup(es, j)
    ensures Mentions(es, k) ==> KeysOf(Replace(es, k, x)) == KeysOf(es)
    ensures !Mentions(es, k) ==> KeysOf(Replace(es, k, x)) == KeysOf(es) + [k]
  {
    ReplaceLookup(es, k, x);
    ReplaceKeys(es, k, x);
  }

  lemma {:induction false} ReplaceLookup(es: seq<Entry>, k: string, x: Value)
    ensures Lookup(Replace(es, k, x), k) == x && Mentions(Replace(es, k, x), k)
    ensures forall j :: j != k ==> Lookup(Replace(es, k, x), j) == Lookup(es, j)
  {
    if es != [] && es[0].key != k {
      ReplaceLookup(es[1..], k, x);
      var r := Replace(es, k, x);
      assert r == [es[0]] + Replace(es[1..], k, x);
      assert r[1..] == Replace(es[1..], k, x);
    } else if es != [] {
      assert Replace(es, k, x)[1..] == es[1..];
    }
  }

  lemma {:induction false} ReplaceKeys(es: seq<Entry>, k: string, x: Value)
    ensures Mentions(es, k) ==> KeysOf(Replace(es, k, x)) == KeysOf(es)
    ensures !Mentions(es, k) ==> KeysOf(Replace(es, k, x)) == KeysOf(es) + [k]
  {
    if es == [] {
    } else if es[0].key == k {
      var r := Replace(es, k, x);
      assert r[1..] == es[1..];
      assert KeysOf(r) == [k] + KeysOf(es[1..]);
    } else {
      ReplaceKeys(es[1..], k, x);
      var r := Replace(es, k, x);
      assert r[1..] == Replace(es[1..], k, x);
      assert KeysOf(r) == [es[0].key] + KeysOf(r[1..]);
      assert KeysOf(es) == [es[0].key] + KeysOf(es[1..]);
    }
  }

  /** `{ ...a, ...b }`: the entries of `a`, then each entry of `b` assigned in order. */
  function Assign(a: Value, b: Value): (r: Value)
    requires a.Obj?
    ensures r.Obj?
    ensures WellFormed(b) ==> forall k :: Get(r, k) == (if Has(b, k) then Get(b, k) else Get(a, k))
  {
    match b
    case Obj(es) =>
      if DistinctKeys(es) then
        forall k ensures Get(AssignEntries(a, es), k) == (if Has(b, k) then Get(b, k) else Get(a, k)) {
          AssignEntriesGet(a, es, k);
        }
        AssignEntries(a, es)
      else AssignEntries(a, es)
    case _ => a
  }

  function AssignEntries(a: Value, es: seq<Entry>): (r: Value)
    requires a.Obj?
    ensures r.Obj?
    decreases |es|
  {
    if es == [] then a else AssignEntries(Set(a, es[0].key, es[0].val), es[1..])
  }

  lemma {:induction false} AssignEntriesGet(a: Value, es: seq<Entry>, k: string)
    requires a.Obj? && DistinctKeys(es)
    ensures Get(AssignEntries(a, es), k) == (if Mentions(es, k) then Lookup(es, k) else Get(a, k))
    decreases |es|
  {
    if es != [] {
      var a' := Set(a, es[0].key, es[0].val);
      assert AssignEntries(a, es) == AssignEntries(a', es[1..]);
      AssignEntriesGet(a', es[1..], k);
      if k == es[0].key {
        assert Get(a', k) == es[0].val;
        MentionsIndex(es[1..], k);
      } else {
        assert Get(a', k) == Get(a, k);
        assert Lookup(es, k) == Lookup(es[1..], k);
      }
    }
  }

  /** `'' + v` (`String(v)`); objects print as "[object Object]" and arrays join their items with ','. */
  function ToStr(v: Value): string
    decreases v, 1
  {
    match v
    case Undefined => "undefined"
    case Null => "null"
    case Bool(b) => if b then "true" else "false"
    case Num(n) => DecimalOf(n)
    case Str(s) => s
    case Arr(xs) => Join(xs)
    case Obj(_) => "[object Object]"
  }

  /** `xs.join(',')`, where `null` and `undefined` items print as the empty string. */
  function Join(xs: seq<Value>): string
    decreases xs, 0
  {
    if xs == [] then ""
    else
      var head := if Nullish(xs[0]) then "" else ToStr(xs[0]);
      if |xs| == 1 then head else head + "," + Join(xs[1..])
  }
}
