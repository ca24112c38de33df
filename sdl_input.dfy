/**
 * `normaliseSDLInput`: SDL given as text, as a parsed document, or as a (nested) array of
 * either, flattened into one ordered list of definitions. The GraphQL parser is a parameter.
 */
module SdlInput {
  import opened Wrappers
  import opened Js
  import opened Errors

  /** The graphql-js parse options the helper sets. */
  datatype ParseOptions = ParseOptions(experimentalFragmentVariables: bool, noLocation: bool)

  const PARSE_OPTIONS := ParseOptions(true, true)

  /** graphql-js's `parse`: a Document node, or the syntax error it throws. */
  type Parser = (string, ParseOptions) -> Result<Value, Error>

  /** `[...v]` for the `definitions` of a document: a copy of the array, which must be one. */
  function Definitions(doc: Value): (r: Result<seq<Value>, Error>)
    ensures Get(doc, "definitions").Arr? ==> r == Success(Get(doc, "definitions").items)
    ensures !Get(doc, "definitions").Arr? ==> r == Failure(TypeError)
  {
    match Get(doc, "definitions")
    case Arr(ds) => Success(ds)
    case _ => Failure(TypeError)
  }

  /**
   * `normaliseSDLInput(sdl, options)`: text is parsed (always with `PARSE_OPTIONS`), an array is
   * flat-mapped left to right, a Document gives its definitions, anything else is rejected.
   */
  function Normalise(parse: Parser, sdl: Value, options: ParseOptions): (r: Result<seq<Value>, Error>)
    ensures sdl.Str? ==> r == (var doc :- parse(sdl.s, PARSE_OPTIONS); Definitions(doc))
    ensures sdl.Arr? ==> r == NormaliseAll(parse, sdl.items, options)
    ensures Nullish(sdl) ==> r == Failure(TypeError)
    ensures sdl.Obj? && Get(sdl, "kind") == Str("Document") ==> r == Definitions(sdl)
    ensures !sdl.Str? && !sdl.Arr? && !Nullish(sdl) && Get(sdl, "kind") != Str("Document") ==>
      r == Failure(InvalidSdl(sdl))
    decreases sdl, 1
  {
    match sdl
    case Str(s) =>
      var doc :- parse(s, PARSE_OPTIONS);
      Definitions(doc)
    case Arr(xs) => NormaliseAll(parse, xs, options)
    case _ =>
      if Nullish(sdl) then Failure(TypeError)
      else if Get(sdl, "kind") == Str("Document") then Definitions(sdl)
      else Failure(InvalidSdl(sdl))
  }

  /** `xs.flatMap((el) => normaliseSDLInput(el, options))`. */
  function NormaliseAll(parse: Parser, xs: seq<Value>, options: ParseOptions): (r: Result<seq<Value>, Error>)
    ensures xs == [] ==> r == Success([])
    decreases xs, 0
  {
    if xs == [] then Success([])
    else
      var head :- Normalise(parse, xs[0], options);
      var tail :- NormaliseAll(parse, xs[1..], options);
      Success(head + tail)
  }

  /** `Success(a ++ b)` when both succeed, otherwise the first failure. */
  function Concat(a: Result<seq<Value>, Error>, b: Result<seq<Value>, Error>): Result<seq<Value>, Error> {
    var x :- a;
    var y :- b;
    Success(x + y)
  }

  /** Flat-mapping a concatenation is the concatenation of the flat-maps. */
  lemma {:induction false} NormaliseAllAppend(parse: Parser, xs: seq<Value>, ys: seq<Value>, options: ParseOptions)
    ensures NormaliseAll(parse, xs + ys, options) == Concat(NormaliseAll(parse, xs, options), NormaliseAll(parse, ys, options))
    decreases xs
  {
    if xs == [] {
      assert xs + ys == ys;
      var b := NormaliseAll(parse, ys, options);
      if b.Success? {
        assert [] + b.value == b.value;
      }
    } else {
      assert (xs + ys)[0] == xs[0];
      assert (xs + ys)[1..] == xs[1..] + ys;
      NormaliseAllAppend(parse, xs[1..], ys, options);
      var head := Normalise(parse, xs[0], options);
      var a := NormaliseAll(parse, xs[1..], options);
      var b := NormaliseAll(parse, ys, options);
      if head.Success? && a.Success? && b.Success? {
        assert head.value + (a.value + b.value) == (head.value + a.value) + b.value;
      }
    }
  }

  /** The leaves of an input, left to right: every text or document inside nested arrays. */
  function Leaves(sdl: Value): (ls: seq<Value>)
    ensures forall i :: 0 <= i < |ls| ==> !ls[i].Arr?
    decreases sdl, 1
  {
    match sdl
    case Arr(xs) => LeavesAll(xs)
    case _ => [sdl]
  }

  function LeavesAll(xs: seq<Value>): (ls: seq<Value>)
    ensures forall i :: 0 <= i < |ls| ==> !ls[i].Arr?
    decreases xs, 0
  {
    if xs == [] then [] else Leaves(xs[0]) + LeavesAll(xs[1..])
  }

  /**
   * Nested arrays are flattened: normalising any input is normalising its leaves in order, each
   * a text or a document.
   */
  lemma {:induction false} NormaliseFlattens(parse: Parser, sdl: Value, options: ParseOptions)
    ensures Normalise(parse, sdl, options) == NormaliseAll(parse, Leaves(sdl), options)
    decreases sdl, 1
  {
    if sdl.Arr? {
      NormaliseAllFlattens(parse, sdl.items, options);
    } else {
      assert Leaves(sdl) == [sdl];
      assert [sdl][1..] == [];
      var r := Normalise(parse, sdl, options);
      if r.Success? {
        assert r.value + [] == r.value;
      }
    }
  }

  lemma {:induction false} NormaliseAllFlattens(parse: Parser, xs: seq<Value>, options: ParseOptions)
    ensures NormaliseAll(parse, xs, options) == NormaliseAll(parse, LeavesAll(xs), options)
    decreases xs, 0
  {
    if xs != [] {
      NormaliseFlattens(parse, xs[0], options);
      NormaliseAllFlattens(parse, xs[1..], options);
      NormaliseAllAppend(parse, Leaves(xs[0]), LeavesAll(xs[1..]), options);
    }
  }

  /** The `options` argument only travels down the recursion: it never changes the result. */
  lemma {:induction false} OptionsIgnored(parse: Parser, sdl: Value, o1: ParseOptions, o2: ParseOptions)
    ensures Normalise(parse, sdl, o1) == Normalise(parse, sdl, o2)
    decreases sdl, 1
  {
    match sdl
    case Arr(xs) => OptionsIgnoredAll(parse, xs, o1, o2);
    case _ =>
  }

  lemma {:induction false} OptionsIgnoredAll(parse: Parser, xs: seq<Value>, o1: ParseOptions, o2: ParseOptions)
    ensures NormaliseAll(parse, xs, o1) == NormaliseAll(parse, xs, o2)
    decreases xs, 0
  {
    if xs != [] {
      OptionsIgnored(parse, xs[0], o1, o2);
      OptionsIgnoredAll(parse, xs[1..], o1, o2);
    }
  }

  /** A Document gives a copy of its definitions, alone or wrapped in arrays. */
  lemma DocumentDefinitions(parse: Parser, doc: Value, options: ParseOptions)
    requires doc.Obj? && Get(doc, "kind") == Str("Document") && Get(doc, "definitions").Arr?
    ensures Normalise(parse, doc, options) == Success(Get(doc, "definitions").items)
    ensures Normalise(parse, Arr([doc]), options) == Success(Get(doc, "definitions").items)
    ensures Normalise(parse, Arr([Arr([doc]), Arr([])]), options) == Success(Get(doc, "definitions").items)
  {
    var ds := Get(doc, "definitions").items;
    assert Normalise(parse, doc, options) == Success(ds);
    assert NormaliseAll(parse, [], options) == Success([]);
    assert [doc][1..] == [];
    assert NormaliseAll(parse, [doc], options) == Success(ds + []);
    assert ds + [] == ds;
    assert Normalise(parse, Arr([doc]), options) == Success(ds);
    assert Normalise(parse, Arr([]), options) == Success([]);
    assert [Arr([])][1..] == [];
    assert NormaliseAll(parse, [Arr([])], options) == Success([] + []);
    assert [Arr([doc]), Arr([])][1..] == [Arr([])];
    assert NormaliseAll(parse, [Arr([doc]), Arr([])], options) == Success(ds + ([] + []));
    assert ds + ([] + []) == ds;
  }
}
