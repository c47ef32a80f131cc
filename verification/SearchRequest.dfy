/** The inputs of search requests, as a query or a form. */
module SearchRequest {
  // Inputs are rendered in definition order and sent as a query or as a form body.

  import opened Wrappers
  import opened Lists
  import opened Utf8
  import opened FormEncoding

  const RAW_KEY: Bytes := [36, 114, 97, 119]

  /** An input and what its template renders to; templates are rendered elsewhere. */
  datatype Input = Input(key: Bytes, rendered: Result<Bytes, RenderError>)

  datatype RenderError = RenderError(key: Bytes)

  datatype PathBlock = PathBlock(inputs: seq<Input>, inheritInputs: Option<bool>, post: bool)

  datatype Request = Get(query: Bytes) | Post(query: Bytes, body: Bytes)

  // ----- Raw fragments

  predicate HasKey(part: Bytes) {
    Cut(part).0 != []
  }

  function RawPairsOf(parts: seq<Bytes>): seq<Pair> {
    if parts == [] then [] else
    var last := parts[|parts| - 1];
    RawPairsOf(parts[..|parts| - 1]) + (if HasKey(last) then [Pair(Cut(last).0, Cut(last).1)] else [])
  }

  function RawPairs(raw: Bytes): seq<Pair> {
    RawPairsOf(Split(raw, AMPERSAND))
  }

  method SplitRaw(raw: Bytes) returns (out: seq<Pair>)
    ensures out == RawPairs(raw)
  {
    out := [];
    var parts := Split(raw, AMPERSAND);
    for i := 0 to |parts|
      invariant out == RawPairsOf(parts[..i])
    {
      assert parts[..i + 1][..i] == parts[..i];
      var (key, value) := Cut(parts[i]);
      if key == [] {
        continue;
      }
      out := out + [Pair(key, value)];
    }
    assert parts[..|parts|] == parts;
  }

  /** A pair as a fragment spells it, without escapes. */
  function Plainly(p: Pair): Bytes {
    p.key + [EQUALS] + p.value
  }

  function Fragment(pairs: seq<Pair>): Bytes {
    if pairs == [] then []
    else if |pairs| == 1 then Plainly(pairs[0])
    else Fragment(pairs[..|pairs| - 1]) + [AMPERSAND] + Plainly(pairs[|pairs| - 1])
  }

  predicate Spellable(p: Pair) {
    p.key != [] && Lacks(p.key, EQUALS) && Lacks(p.key, AMPERSAND) && Lacks(p.value, AMPERSAND)
  }

  lemma {:induction false} RawPairsConcat(a: seq<Bytes>, b: seq<Bytes>)
    ensures RawPairsOf(a + b) == RawPairsOf(a) + RawPairsOf(b)
  {
    if b == [] {
      assert a + b == a;
    } else {
      var init, last := b[..|b| - 1], b[|b| - 1];
      assert (a + b)[..|a + b| - 1] == a + init;
      RawPairsConcat(a, init);
      Reassociate(RawPairsOf(a), RawPairsOf(init), if HasKey(last) then [Pair(Cut(last).0, Cut(last).1)] else []);
    }
  }

  lemma PlainPart(p: Pair)
    requires Spellable(p)
    ensures RawPairsOf(Split(Plainly(p), AMPERSAND)) == [p]
  {
    LacksConcat(p.key, [EQUALS], AMPERSAND);
    LacksConcat(p.key + [EQUALS], p.value, AMPERSAND);
    SplitWithout(Plainly(p), AMPERSAND);
    CutAtEquals(p.key, p.value);
    assert [Plainly(p)][..0] == [];
    assert RawPairsOf([]) == [];
  }

  /** A fragment of spellable pairs splits into those pairs, in order. */
  lemma {:induction false} FragmentSplits(pairs: seq<Pair>)
    requires pairs != [] && forall i :: 0 <= i < |pairs| ==> Spellable(pairs[i])
    ensures RawPairs(Fragment(pairs)) == pairs
  {
    var init, last := pairs[..|pairs| - 1], pairs[|pairs| - 1];
    assert pairs == init + [last];
    PlainPart(last);
    if init == [] {
      assert pairs == [last];
    } else {
      FragmentSplits(init);
      SplitJoined(Fragment(init), AMPERSAND, Plainly(last));
      RawPairsConcat(Split(Fragment(init), AMPERSAND), Split(Plainly(last), AMPERSAND));
    }
  }

  // ----- Rendered inputs

  /** The pairs one rendered input adds: a raw fragment's, none for a blank value, or its own. */
  function PairsOf(key: Bytes, rendered: Bytes, allowEmpty: bool): seq<Pair> {
    if key == RAW_KEY then RawPairs(rendered)
    else if Blank(rendered) && !allowEmpty then []
    else [Pair(key, rendered)]
  }

  /** The pairs of inputs in order, or the first that does not render. */
  function Rendered(inputs: seq<Input>, allowEmpty: bool): Result<seq<Pair>, RenderError> {
    if inputs == [] then Success([]) else
    var last := inputs[|inputs| - 1];
    match (Rendered(inputs[..|inputs| - 1], allowEmpty), last.rendered)
    case (Failure(e), _) => Failure(e)
    case (Success(_), Failure(e)) => Failure(e)
    case (Success(pairs), Success(text)) => Success(pairs + PairsOf(last.key, text, allowEmpty))
  }

  lemma {:induction false} RenderedFailsEarly(inputs: seq<Input>, allowEmpty: bool, i: nat)
    requires i <= |inputs| && Rendered(inputs[..i], allowEmpty).Failure?
    ensures Rendered(inputs, allowEmpty) == Rendered(inputs[..i], allowEmpty)
  {
    if i == |inputs| {
      assert inputs[..i] == inputs;
    } else {
      assert inputs[..|inputs| - 1][..i] == inputs[..i];
      RenderedFailsEarly(inputs[..|inputs| - 1], allowEmpty, i);
    }
  }

  method RenderInputs(inputs: seq<Input>, allowEmpty: bool) returns (r: Result<seq<Pair>, RenderError>)
    ensures r == Rendered(inputs, allowEmpty)
  {
    var out: seq<Pair> := [];
    for i := 0 to |inputs|
      invariant Rendered(inputs[..i], allowEmpty) == Success(out)
    {
      assert inputs[..i + 1][..i] == inputs[..i];
      var input := inputs[i];
      if input.rendered.Failure? {
        RenderedFailsEarly(inputs, allowEmpty, i + 1);
        return Failure(input.rendered.error);
      }
      var text := input.rendered.value;
      if input.key == RAW_KEY {
        var pairs := SplitRaw(text);
        out := out + pairs;
        continue;
      }
      if Blank(text) && !allowEmpty {
        assert out + [] == out;
        continue;
      }
      out := out + [Pair(input.key, text)];
    }
    assert inputs[..|inputs|] == inputs;
    return Success(out);
  }

  /** A path inherits the search's inputs unless it says not to. */
  function Inherited(search: seq<Input>, path: PathBlock): seq<Input> {
    if path.inheritInputs.GetOr(true) then search else []
  }

  lemma {:induction false} RenderedConcat(a: seq<Input>, b: seq<Input>, allowEmpty: bool)
    ensures Rendered(a + b, allowEmpty) ==
      match (Rendered(a, allowEmpty), Rendered(b, allowEmpty))
      case (Failure(e), _) => Failure(e)
      case (Success(_), Failure(e)) => Failure(e)
      case (Success(x), Success(y)) => Success(x + y)
  {
    if b == [] {
      assert a + b == a;
      assert Rendered(a, allowEmpty).Success? ==> Rendered(a, allowEmpty).value + [] == Rendered(a, allowEmpty).value;
    } else {
      var init, last := b[..|b| - 1], b[|b| - 1];
      assert (a + b)[..|a + b| - 1] == a + init;
      RenderedConcat(a, init, allowEmpty);
      if Rendered(a, allowEmpty).Success? && Rendered(init, allowEmpty).Success? && last.rendered.Success? {
        Reassociate(Rendered(a, allowEmpty).value, Rendered(init, allowEmpty).value,
                    PairsOf(last.key, last.rendered.value, allowEmpty));
      }
    }
  }

  /** Inherited inputs first, then the path's own. */
  method BuildInputs(search: seq<Input>, path: PathBlock, allowEmpty: bool) returns (r: Result<seq<Pair>, RenderError>)
    ensures r == Rendered(Inherited(search, path) + path.inputs, allowEmpty)
  {
    RenderedConcat(Inherited(search, path), path.inputs, allowEmpty);
    var pairs: seq<Pair> := [];
    if path.inheritInputs.GetOr(true) {
      var inherited := RenderInputs(search, allowEmpty);
      if inherited.Failure? {
        return inherited;
      }
      pairs := inherited.value;
    }
    var own := RenderInputs(path.inputs, allowEmpty);
    if own.Failure? {
      return own;
    }
    return Success(pairs + own.value);
  }

  // ----- Requests

  method AssembleRequest(path: PathBlock, query: Bytes, pairs: seq<Pair>) returns (r: Request)
    ensures r == if path.post then Post(query, Encoded(pairs)) else Get(WithPairs(query, pairs))
  {
    if path.post {
      var body := EncodeOrdered(pairs);
      return Post(query, body);
    }
    var url := new Url(query);
    url.AppendQuery(pairs);
    return Get(url.rawQuery);
  }

  /**
   A request whose inputs all render carries them all: the form body of a post parses to exactly
   the inherited pairs and then the path's own, and the query of a get, if it was well-formed, to its
   own pairs first.
   */
  lemma RequestCarriesInputs(search: seq<Input>, path: PathBlock, allowEmpty: bool, query: Bytes)
    requires Rendered(Inherited(search, path), allowEmpty).Success? && Rendered(path.inputs, allowEmpty).Success?
    ensures var inherited := Rendered(Inherited(search, path), allowEmpty).value;
      var own := Rendered(path.inputs, allowEmpty).value;
      var pairs := Rendered(Inherited(search, path) + path.inputs, allowEmpty);
      && pairs == Success(inherited + own)
      && ParseForm(Encoded(pairs.value)) == Some(inherited + own)
      && (ParseForm(query).Some? ==>
            ParseForm(WithPairs(query, pairs.value)) == Some(ParseForm(query).value + (inherited + own)))
  {
    RenderedConcat(Inherited(search, path), path.inputs, allowEmpty);
    var pairs := Rendered(Inherited(search, path) + path.inputs, allowEmpty).value;
    FormRoundTrip(pairs);
    if ParseForm(query).Some? {
      AppendedQueryParses(query, pairs);
    }
  }

  /** Which inputs a path sends: the search's too, unless it says that it does not inherit them. */
  lemma Inherits(search: seq<Input>, path: PathBlock)
    ensures Inherited(search, path) == if path.inheritInputs == Some(false) then [] else search
  {
  }

  /**
   An input among others: a raw one adds the pairs of its fragment, a blank one nothing unless empty
   inputs are allowed, and any other its key with the text it renders to, after those before it.
   */
  lemma InputIsSent(before: seq<Input>, input: Input, after: seq<Input>, allowEmpty: bool)
    requires Rendered(before, allowEmpty).Success? && input.rendered.Success? && Rendered(after, allowEmpty).Success?
    ensures var text := input.rendered.value;
      Rendered(before + [input] + after, allowEmpty) == Success(
        Rendered(before, allowEmpty).value
        + (if input.key == [36, 114, 97, 119] then RawPairs(text)
           else if Blank(text) && !allowEmpty then []
           else [Pair(input.key, text)])
        + Rendered(after, allowEmpty).value)
  {
    RenderedConcat(before + [input], after, allowEmpty);
    RenderedConcat(before, [input], allowEmpty);
    assert [input][..0] == [];
    assert Rendered([input], allowEmpty)
        == Success([] + PairsOf(input.key, input.rendered.value, allowEmpty));
  }

  /** One that does not render fails the request with its own error, unless one before it does. */
  lemma InputFails(before: seq<Input>, input: Input, after: seq<Input>, allowEmpty: bool)
    requires Rendered(before, allowEmpty).Success? && input.rendered.Failure?
    ensures Rendered(before + [input] + after, allowEmpty) == Failure(input.rendered.error)
  {
    RenderedConcat(before + [input], after, allowEmpty);
    RenderedConcat(before, [input], allowEmpty);
    assert [input][..0] == [];
  }

  // ----- Raw fragments, part by part

  /** A fragment joined by an ampersand is split there. */
  lemma RawJoined(a: Bytes, b: Bytes)
    ensures RawPairs(a + [38] + b) == RawPairs(a) + RawPairs(b)
  {
    SplitJoined(a, AMPERSAND, b);
    RawPairsConcat(Split(a, AMPERSAND), Split(b, AMPERSAND));
  }

  /** A part without a key adds nothing; one without an equals sign is a key with nothing for its value. */
  lemma RawPart(key: Bytes, value: Bytes)
    requires Lacks(key, 38) && Lacks(value, 38) && Lacks(key, 61)
    ensures RawPairs(key + [61] + value) == if key == [] then [] else [Pair(key, value)]
    ensures RawPairs(key) == if key == [] then [] else [Pair(key, [])]
  {
    LacksConcat(key, [EQUALS], AMPERSAND);
    LacksConcat(key + [EQUALS], value, AMPERSAND);
    CutAtEquals(key, value);
    OnePart(key + [EQUALS] + value);
    IndexOfIs(key, EQUALS, |key|);
    OnePart(key);
  }

  lemma OnePart(part: Bytes)
    requires Lacks(part, AMPERSAND)
    ensures RawPairs(part) == if Cut(part).0 == [] then [] else [Pair(Cut(part).0, Cut(part).1)]
  {
    SplitWithout(part, AMPERSAND);
    assert [part][..0] == [];
    assert RawPairsOf([]) == [];
  }
}
