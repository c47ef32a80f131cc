/** XML names, as written. */
module XmlNames {
  // A written name has a prefix; the decoder replaces it by the URI that the innermost declaration of
  // the prefix binds it to (section 6.1 of Namespaces in XML 1.0; section 3 reserves `xml` and `xmlns`),
  // and leaves it where there is none. The tree looks the URI up again. What comes back is the written
  // prefix exactly when the innermost element that declares the URI declares it last under that prefix.

  import opened Wrappers
  import opened XmlTree

  /** The namespaces an element binds: URI by prefix. */
  type Bindings = map<string, string>

  function BindingsOf(attrs: seq<Attr>): Bindings {
    if attrs == [] then map[] else
    var init, a := attrs[..|attrs| - 1], attrs[|attrs| - 1];
    if IsDecl(a) then BindingsOf(init)[PrefixOf(a) := a.value] else BindingsOf(init)
  }

  const XML_URI := "http://www.w3.org/XML/1998/namespace"

  /** The URI a prefix is bound to: by definition, or by the innermost of the open elements that binds it. */
  function Bound(prefix: string, open: seq<seq<Attr>>): Option<string> {
    if prefix == "xml" then Some(XML_URI) else if prefix == "xmlns" then None else BoundBy(prefix, open)
  }

  function BoundBy(prefix: string, open: seq<seq<Attr>>): Option<string> {
    if open == [] then None else
    var inner := BindingsOf(open[|open| - 1]);
    if prefix in inner then Some(inner[prefix]) else BoundBy(prefix, open[..|open| - 1])
  }

  /** The name the decoder gives for a written one; only elements have a default namespace. */
  function Decoded(prefix: string, local: string, isElement: bool, open: seq<seq<Attr>>): Name {
    if prefix == "" && !isElement then Name("", local) else Name(Bound(prefix, open).GetOr(prefix), local)
  }

  function ScopesOf(open: seq<seq<Attr>>): seq<Decls> {
    if open == [] then [] else ScopesOf(open[..|open| - 1]) + [DeclsOf(open[|open| - 1])]
  }

  /** The prefix the tree gives a URI: that of its last declaration in the innermost element that declares it. */
  function PrefixFor(uri: string, open: seq<seq<Attr>>): Option<string> {
    if open == [] then None else
    var inner := DeclsOf(open[|open| - 1]);
    if uri in inner then Some(inner[uri]) else PrefixFor(uri, open[..|open| - 1])
  }

  lemma {:induction false} QualifiedBy(name: Name, open: seq<seq<Attr>>)
    requires name.space != ""
    ensures Qualified(name, ScopesOf(open))
         == match PrefixFor(name.space, open)
            case Some(prefix) => Prefixed(prefix, name.local)
            case None => name.space + ":" + name.local
  {
    if open != [] {
      var init, last := open[..|open| - 1], open[|open| - 1];
      QualifiedBy(name, init);
      assert (ScopesOf(init) + [DeclsOf(last)])[..|ScopesOf(init)|] == ScopesOf(init);
    }
  }

  /** Different prefixes give different names. */
  lemma PrefixTold(p: string, q: string, local: string)
    ensures Prefixed(p, local) == Prefixed(q, local) <==> p == q
  {
    if p != "" && q != "" && p + ":" + local == q + ":" + local {
      assert |p| == |q|;
      assert p == (p + ":" + local)[..|p|] && q == (q + ":" + local)[..|q|];
    }
    if p == "" && q != "" {
      assert |Prefixed(q, local)| > |Prefixed(p, local)|;
    }
    if q == "" && p != "" {
      assert |Prefixed(p, local)| > |Prefixed(q, local)|;
    }
  }

  /** An element declares a URI, and last under this prefix. */
  ghost predicate LastUnder(attrs: seq<Attr>, uri: string, prefix: string) {
    exists i: nat :: LastDeclares(attrs, uri, i) && PrefixOf(attrs[i]) == prefix
  }

  predicate DeclaresUri(attrs: seq<Attr>, uri: string) {
    exists i :: 0 <= i < |attrs| && IsDecl(attrs[i]) && attrs[i].value == uri
  }

  /** The innermost of the open elements that declares a URI declares it last under this prefix. */
  ghost predicate InnermostUnder(open: seq<seq<Attr>>, uri: string, prefix: string) {
    exists k :: 0 <= k < |open| && LastUnder(open[k], uri, prefix) && NoneWithin(open, uri, k)
  }

  predicate NoneWithin(open: seq<seq<Attr>>, uri: string, k: int) {
    forall m :: k < m < |open| && m >= 0 ==> !DeclaresUri(open[m], uri)
  }

  lemma DeclaresIff(attrs: seq<Attr>, uri: string)
    ensures uri in DeclsOf(attrs) <==> DeclaresUri(attrs, uri)
  {
    DeclaredByLast(attrs, uri);
    if DeclaresUri(attrs, uri) {
      var i :| 0 <= i < |attrs| && IsDecl(attrs[i]) && attrs[i].value == uri;
      DeclaresValue(attrs, attrs[i]);
    }
  }

  lemma LastUnderIff(attrs: seq<Attr>, uri: string, prefix: string)
    ensures LastUnder(attrs, uri, prefix) <==> uri in DeclsOf(attrs) && DeclsOf(attrs)[uri] == prefix
  {
    DeclaredByLast(attrs, uri);
  }

  lemma OneElementMore(init: seq<seq<Attr>>, last: seq<Attr>, uri: string, prefix: string)
    ensures InnermostUnder(init + [last], uri, prefix)
      <==> LastUnder(last, uri, prefix) || (InnermostUnder(init, uri, prefix) && !DeclaresUri(last, uri))
  {
    var all := init + [last];
    assert forall m :: 0 <= m < |init| ==> all[m] == init[m];
    assert all[|init|] == last;
    if InnermostUnder(all, uri, prefix) {
      var k :| 0 <= k < |all| && LastUnder(all[k], uri, prefix) && NoneWithin(all, uri, k);
      assert k < |init| ==> LastUnder(init[k], uri, prefix) && NoneWithin(init, uri, k);
      assert k < |init| ==> !DeclaresUri(all[|init|], uri);
    }
    if LastUnder(last, uri, prefix) {
      assert LastUnder(all[|init|], uri, prefix) && NoneWithin(all, uri, |init|);
    }
    if InnermostUnder(init, uri, prefix) && !DeclaresUri(last, uri) {
      var k :| 0 <= k < |init| && LastUnder(init[k], uri, prefix) && NoneWithin(init, uri, k);
      assert LastUnder(all[k], uri, prefix) && NoneWithin(all, uri, k);
    }
  }

  /** The lookup finds the prefix of the innermost declaration, and nothing exactly when there is none. */
  lemma {:induction false} PrefixForIff(uri: string, open: seq<seq<Attr>>, prefix: string)
    ensures PrefixFor(uri, open) == Some(prefix) <==> InnermostUnder(open, uri, prefix)
    ensures PrefixFor(uri, open).None? <==> NoneWithin(open, uri, -1)
  {
    if open != [] {
      var init, last := open[..|open| - 1], open[|open| - 1];
      PrefixForIff(uri, init, prefix);
      DeclaresIff(last, uri);
      LastUnderIff(last, uri, prefix);
      OneElementMore(init, last, uri, prefix);
      assert open == init + [last];
      assert NoneWithin(open, uri, -1) <==> NoneWithin(init, uri, -1) && !DeclaresUri(last, uri);
    }
  }

  /**
   The innermost element that declares the URI the prefix is bound to declares it last under that
   prefix. A prefix that is bound to nothing is looked up as if it were a URI, and kept when that is
   declared nowhere.
   */
  ghost predicate KeepsPrefix(prefix: string, open: seq<seq<Attr>>) {
    var uri := Bound(prefix, open).GetOr(prefix);
    if uri == "" then prefix == ""
    else InnermostUnder(open, uri, prefix) || (uri == prefix && NoneWithin(open, uri, -1))
  }

  /** For every nesting of declarations: a name comes back as it was written exactly when its prefix does. */
  lemma NameKeptIff(prefix: string, local: string, isElement: bool, open: seq<seq<Attr>>)
    ensures Qualified(Decoded(prefix, local, isElement, open), ScopesOf(open)) == Prefixed(prefix, local)
      <==> (prefix == "" && !isElement) || KeepsPrefix(prefix, open)
  {
    var name := Decoded(prefix, local, isElement, open);
    if name.space != "" {
      QualifiedBy(name, open);
      PrefixForIff(name.space, open, prefix);
      PrefixTold(PrefixFor(name.space, open).GetOr(name.space), prefix, local);
    } else {
      PrefixTold("", prefix, local);
    }
  }

  // ----- A condition on the declarations alone

  /** A declaration among those of the open elements. */
  ghost predicate Declared(open: seq<seq<Attr>>, a: Attr) {
    IsDecl(a) && exists k :: 0 <= k < |open| && a in open[k]
  }

  /** No URI is declared under two prefixes. */
  ghost predicate OnePrefixEach(open: seq<seq<Attr>>) {
    forall a, b :: Declared(open, a) && Declared(open, b) && a.value == b.value ==> PrefixOf(a) == PrefixOf(b)
  }

  lemma {:induction false} BoundByDeclaration(prefix: string, open: seq<seq<Attr>>) returns (a: Attr)
    requires BoundBy(prefix, open).Some?
    ensures Declared(open, a) && PrefixOf(a) == prefix && a.value == BoundBy(prefix, open).value
  {
    var init, last := open[..|open| - 1], open[|open| - 1];
    if prefix in BindingsOf(last) {
      a := BindingFrom(last, prefix);
      assert a in open[|open| - 1];
    } else {
      a := BoundByDeclaration(prefix, init);
      var k :| 0 <= k < |init| && a in init[k];
      assert a in open[k];
    }
  }

  lemma {:induction false} BindingFrom(attrs: seq<Attr>, prefix: string) returns (a: Attr)
    requires prefix in BindingsOf(attrs)
    ensures a in attrs && IsDecl(a) && PrefixOf(a) == prefix && a.value == BindingsOf(attrs)[prefix]
  {
    a := attrs[|attrs| - 1];
    if !(IsDecl(a) && PrefixOf(a) == prefix) {
      a := BindingFrom(attrs[..|attrs| - 1], prefix);
    }
  }

  lemma {:induction false} PrefixFromDeclaration(uri: string, open: seq<seq<Attr>>) returns (a: Attr)
    requires PrefixFor(uri, open).Some?
    ensures Declared(open, a) && a.value == uri && PrefixOf(a) == PrefixFor(uri, open).value
  {
    var init, last := open[..|open| - 1], open[|open| - 1];
    if uri in DeclsOf(last) {
      DeclaredByLast(last, uri);
      var i: nat :| LastDeclares(last, uri, i);
      a := last[i];
      assert a in open[|open| - 1];
    } else {
      a := PrefixFromDeclaration(uri, init);
      var k :| 0 <= k < |init| && a in init[k];
      assert a in open[k];
    }
  }

  lemma {:induction false} DeclaredHasPrefix(open: seq<seq<Attr>>, a: Attr)
    requires Declared(open, a)
    ensures PrefixFor(a.value, open).Some?
  {
    var init, last := open[..|open| - 1], open[|open| - 1];
    var k :| 0 <= k < |open| && a in open[k];
    if k == |open| - 1 {
      DeclaresValue(last, a);
    } else {
      assert a in init[k];
      DeclaredHasPrefix(init, a);
    }
  }

  lemma {:induction false} DeclaresValue(attrs: seq<Attr>, a: Attr)
    requires a in attrs && IsDecl(a)
    ensures a.value in DeclsOf(attrs)
  {
    var init, last := attrs[..|attrs| - 1], attrs[|attrs| - 1];
    if a != last {
      assert attrs == init + [last];
      DeclaresValue(init, a);
    }
  }

  /** Where every URI is declared under one prefix only, every name with a bound prefix is kept. */
  lemma OnePrefixKeepsNames(prefix: string, local: string, open: seq<seq<Attr>>)
    requires OnePrefixEach(open) && prefix != "xml" && Bound(prefix, open).Some? && Bound(prefix, open).value != ""
    ensures Qualified(Decoded(prefix, local, true, open), ScopesOf(open)) == Prefixed(prefix, local)
  {
    var a := BoundByDeclaration(prefix, open);
    DeclaredHasPrefix(open, a);
    var b := PrefixFromDeclaration(a.value, open);
    PrefixForIff(a.value, open, prefix);
    assert KeepsPrefix(prefix, open);
    NameKeptIff(prefix, local, true, open);
  }

  // ----- Two prefixes for one URI

  function Declaration(prefix: string, uri: string): Attr {
    Attr(Name("xmlns", prefix), uri)
  }

  /** An element that declares one URI under two prefixes: a name written with the first comes back with the second. */
  lemma FirstPrefixIsLost()
    ensures var open := [[Declaration("a", "u"), Declaration("b", "u")]];
      && Decoded("a", "x", true, open) == Name("u", "x")
      && Qualified(Decoded("a", "x", true, open), ScopesOf(open)) == "b:x"
  {
    var attrs := [Declaration("a", "u"), Declaration("b", "u")];
    assert attrs[..1] == [Declaration("a", "u")] && attrs[..1][..0] == [];
    var none: seq<seq<Attr>> := [];
    assert [attrs][..0] == none && ScopesOf(none) == [];
    assert BindingsOf(attrs[..1]) == map["a" := "u"];
    assert BindingsOf(attrs) == map["a" := "u", "b" := "u"];
    assert DeclsOf(attrs)["u"] == "b";
    assert ScopesOf([attrs]) == [DeclsOf(attrs)];
  }

  /** The prefix `xml` needs no declaration; without one, its URI is written out instead. */
  lemma XmlPrefixIsExpanded(local: string, isElement: bool, open: seq<seq<Attr>>)
    requires PrefixFor(XML_URI, open).None?
    ensures Qualified(Decoded("xml", local, isElement, open), ScopesOf(open)) == XML_URI + ":" + local
  {
    assert |XML_URI| > 0;
    QualifiedBy(Name(XML_URI, local), open);
  }

  // ----- What the tree says of a stream

  /** `s` is what a decoded name is called inside the open elements, told by their declarations. */
  ghost predicate IsCalled(s: string, name: Name, open: seq<seq<Attr>>) {
    if name.space == "" then s == name.local
    else if NoneWithin(open, name.space, -1) then s == name.space + ":" + name.local
    else exists prefix :: InnermostUnder(open, name.space, prefix)
                          && s == if prefix == "" then name.local else prefix + ":" + name.local
  }

  lemma QualifiedIsCalled(name: Name, open: seq<seq<Attr>>)
    ensures IsCalled(Qualified(name, ScopesOf(open)), name, open)
  {
    if name.space != "" {
      QualifiedBy(name, open);
      PrefixForIff(name.space, open, PrefixFor(name.space, open).GetOr(""));
    }
  }

  /** A name is called one thing only. */
  lemma CalledOneThing(s: string, t: string, name: Name, open: seq<seq<Attr>>)
    requires IsCalled(s, name, open) && IsCalled(t, name, open)
    ensures s == t
  {
    QualifiedBy(Name("x", name.local), open);
    if name.space != "" && !NoneWithin(open, name.space, -1) {
      var p :| InnermostUnder(open, name.space, p) && s == if p == "" then name.local else p + ":" + name.local;
      var q :| InnermostUnder(open, name.space, q) && t == if q == "" then name.local else q + ":" + name.local;
      PrefixForIff(name.space, open, p);
      PrefixForIff(name.space, open, q);
    }
  }

  predicate Declares(a: Attr) {
    a.name.space == "xmlns" || a.name == Name("", "xmlns")
  }

  /** How many of the first `n` attributes declare nothing. */
  function OthersBefore(attrs: seq<Attr>, n: nat): nat
    requires n <= |attrs|
  {
    if n == 0 then 0 else OthersBefore(attrs, n - 1) + if Declares(attrs[n - 1]) then 0 else 1
  }

  lemma {:induction false} OthersAreKept(attrs: seq<Attr>, n: nat)
    requires n <= |attrs|
    ensures OthersBefore(attrs, n) == KeptBefore(attrs, n)
  {
    if n > 0 {
      OthersAreKept(attrs, n - 1);
    }
  }

  /** The attributes of a node: those of the token that declare nothing, in order, each with its value. */
  ghost predicate HasAttrs(nodeAttrs: seq<NodeAttr>, attrs: seq<Attr>, open: seq<seq<Attr>>) {
    && |nodeAttrs| == OthersBefore(attrs, |attrs|)
    && forall i :: 0 <= i < |attrs| && !Declares(attrs[i]) ==>
      && OthersBefore(attrs, i) < |nodeAttrs|
      && nodeAttrs[OthersBefore(attrs, i)].val == attrs[i].value
      && IsCalled(nodeAttrs[OthersBefore(attrs, i)].key, attrs[i].name, open)
  }

  lemma NodeHasAttrs(attrs: seq<Attr>, open: seq<seq<Attr>>)
    ensures HasAttrs(NodeAttrs(attrs, ScopesOf(open)), attrs, open)
  {
    OthersAreKept(attrs, |attrs|);
    if attrs == [] {
      assert NodeAttrs(attrs, ScopesOf(open)) == [];
    } else {
      AttrStands(attrs, ScopesOf(open), 0);
    }
    forall i | 0 <= i < |attrs| && !Declares(attrs[i])
      ensures OthersBefore(attrs, i) < |NodeAttrs(attrs, ScopesOf(open))|
      ensures NodeAttrs(attrs, ScopesOf(open))[OthersBefore(attrs, i)]
           == NodeAttr(Qualified(attrs[i].name, ScopesOf(open)), attrs[i].value)
      ensures IsCalled(Qualified(attrs[i].name, ScopesOf(open)), attrs[i].name, open)
    {
      OthersAreKept(attrs, i);
      AttrStands(attrs, ScopesOf(open), i);
      QualifiedIsCalled(attrs[i].name, open);
    }
  }

  /** A start tag inside the open elements: its name and attributes see its own declarations too. */
  ghost predicate Opens(out: OutToken, name: Name, attrs: seq<Attr>, open: seq<seq<Attr>>) {
    out.OutStart? && IsCalled(out.data, name, open + [attrs]) && HasAttrs(out.attrs, attrs, open + [attrs])
  }

  /** Token by token, what is written is what the stream says. */
  ghost predicate Says(out: seq<OutToken>, toks: seq<Token>, open: seq<seq<Attr>>)
    decreases |toks|
  {
    if toks == [] then out == [] else
    match toks[0]
    case Other => Says(out, toks[1..], open)
    case Text(data) => out != [] && out[0] == OutText(data) && Says(out[1..], toks[1..], open)
    case End => out != [] && out[0] == OutEnd && Says(out[1..], toks[1..], Outer(open))
    case Start(name, attrs) =>
      out != [] && Opens(out[0], name, attrs, open) && Says(out[1..], toks[1..], open + [attrs])
  }

  function Outer(open: seq<seq<Attr>>): seq<seq<Attr>> {
    if open == [] then [] else open[..|open| - 1]
  }

  lemma {:induction false} ScopeCount(open: seq<seq<Attr>>)
    ensures |ScopesOf(open)| == |open|
  {
    if open != [] {
      ScopeCount(open[..|open| - 1]);
    }
  }

  lemma ScopesMore(open: seq<seq<Attr>>, attrs: seq<Attr>)
    ensures ScopesOf(open + [attrs]) == ScopesOf(open) + [DeclsOf(attrs)]
  {
    assert (open + [attrs])[..|open|] == open;
  }

  lemma ScopesLess(open: seq<seq<Attr>>)
    requires open != []
    ensures ScopesOf(open) != [] && ScopesOf(open)[..|ScopesOf(open)| - 1] == ScopesOf(Outer(open))
  {
    ScopeCount(open);
    ScopeCount(Outer(open));
  }

  lemma StartOpens(tok: Token, open: seq<seq<Attr>>)
    requires tok.Start?
    ensures var (data, nodeAttrs) := Opened(tok, ScopesOf(open));
      Opens(OutStart(data, nodeAttrs), tok.name, tok.attrs, open)
  {
    ScopesMore(open, tok.attrs);
    QualifiedIsCalled(tok.name, open + [tok.attrs]);
    NodeHasAttrs(tok.attrs, open + [tok.attrs]);
  }

  lemma {:induction false} StreamSays(toks: seq<Token>, open: seq<seq<Attr>>)
    ensures Says(QualifiedStream(toks, ScopesOf(open)), toks, open)
    decreases |toks|
  {
    if toks != [] {
      var rest, out := toks[1..], QualifiedStream(toks, ScopesOf(open));
      match toks[0]
      case Other => StreamSays(rest, open);
      case Text(data) =>
        StreamSays(rest, open);
        assert out[1..] == QualifiedStream(rest, ScopesOf(open));
      case End =>
        StreamSays(rest, Outer(open));
        EndOfStream(toks, open);
      case Start(name, attrs) =>
        StreamSays(rest, open + [attrs]);
        StartOpens(toks[0], open);
        ScopesMore(open, attrs);
        assert out[1..] == QualifiedStream(rest, ScopesOf(open + [attrs]));
    }
  }

  lemma EndOfStream(toks: seq<Token>, open: seq<seq<Attr>>)
    requires toks != [] && toks[0].End?
    ensures QualifiedStream(toks, ScopesOf(open)) == [OutEnd] + QualifiedStream(toks[1..], ScopesOf(Outer(open)))
  {
    if open != [] {
      ScopesLess(open);
    }
  }

  /**
   For every stream, balanced or not: the tree, written out again, says token by token what the
   repaired stream says. Every element has its name, every attribute that declares nothing has its place,
   its value and its name, and every text stands where it stood.
   */
  lemma TreeSaysStream(toks: seq<Token>)
    ensures Balanced(Repaired(toks, 0), 0)
    ensures Says(Serialized(ParseForest(toks, []).forest), Repaired(toks, 0), [])
  {
    var none: seq<seq<Attr>> := [];
    RepairedIsBalanced(toks, 0);
    RepairedParsesAlike(toks, []);
    SerializedIsStream(Repaired(toks, 0));
    StreamSays(Repaired(toks, 0), none);
    assert ScopesOf(none) == [];
  }
}
