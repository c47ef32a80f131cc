/** XML tokens to nodes. */
module XmlTree {
  // Every element and attribute is named by the prefix that its namespace was declared with (section 6.1
  // of Namespaces in XML 1.0). The decoder is not modelled: the stream is any list of tokens, balanced
  // or not.

  import opened Wrappers

  /** A decoded name: the namespace URI (or, undeclared, the literal prefix) and the local part. */
  datatype Name = Name(space: string, local: string)

  datatype Attr = Attr(name: Name, value: string)

  datatype Token = Start(name: Name, attrs: seq<Attr>) | End | Text(data: string) | Other

  datatype NodeAttr = NodeAttr(key: string, val: string)

  /** The namespaces an element declares: prefix by URI, "" for the default namespace. */
  type Decls = map<string, string>

  // ----- Names

  predicate IsDecl(a: Attr) {
    a.name.space == "xmlns" || (a.name.space == "" && a.name.local == "xmlns")
  }

  /** A later declaration of a URI on the same element replaces an earlier one. */
  function DeclsOf(attrs: seq<Attr>): Decls {
    if attrs == [] then map[] else
    var init, a := attrs[..|attrs| - 1], attrs[|attrs| - 1];
    if a.name.space == "xmlns" then DeclsOf(init)[a.value := a.name.local]
    else if IsDecl(a) then DeclsOf(init)[a.value := ""]
    else DeclsOf(init)
  }

  method NamespaceDecls(attrs: seq<Attr>) returns (decls: Decls)
    ensures decls == DeclsOf(attrs)
  {
    decls := map[];
    for i := 0 to |attrs|
      invariant decls == DeclsOf(attrs[..i])
    {
      assert attrs[..i + 1][..i] == attrs[..i];
      var a := attrs[i];
      if a.name.space == "xmlns" {
        decls := decls[a.value := a.name.local];
      } else if a.name.space == "" && a.name.local == "xmlns" {
        decls := decls[a.value := ""];
      }
    }
    assert attrs[..|attrs|] == attrs;
  }

  function Prefixed(prefix: string, local: string): string {
    if prefix == "" then local else prefix + ":" + local
  }

  /** Looks the URI up from the innermost declarations outwards. */
  function Qualified(name: Name, scopes: seq<Decls>): string {
    if name.space == "" then name.local
    else if scopes == [] then name.space + ":" + name.local
    else
      var inner := scopes[|scopes| - 1];
      if name.space in inner then Prefixed(inner[name.space], name.local)
      else Qualified(name, scopes[..|scopes| - 1])
  }

  /** `scopes[i]` is the innermost element that declares the URI. */
  predicate DeclaredAt(space: string, scopes: seq<Decls>, i: nat) {
    i < |scopes| && space in scopes[i] && forall j :: i < j < |scopes| ==> space !in scopes[j]
  }

  /** The innermost declaration of the URI decides, whatever is declared outside it or for other URIs. */
  lemma {:induction false} QualifiedByInnermost(name: Name, scopes: seq<Decls>, i: nat)
    requires name.space != "" && DeclaredAt(name.space, scopes, i)
    ensures Qualified(name, scopes) == Prefixed(scopes[i][name.space], name.local)
  {
    var init := scopes[..|scopes| - 1];
    if i < |init| {
      assert forall j :: i < j < |init| ==> init[j] == scopes[j];
      QualifiedByInnermost(name, init, i);
    }
  }

  /** An undeclared space is kept as a literal prefix. */
  lemma {:induction false} UndeclaredIsLiteral(name: Name, scopes: seq<Decls>)
    requires name.space != "" && forall i :: 0 <= i < |scopes| ==> name.space !in scopes[i]
    ensures Qualified(name, scopes) == name.space + ":" + name.local
  {
    if scopes != [] {
      UndeclaredIsLiteral(name, scopes[..|scopes| - 1]);
    }
  }

  method QualifyName(name: Name, scopes: seq<Decls>) returns (r: string)
    ensures r == Qualified(name, scopes)
  {
    if name.space == "" {
      return name.local;
    }
    var i := |scopes|;
    assert scopes[..i] == scopes;
    while i > 0
      invariant 0 <= i <= |scopes|
      invariant Qualified(name, scopes) == Qualified(name, scopes[..i])
    {
      i := i - 1;
      assert scopes[..i + 1][..i] == scopes[..i];
      if name.space in scopes[i] {
        var prefix := scopes[i][name.space];
        if prefix == "" {
          return name.local;
        }
        return prefix + ":" + name.local;
      }
    }
    r := name.space + ":" + name.local;
  }

  function NodeAttrs(attrs: seq<Attr>, scopes: seq<Decls>): seq<NodeAttr> {
    if attrs == [] then [] else
    var init, a := attrs[..|attrs| - 1], attrs[|attrs| - 1];
    NodeAttrs(init, scopes) + if IsDecl(a) then [] else [NodeAttr(Qualified(a.name, scopes), a.value)]
  }

  method ElementAttrs(attrs: seq<Attr>, scopes: seq<Decls>) returns (out: seq<NodeAttr>)
    ensures out == NodeAttrs(attrs, scopes)
  {
    out := [];
    for i := 0 to |attrs|
      invariant out == NodeAttrs(attrs[..i], scopes)
    {
      assert attrs[..i + 1][..i] == attrs[..i];
      if !IsDecl(attrs[i]) {
        var key := QualifyName(attrs[i].name, scopes);
        out := out + [NodeAttr(key, attrs[i].value)];
      }
    }
    assert attrs[..|attrs|] == attrs;
  }

  // ----- What the declarations and the attributes of an element are

  /** The prefix a declaration declares. */
  function PrefixOf(a: Attr): string {
    if a.name.space == "xmlns" then a.name.local else ""
  }

  /** The `i`-th attribute is the last declaration of a URI. */
  predicate LastDeclares(attrs: seq<Attr>, uri: string, i: nat) {
    && i < |attrs| && IsDecl(attrs[i]) && attrs[i].value == uri
    && forall j :: i < j < |attrs| && IsDecl(attrs[j]) ==> attrs[j].value != uri
  }

  /** A URI is declared when some declaration declares it, and has the prefix of the last that does. */
  lemma {:induction false} DeclaredByLast(attrs: seq<Attr>, uri: string)
    ensures uri in DeclsOf(attrs) <==> exists i: nat :: LastDeclares(attrs, uri, i)
    ensures forall i: nat :: LastDeclares(attrs, uri, i) ==>
      uri in DeclsOf(attrs) && DeclsOf(attrs)[uri] == PrefixOf(attrs[i])
  {
    if attrs != [] {
      var init, n := attrs[..|attrs| - 1], |attrs| - 1;
      DeclaredByLast(init, uri);
      if IsDecl(attrs[n]) && attrs[n].value == uri {
        assert LastDeclares(attrs, uri, n);
      } else {
        LastOfMore(init, attrs[n], uri);
        assert attrs == init + [attrs[n]];
      }
    }
  }

  lemma LastOfMore(attrs: seq<Attr>, a: Attr, uri: string)
    requires !(IsDecl(a) && a.value == uri)
    ensures forall i: nat :: LastDeclares(attrs + [a], uri, i) <==> LastDeclares(attrs, uri, i)
  {
    forall i: nat
      ensures LastDeclares(attrs + [a], uri, i) <==> LastDeclares(attrs, uri, i)
    {
      OneMoreAttr(attrs, a, uri, i);
    }
  }

  lemma OneMoreAttr(attrs: seq<Attr>, a: Attr, uri: string, i: nat)
    requires !(IsDecl(a) && a.value == uri)
    ensures LastDeclares(attrs + [a], uri, i) <==> LastDeclares(attrs, uri, i)
  {
    var all := attrs + [a];
    assert forall j :: 0 <= j < |attrs| ==> all[j] == attrs[j];
    if LastDeclares(all, uri, i) {
      assert forall j :: i < j < |attrs| && IsDecl(attrs[j]) ==> all[j].value != uri;
    }
  }

  /** How many of the first `n` attributes declare nothing. */
  function KeptBefore(attrs: seq<Attr>, n: nat): nat
    requires n <= |attrs|
  {
    if n == 0 then 0 else KeptBefore(attrs, n - 1) + if IsDecl(attrs[n - 1]) then 0 else 1
  }

  lemma {:induction false} KeptBeforeStart(attrs: seq<Attr>, more: seq<Attr>, n: nat)
    requires n <= |attrs| && attrs <= more
    ensures KeptBefore(attrs, n) == KeptBefore(more, n)
  {
    if n > 0 {
      KeptBeforeStart(attrs, more, n - 1);
    }
  }

  /** The attributes of a node are those that declare nothing, in order, under their qualified names. */
  lemma {:induction false} AttrStands(attrs: seq<Attr>, scopes: seq<Decls>, i: nat)
    requires i < |attrs|
    ensures |NodeAttrs(attrs, scopes)| == KeptBefore(attrs, |attrs|)
    ensures !IsDecl(attrs[i]) ==>
      && KeptBefore(attrs, i) < KeptBefore(attrs, |attrs|)
      && NodeAttrs(attrs, scopes)[KeptBefore(attrs, i)] == NodeAttr(Qualified(attrs[i].name, scopes), attrs[i].value)
  {
    var init := attrs[..|attrs| - 1];
    KeptBeforeStart(init, attrs, |init|);
    if init == [] {
      assert NodeAttrs(init, scopes) == [];
    } else {
      AttrStands(init, scopes, if i < |init| then i else 0);
      if i < |init| {
        KeptBeforeStart(init, attrs, i);
      }
    }
  }

  // ----- The recursive definition

  datatype Tree = Element(data: string, attrs: seq<NodeAttr>, kids: seq<Tree>) | TextNode(text: string)

  datatype Parse = Parse(forest: seq<Tree>, rest: seq<Token>)

  function Opened(tok: Token, scopes: seq<Decls>): (string, seq<NodeAttr>)
    requires tok.Start?
  {
    var inner := scopes + [DeclsOf(tok.attrs)];
    (Qualified(tok.name, inner), NodeAttrs(tok.attrs, inner))
  }

  /**
   The trees up to the end tag of the enclosing element, and the tokens after it.  Names see the
   element's own declarations and those of its ancestors, which is all the recursion passes down.
   At the top level an end tag closes nothing, and elements still open at the end are closed there.
   */
  function ParseForest(toks: seq<Token>, scopes: seq<Decls>): (p: Parse)
    ensures |p.rest| <= |toks|
    ensures scopes == [] ==> p.rest == []
    ensures toks != [] ==> |p.rest| < |toks|
    decreases |toks|
  {
    if toks == [] then Parse([], []) else
    var rest := toks[1..];
    match toks[0]
    case Text(data) =>
      var p := ParseForest(rest, scopes);
      Parse([TextNode(data)] + p.forest, p.rest)
    case Other => ParseForest(rest, scopes)
    case End => if scopes == [] then ParseForest(rest, scopes) else Parse([], rest)
    case Start(name, attrs) =>
      var (data, nodeAttrs) := Opened(toks[0], scopes);
      var inner := ParseForest(rest, scopes + [DeclsOf(attrs)]);
      var after := ParseForest(inner.rest, scopes);
      Parse([Element(data, nodeAttrs, inner.forest)] + after.forest, after.rest)
  }

  // ----- The builder

  datatype Content = Document | ElementContent(data: string, attrs: seq<NodeAttr>) | TextContent(text: string)

  /** A node of the tree under construction; nodes are referred to by their index, in order of creation. */
  datatype Node = Node(content: Content, parent: Option<nat>, kids: seq<nat>)

  /** An open element: what it will be, what it declares, and its finished children. */
  datatype Frame = Frame(content: Content, decls: Decls, done: seq<Tree>)

  /** The tree below a node that lies, with all below it, in `lo..hi`, children after their parents. */
  function TreeAt(nodes: seq<Node>, n: nat, lo: nat, hi: nat): Option<Tree>
    decreases if n < hi then hi - n else 0, 0
  {
    if !(lo <= n < hi <= |nodes|) then None else
    match nodes[n].content
    case Document => None
    case TextContent(text) => Some(TextNode(text))
    case ElementContent(data, attrs) =>
      match TreesAt(nodes, nodes[n].kids, n + 1, hi)
      case None => None
      case Some(kids) => Some(Element(data, attrs, kids))
  }

  function TreesAt(nodes: seq<Node>, ns: seq<nat>, lo: nat, hi: nat): Option<seq<Tree>>
    decreases if lo < hi then hi - lo else 0, 1, |ns|
  {
    if ns == [] then Some([]) else
    var last := ns[|ns| - 1];
    match TreesAt(nodes, ns[..|ns| - 1], lo, hi)
    case None => None
    case Some(init) =>
      if last < lo then None else
      match TreeAt(nodes, last, lo, hi)
      case None => None
      case Some(t) => Some(init + [t])
  }

  /** Two arenas that hold the same contents and children in a range. */
  ghost predicate SameRange(nodes: seq<Node>, nodes': seq<Node>, lo: nat, hi: nat) {
    hi <= |nodes| && hi <= |nodes'| &&
    forall k :: lo <= k < hi ==> nodes'[k].content == nodes[k].content && nodes'[k].kids == nodes[k].kids
  }

  /** A finished tree is not touched by growing the arena or by changes outside its range. */
  lemma {:induction false} TreeUnchanged(nodes: seq<Node>, nodes': seq<Node>, n: nat, lo: nat, hi: nat, hi': nat)
    requires TreeAt(nodes, n, lo, hi).Some? && SameRange(nodes, nodes', lo, hi) && hi <= hi' <= |nodes'|
    ensures TreeAt(nodes', n, lo, hi') == TreeAt(nodes, n, lo, hi)
    decreases if n < hi then hi - n else 0, 0
  {
    if nodes[n].content.ElementContent? {
      TreesUnchanged(nodes, nodes', nodes[n].kids, n + 1, hi, hi');
    }
  }

  lemma {:induction false} TreesUnchanged(nodes: seq<Node>, nodes': seq<Node>, ns: seq<nat>, lo: nat, hi: nat, hi': nat)
    requires TreesAt(nodes, ns, lo, hi).Some? && SameRange(nodes, nodes', lo, hi) && hi <= hi' <= |nodes'|
    ensures TreesAt(nodes', ns, lo, hi') == TreesAt(nodes, ns, lo, hi)
    decreases if lo < hi then hi - lo else 0, 1, |ns|
  {
    if ns != [] {
      TreesUnchanged(nodes, nodes', ns[..|ns| - 1], lo, hi, hi');
      TreeUnchanged(nodes, nodes', ns[|ns| - 1], lo, hi, hi');
    }
  }

  lemma TreesWithLast(nodes: seq<Node>, all: seq<nat>, ns: seq<nat>, last: nat, lo: nat, hi: nat, trees: seq<Tree>,
                      t: Tree)
    requires all == ns + [last] && lo <= last
    requires TreesAt(nodes, ns, lo, hi) == Some(trees) && TreeAt(nodes, last, lo, hi) == Some(t)
    ensures TreesAt(nodes, all, lo, hi) == Some(trees + [t])
  {
    assert all[..|all| - 1] == ns;
  }

  /** What the finished tree looks like when the open frames read the remaining tokens. */
  function Resume(frames: seq<Frame>, toks: seq<Token>): seq<Tree>
    requires frames != []
    decreases |frames|
  {
    var d := |frames| - 1;
    var p := ParseForest(toks, Scopes(frames));
    var forest := frames[d].done + p.forest;
    if d == 0 then forest else Resume(Closed(frames, forest), p.rest)
  }

  /** The declarations of the open elements; the document itself declares nothing. */
  function Scopes(frames: seq<Frame>): (scopes: seq<Decls>)
    requires frames != []
    ensures |scopes| == |frames| - 1
  {
    seq(|frames| - 1, i requires 0 <= i < |frames| - 1 => frames[i + 1].decls)
  }

  function Add(frames: seq<Frame>, t: Tree): seq<Frame>
    requires frames != []
  {
    var d := |frames| - 1;
    frames[d := frames[d].(done := frames[d].done + [t])]
  }

  /** Closing the innermost element gives its parent one more child. */
  function Closed(frames: seq<Frame>, kids: seq<Tree>): seq<Frame>
    requires |frames| > 1
  {
    var d := |frames| - 1;
    Add(frames[..d], FrameTree(frames[d], kids))
  }

  function FrameTree(f: Frame, kids: seq<Tree>): Tree {
    if f.content.ElementContent? then Element(f.content.data, f.content.attrs, kids) else Element("", [], kids)
  }

  /** One token's effect on the open frames. */
  function Advance(frames: seq<Frame>, tok: Token): (after: seq<Frame>)
    requires frames != []
    ensures after != []
  {
    match tok
    case Text(data) => Add(frames, TextNode(data))
    case Other => frames
    case End => if |frames| == 1 then frames else Closed(frames, frames[|frames| - 1].done)
    case Start(name, attrs) =>
      var (data, nodeAttrs) := Opened(tok, Scopes(frames));
      frames + [Frame(ElementContent(data, nodeAttrs), DeclsOf(attrs), [])]
  }

  /** The innermost element closed over its children, and the rest read. */
  function Finish(frames: seq<Frame>, forest: seq<Tree>, rest: seq<Token>): seq<Tree>
    requires frames != []
  {
    if |frames| == 1 then forest else Resume(Closed(frames, forest), rest)
  }

  lemma ResumeIsFinish(frames: seq<Frame>, toks: seq<Token>)
    requires frames != []
    ensures var p := ParseForest(toks, Scopes(frames));
      Resume(frames, toks) == Finish(frames, frames[|frames| - 1].done + p.forest, p.rest)
  {
  }

  lemma AddFinishesAlike(frames: seq<Frame>, t: Tree, forest: seq<Tree>, rest: seq<Token>)
    requires frames != []
    ensures Finish(Add(frames, t), forest, rest) == Finish(frames, forest, rest)
  {
    var d := |frames| - 1;
    assert Add(frames, t)[..d] == frames[..d];
  }

  lemma AddKeepsScopes(frames: seq<Frame>, t: Tree)
    requires frames != []
    ensures Scopes(Add(frames, t)) == Scopes(frames)
  {
  }

  /** A tree finished in front of the rest. */
  lemma ResumeAfterTree(frames: seq<Frame>, t: Tree, toks: seq<Token>, rest: seq<Token>)
    requires frames != []
    requires var p := ParseForest(rest, Scopes(frames));
      ParseForest(toks, Scopes(frames)) == Parse([t] + p.forest, p.rest)
    ensures Resume(Add(frames, t), rest) == Resume(frames, toks)
  {
    var done, p := frames[|frames| - 1].done, ParseForest(rest, Scopes(frames));
    ResumeIsFinish(Add(frames, t), rest);
    ResumeIsFinish(frames, toks);
    AddKeepsScopes(frames, t);
    assert done + ([t] + p.forest) == (done + [t]) + p.forest;
    AddFinishesAlike(frames, t, done + [t] + p.forest, p.rest);
  }

  lemma ResumeAfterEnd(frames: seq<Frame>, toks: seq<Token>)
    requires frames != [] && toks != [] && toks[0].End?
    ensures Resume(Advance(frames, toks[0]), toks[1..]) == Resume(frames, toks)
  {
    var d := |frames| - 1;
    assert frames[d].done + [] == frames[d].done;
  }

  lemma ResumeAfterStart(frames: seq<Frame>, toks: seq<Token>)
    requires frames != [] && toks != [] && toks[0].Start?
    ensures Resume(Advance(frames, toks[0]), toks[1..]) == Resume(frames, toks)
  {
    var d, tok, scopes := |frames| - 1, toks[0], Scopes(frames);
    var deeper := Advance(frames, tok);
    assert Scopes(deeper) == scopes + [DeclsOf(tok.attrs)];
    var inner := ParseForest(toks[1..], Scopes(deeper));
    var (data, nodeAttrs) := Opened(tok, scopes);
    var t := Element(data, nodeAttrs, inner.forest);
    assert [] + inner.forest == inner.forest && deeper[..d + 1] == frames;
    assert Closed(deeper, inner.forest) == Add(frames, t);
    ResumeAfterTree(frames, t, toks, inner.rest);
  }

  /** Taking one token and then the rest is taking them all. */
  lemma ResumeAfterToken(frames: seq<Frame>, toks: seq<Token>)
    requires frames != [] && toks != []
    ensures Resume(Advance(frames, toks[0]), toks[1..]) == Resume(frames, toks)
  {
    match toks[0]
    case Text(data) => ResumeAfterTree(frames, TextNode(data), toks, toks[1..]);
    case Other =>
    case End => ResumeAfterEnd(frames, toks);
    case Start(name, attrs) => ResumeAfterStart(frames, toks);
  }

  // ----- The arena holds the open frames

  /** Where the finished children of open element `k` end: at the next open element, or at the last node. */
  function Limit(nodes: seq<Node>, path: seq<nat>, k: nat): nat
    requires k < |path|
  {
    if k == |path| - 1 then |nodes| else path[k + 1]
  }

  /** The finished children of open element `k`: all but the next open element. */
  function DoneKids(nodes: seq<Node>, path: seq<nat>, k: nat): seq<nat>
    requires k < |path| && path[k] < |nodes|
  {
    var kids := nodes[path[k]].kids;
    if k == |path| - 1 || kids == [] then kids else kids[..|kids| - 1]
  }

  /** Open element `k` is where the frames say, and hangs below the one before it. */
  ghost predicate NodeOk(nodes: seq<Node>, path: seq<nat>, frames: seq<Frame>, k: nat)
    requires k < |path| == |frames|
  {
    && path[k] < Limit(nodes, path, k) <= |nodes|
    && nodes[path[k]].content == frames[k].content
    && (if k == 0 then frames[k].content.Document? else frames[k].content.ElementContent?)
    && nodes[path[k]].parent == (if k == 0 then None else Some(path[k - 1]))
    && (k < |path| - 1 ==> nodes[path[k]].kids == DoneKids(nodes, path, k) + [path[k + 1]])
  }

  ghost predicate DoneOk(nodes: seq<Node>, path: seq<nat>, frames: seq<Frame>, k: nat)
    requires k < |path| == |frames| && path[k] < |nodes|
  {
    TreesAt(nodes, DoneKids(nodes, path, k), path[k] + 1, Limit(nodes, path, k)) == Some(frames[k].done)
  }

  ghost predicate LevelOk(nodes: seq<Node>, path: seq<nat>, frames: seq<Frame>, k: nat)
    requires k < |path| == |frames|
  {
    NodeOk(nodes, path, frames, k) && DoneOk(nodes, path, frames, k)
  }

  /** `path` lists the open elements' nodes, from the document to the innermost one. */
  ghost predicate Represents(nodes: seq<Node>, path: seq<nat>, frames: seq<Frame>) {
    && |path| == |frames| >= 1 && path[0] == 0
    && (forall k :: 0 <= k < |path| ==> path[k] < |nodes|)
    && forall k :: 0 <= k < |path| ==> LevelOk(nodes, path, frames, k)
  }

  /** Appends a node without children to the children of `cur`. */
  function Appended(nodes: seq<Node>, cur: nat, content: Content): seq<Node>
    requires cur < |nodes|
  {
    nodes[cur := nodes[cur].(kids := nodes[cur].kids + [|nodes|])] + [Node(content, Some(cur), [])]
  }

  lemma {:induction false} PathAscends(nodes: seq<Node>, path: seq<nat>, frames: seq<Frame>, k: nat)
    requires Represents(nodes, path, frames) && k < |path|
    ensures path[k] <= path[|path| - 1] && (k < |path| - 1 ==> path[k] < path[|path| - 1])
    decreases |path| - k
  {
    assert LevelOk(nodes, path, frames, k);
    if k < |path| - 1 {
      PathAscends(nodes, path, frames, k + 1);
    }
  }

  /** A level above the innermost one survives when only its own tail of the arena changes. */
  lemma OuterLevelKept(nodes: seq<Node>, path: seq<nat>, frames: seq<Frame>, content: Content, k: nat)
    requires Represents(nodes, path, frames) && k < |path| - 1
    ensures LevelOk(Appended(nodes, path[|path| - 1], content), path, frames, k)
  {
    var nodes' := Appended(nodes, path[|path| - 1], content);
    assert LevelOk(nodes, path, frames, k);
    PathAscends(nodes, path, frames, k);
    PathAscends(nodes, path, frames, k + 1);
    assert SameRange(nodes, nodes', path[k] + 1, path[k + 1]);
    TreesUnchanged(nodes, nodes', DoneKids(nodes, path, k), path[k] + 1, path[k + 1], path[k + 1]);
  }

  /** The same level, seen along a path and frames that share a prefix with the old ones. */
  lemma LevelMoves(nodes: seq<Node>, path: seq<nat>, frames: seq<Frame>, path': seq<nat>, frames': seq<Frame>, k: nat)
    requires k < |path| - 1 && |path| == |frames| && |path'| == |frames'| && k < |path'| - 1
    requires path'[..k + 2] == path[..k + 2] && frames'[k] == frames[k]
    requires LevelOk(nodes, path, frames, k)
    ensures LevelOk(nodes, path', frames', k)
  {
    assert path[k] == path[..k + 2][k] && path[k + 1] == path[..k + 2][k + 1];
    assert k > 0 ==> path[k - 1] == path[..k + 2][k - 1];
    assert k > 0 ==> path'[k - 1] == path'[..k + 2][k - 1];
    assert path'[k] == path'[..k + 2][k] && path'[k + 1] == path'[..k + 2][k + 1];
  }

  lemma InnerDoneKept(nodes: seq<Node>, path: seq<nat>, frames: seq<Frame>, content: Content, hi: nat)
    requires Represents(nodes, path, frames) && |nodes| <= hi <= |nodes| + 1
    ensures var d := |path| - 1;
      TreesAt(Appended(nodes, path[d], content), nodes[path[d]].kids, path[d] + 1, hi) == Some(frames[d].done)
  {
    var d := |path| - 1;
    assert LevelOk(nodes, path, frames, d);
    var nodes' := Appended(nodes, path[d], content);
    assert SameRange(nodes, nodes', path[d] + 1, |nodes|);
    TreesUnchanged(nodes, nodes', nodes[path[d]].kids, path[d] + 1, |nodes|, hi);
  }

  lemma TextInnerLevel(nodes: seq<Node>, path: seq<nat>, frames: seq<Frame>, data: string)
    requires Represents(nodes, path, frames)
    ensures LevelOk(Appended(nodes, path[|path| - 1], TextContent(data)), path, Add(frames, TextNode(data)), |path| - 1)
  {
    var d := |path| - 1;
    assert LevelOk(nodes, path, frames, d);
    var nodes' := Appended(nodes, path[d], TextContent(data));
    InnerDoneKept(nodes, path, frames, TextContent(data), |nodes'|);
    TreesWithLast(nodes', nodes'[path[d]].kids, nodes[path[d]].kids, |nodes|, path[d] + 1, |nodes'|, frames[d].done,
                  TextNode(data));
  }

  lemma TextKeepsRepresents(nodes: seq<Node>, path: seq<nat>, frames: seq<Frame>, data: string)
    requires Represents(nodes, path, frames)
    ensures Represents(Appended(nodes, path[|path| - 1], TextContent(data)), path, Add(frames, TextNode(data)))
  {
    var nodes' := Appended(nodes, path[|path| - 1], TextContent(data));
    var frames' := Add(frames, TextNode(data));
    forall k | 0 <= k < |path| ensures LevelOk(nodes', path, frames', k) {
      if k == |path| - 1 {
        TextInnerLevel(nodes, path, frames, data);
      } else {
        OuterLevelKept(nodes, path, frames, TextContent(data), k);
        LevelMoves(nodes', path, frames, path, frames', k);
      }
    }
  }

  /** The new element is open, and its former innermost ancestor keeps its finished children. */
  lemma StartInnerLevels(nodes: seq<Node>, path: seq<nat>, frames: seq<Frame>, f: Frame)
    requires Represents(nodes, path, frames) && f.content.ElementContent? && f.done == []
    ensures var d := |path| - 1;
      var nodes', path', frames' := Appended(nodes, path[d], f.content), path + [|nodes|], frames + [f];
      LevelOk(nodes', path', frames', d) && LevelOk(nodes', path', frames', d + 1)
  {
    var d := |path| - 1;
    assert LevelOk(nodes, path, frames, d);
    var nodes' := Appended(nodes, path[d], f.content);
    var path', frames' := path + [|nodes|], frames + [f];
    InnerDoneKept(nodes, path, frames, f.content, |nodes|);
    var done := nodes[path[d]].kids;
    assert nodes'[path'[d]].kids == done + [|nodes|] && DoneKids(nodes', path', d) == done;
    assert DoneKids(nodes', path', d + 1) == [];
  }

  lemma StartOuterLevel(nodes: seq<Node>, path: seq<nat>, frames: seq<Frame>, f: Frame, k: nat)
    requires Represents(nodes, path, frames) && k < |path| - 1
    ensures LevelOk(Appended(nodes, path[|path| - 1], f.content), path + [|nodes|], frames + [f], k)
  {
    OuterLevelKept(nodes, path, frames, f.content, k);
    LevelMoves(Appended(nodes, path[|path| - 1], f.content), path, frames, path + [|nodes|], frames + [f], k);
  }

  /** The outer levels, and the two innermost ones. */
  lemma AllLevels(nodes: seq<Node>, path: seq<nat>, frames: seq<Frame>)
    requires |path| == |frames| >= 2 && path[0] == 0 && forall k :: 0 <= k < |path| ==> path[k] < |nodes|
    requires forall k :: 0 <= k < |path| - 2 ==> LevelOk(nodes, path, frames, k)
    requires LevelOk(nodes, path, frames, |path| - 2) && LevelOk(nodes, path, frames, |path| - 1)
    ensures Represents(nodes, path, frames)
  {
  }

  lemma StartKeepsRepresents(nodes: seq<Node>, path: seq<nat>, frames: seq<Frame>, f: Frame)
    requires Represents(nodes, path, frames) && f.content.ElementContent? && f.done == []
    ensures Represents(Appended(nodes, path[|path| - 1], f.content), path + [|nodes|], frames + [f])
  {
    var nodes', path', frames' := Appended(nodes, path[|path| - 1], f.content), path + [|nodes|], frames + [f];
    StartInnerLevels(nodes, path, frames, f);
    forall k | 0 <= k < |path'| - 2
      ensures LevelOk(nodes', path', frames', k)
    {
      StartOuterLevel(nodes, path, frames, f, k);
    }
    AllLevels(nodes', path', frames');
  }

  lemma OpenElementTree(nodes: seq<Node>, path: seq<nat>, frames: seq<Frame>)
    requires Represents(nodes, path, frames) && |path| > 1
    ensures var d := |path| - 1;
      && path[d - 1] < path[d]
      && TreeAt(nodes, path[d], path[d - 1] + 1, |nodes|) == Some(FrameTree(frames[d], frames[d].done))
  {
    assert LevelOk(nodes, path, frames, |path| - 1);
    assert LevelOk(nodes, path, frames, |path| - 2);
  }

  lemma ParentDone(nodes: seq<Node>, path: seq<nat>, frames: seq<Frame>)
    requires Represents(nodes, path, frames) && |path| > 1
    ensures var d := |path| - 1; var done := DoneKids(nodes, path, d - 1);
      && nodes[path[d - 1]].kids == done + [path[d]]
      && TreesAt(nodes, done, path[d - 1] + 1, |nodes|) == Some(frames[d - 1].done)
  {
    var d := |path| - 1;
    assert LevelOk(nodes, path, frames, d - 1);
    TreesUnchanged(nodes, nodes, DoneKids(nodes, path, d - 1), path[d - 1] + 1, path[d], |nodes|);
  }

  /** The innermost open element, once closed, is a finished child of its parent. */
  lemma ClosedIsDone(nodes: seq<Node>, path: seq<nat>, frames: seq<Frame>)
    requires Represents(nodes, path, frames) && |path| > 1
    ensures var d := |path| - 1;
      TreesAt(nodes, nodes[path[d - 1]].kids, path[d - 1] + 1, |nodes|)
      == Some(frames[d - 1].done + [FrameTree(frames[d], frames[d].done)])
  {
    var d := |path| - 1;
    var done, t := DoneKids(nodes, path, d - 1), FrameTree(frames[d], frames[d].done);
    OpenElementTree(nodes, path, frames);
    ParentDone(nodes, path, frames);
    TreesWithLast(nodes, nodes[path[d - 1]].kids, done, path[d], path[d - 1] + 1, |nodes|, frames[d - 1].done, t);
  }

  lemma ClosedInnerLevel(nodes: seq<Node>, path: seq<nat>, frames: seq<Frame>)
    requires Represents(nodes, path, frames) && |path| > 1
    ensures LevelOk(nodes, path[..|path| - 1], Closed(frames, frames[|frames| - 1].done), |path| - 2)
  {
    assert LevelOk(nodes, path, frames, |path| - 2);
    ClosedIsDone(nodes, path, frames);
  }

  /** Closing the innermost element changes no node. */
  lemma EndKeepsRepresents(nodes: seq<Node>, path: seq<nat>, frames: seq<Frame>)
    requires Represents(nodes, path, frames) && |path| > 1
    ensures Represents(nodes, path[..|path| - 1], Closed(frames, frames[|frames| - 1].done))
  {
    var d := |path| - 1;
    var path', frames' := path[..d], Closed(frames, frames[d].done);
    ClosedInnerLevel(nodes, path, frames);
    forall k | 0 <= k < d - 1 ensures LevelOk(nodes, path', frames', k) {
      assert path'[..k + 2] == path[..k + 2];
      LevelMoves(nodes, path, frames, path', frames', k);
    }
  }

  /** The document's children, with the elements still open closed where they are. */
  lemma {:induction false} RepresentedForest(nodes: seq<Node>, path: seq<nat>, frames: seq<Frame>)
    requires Represents(nodes, path, frames)
    ensures |nodes| > 0 && TreesAt(nodes, nodes[0].kids, 1, |nodes|) == Some(Resume(frames, []))
    decreases |path|
  {
    var d := |path| - 1;
    assert LevelOk(nodes, path, frames, d);
    assert frames[d].done + [] == frames[d].done;
    if d > 0 {
      EndKeepsRepresents(nodes, path, frames);
      RepresentedForest(nodes, path[..d], Closed(frames, frames[d].done));
    }
  }

  class Builder {
    var nodes: seq<Node>
    var cur: nat
    var scopes: seq<Decls>
    ghost var path: seq<nat>
    ghost var frames: seq<Frame>

    /** The scope stack is as high as the current node is deep. */
    ghost predicate Valid()
      reads this
    {
      && Represents(nodes, path, frames)
      && cur == path[|path| - 1]
      && scopes == Scopes(frames)
    }

    constructor ()
      ensures Valid() && frames == [Frame(Document, map[], [])]
    {
      nodes := [Node(Document, None, [])];
      cur := 0;
      scopes := [];
      path := [0];
      frames := [Frame(Document, map[], [])];
    }

    method StartElement(name: Name, attrs: seq<Attr>)
      requires Valid()
      modifies this
      ensures Valid() && frames == Advance(old(frames), Start(name, attrs))
    {
      var decls := NamespaceDecls(attrs);
      scopes := scopes + [decls];
      var data := QualifyName(name, scopes);
      var nodeAttrs := ElementAttrs(attrs, scopes);
      ghost var f := Frame(ElementContent(data, nodeAttrs), decls, []);
      StartKeepsRepresents(nodes, path, frames, f);
      assert LevelOk(nodes, path, frames, |path| - 1);
      var n := |nodes|;
      nodes := nodes[cur := nodes[cur].(kids := nodes[cur].kids + [n])]
             + [Node(ElementContent(data, nodeAttrs), Some(cur), [])];
      cur := n;
      path := path + [n];
      frames := frames + [f];
      assert scopes == Scopes(frames);
    }

    method EndElement()
      requires Valid()
      modifies this
      ensures Valid() && frames == Advance(old(frames), End)
    {
      assert LevelOk(nodes, path, frames, |path| - 1);
      if |scopes| > 0 {
        scopes := scopes[..|scopes| - 1];
      }
      if nodes[cur].parent.Some? {
        EndKeepsRepresents(nodes, path, frames);
        cur := nodes[cur].parent.value;
        frames := Closed(frames, frames[|frames| - 1].done);
        path := path[..|path| - 1];
      }
    }

    method CharData(data: string)
      requires Valid()
      modifies this
      ensures Valid() && frames == Advance(old(frames), Text(data))
    {
      TextKeepsRepresents(nodes, path, frames, data);
      assert LevelOk(nodes, path, frames, |path| - 1);
      nodes := nodes[cur := nodes[cur].(kids := nodes[cur].kids + [|nodes|])]
             + [Node(TextContent(data), Some(cur), [])];
      frames := Add(frames, TextNode(data));
      assert scopes == Scopes(frames);
    }
  }

  lemma ResumeDocument(toks: seq<Token>)
    ensures Resume([Frame(Document, map[], [])], toks) == ParseForest(toks, []).forest
  {
    var frames := [Frame(Document, map[], [])];
    assert Scopes(frames) == [];
    assert [] + ParseForest(toks, []).forest == ParseForest(toks, []).forest;
  }

  /** Builds the tree of a whole stream; `malformed` says that the decoder stops at an error after it. */
  method XmlToNode(toks: seq<Token>, malformed: bool) returns (r: Option<seq<Node>>)
    ensures r.None? <==> malformed
    ensures r.Some? ==> |r.value| > 0
    ensures r.Some? ==> TreesAt(r.value, r.value[0].kids, 1, |r.value|) == Some(ParseForest(toks, []).forest)
  {
    var b := new Builder();
    ghost var want := ParseForest(toks, []).forest;
    ResumeDocument(toks);
    assert toks[0..] == toks;
    for i := 0 to |toks|
      invariant b.Valid() && fresh(b)
      invariant Resume(b.frames, toks[i..]) == want
    {
      ResumeAfterToken(b.frames, toks[i..]);
      assert toks[i..][1..] == toks[i + 1..];
      match toks[i]
      case Start(name, attrs) => b.StartElement(name, attrs);
      case End => b.EndElement();
      case Text(data) => b.CharData(data);
      case Other =>
    }
    if malformed {
      return None;
    }
    assert toks[|toks|..] == [];
    RepresentedForest(b.nodes, b.path, b.frames);
    r := Some(b.nodes);
  }

  // ----- Re-serializing

  /** Every end tag closes an open element and all are closed at the end, `depth` being open at the start. */
  predicate Balanced(toks: seq<Token>, depth: nat) {
    if toks == [] then depth == 0 else
    match toks[0]
    case Start(_, _) => Balanced(toks[1..], depth + 1)
    case End => depth > 0 && Balanced(toks[1..], depth - 1)
    case _ => Balanced(toks[1..], depth)
  }

  datatype OutToken = OutStart(data: string, attrs: seq<NodeAttr>) | OutEnd | OutText(text: string)

  function Serialized(forest: seq<Tree>): seq<OutToken> {
    if forest == [] then [] else
    (match forest[0]
     case TextNode(text) => [OutText(text)]
     case Element(data, attrs, kids) => [OutStart(data, attrs)] + Serialized(kids) + [OutEnd])
    + Serialized(forest[1..])
  }

  /** The stream itself, read once left to right with a stack of declarations: element and text tokens, qualified. */
  function QualifiedStream(toks: seq<Token>, scopes: seq<Decls>): seq<OutToken> {
    if toks == [] then [] else
    match toks[0]
    case Text(data) => [OutText(data)] + QualifiedStream(toks[1..], scopes)
    case Other => QualifiedStream(toks[1..], scopes)
    case End => [OutEnd] + QualifiedStream(toks[1..], if scopes == [] then [] else scopes[..|scopes| - 1])
    case Start(_, attrs) =>
      var (data, nodeAttrs) := Opened(toks[0], scopes);
      [OutStart(data, nodeAttrs)] + QualifiedStream(toks[1..], scopes + [DeclsOf(attrs)])
  }

  /** For a balanced stream nothing is lost, added or moved: serializing the tree gives the stream back. */
  lemma SerializedIsStream(toks: seq<Token>)
    requires Balanced(toks, 0)
    ensures Serialized(ParseForest(toks, []).forest) == QualifiedStream(toks, [])
  {
    SerializedForest(toks, []);
  }

  /** What the stream says of the trees read from it, whatever is still open. */
  ghost predicate StreamOk(toks: seq<Token>, scopes: seq<Decls>) {
    var p := ParseForest(toks, scopes);
    if scopes == [] then QualifiedStream(toks, scopes) == Serialized(p.forest)
    else
      && Balanced(p.rest, |scopes| - 1)
      && QualifiedStream(toks, scopes)
         == Serialized(p.forest) + ([OutEnd] + QualifiedStream(p.rest, scopes[..|scopes| - 1]))
  }

  lemma {:induction false} SerializedForest(toks: seq<Token>, scopes: seq<Decls>)
    requires Balanced(toks, |scopes|)
    ensures StreamOk(toks, scopes)
    decreases |toks|
  {
    if toks != [] {
      var rest := toks[1..];
      match toks[0]
      case Text(data) =>
        SerializedForest(rest, scopes);
        SerializedText(data, ParseForest(rest, scopes).forest);
      case Other => SerializedForest(rest, scopes);
      case End =>
      case Start(name, attrs) =>
        var deeper := scopes + [DeclsOf(attrs)];
        SerializedForest(rest, deeper);
        assert deeper[..|scopes|] == scopes;
        SerializedForest(ParseForest(rest, deeper).rest, scopes);
        StartStreamOk(toks, scopes);
    }
  }

  lemma SerializedText(data: string, after: seq<Tree>)
    ensures Serialized([TextNode(data)] + after) == [OutText(data)] + Serialized(after)
  {
    assert ([TextNode(data)] + after)[1..] == after;
  }

  lemma StartStreamOk(toks: seq<Token>, scopes: seq<Decls>)
    requires toks != [] && toks[0].Start?
    requires StreamOk(toks[1..], scopes + [DeclsOf(toks[0].attrs)])
    requires StreamOk(ParseForest(toks[1..], scopes + [DeclsOf(toks[0].attrs)]).rest, scopes)
    ensures StreamOk(toks, scopes)
  {
    var deeper := scopes + [DeclsOf(toks[0].attrs)];
    assert deeper[..|scopes|] == scopes;
    var inner := ParseForest(toks[1..], deeper);
    var (data, nodeAttrs) := Opened(toks[0], scopes);
    var after := ParseForest(inner.rest, scopes);
    SerializedElement(data, nodeAttrs, inner.forest, after.forest);
    if scopes != [] {
      var tail := [OutEnd] + QualifiedStream(after.rest, scopes[..|scopes| - 1]);
      RegroupOut([OutStart(data, nodeAttrs)], Serialized(inner.forest) + [OutEnd], Serialized(after.forest), tail);
      RegroupEnd(Serialized(inner.forest), Serialized(after.forest) + tail);
    } else {
      RegroupEnd(Serialized(inner.forest), Serialized(after.forest));
    }
  }

  lemma RegroupOut(a: seq<OutToken>, b: seq<OutToken>, c: seq<OutToken>, d: seq<OutToken>)
    ensures a + (b + c) + d == a + (b + (c + d))
  {
  }

  lemma RegroupEnd(a: seq<OutToken>, b: seq<OutToken>)
    ensures a + ([OutEnd] + b) == a + [OutEnd] + b
  {
  }

  lemma {:induction false} SerializedElement(data: string, attrs: seq<NodeAttr>, kids: seq<Tree>, after: seq<Tree>)
    ensures Serialized([Element(data, attrs, kids)] + after)
         == [OutStart(data, attrs)] + (Serialized(kids) + [OutEnd] + Serialized(after))
  {
    assert ([Element(data, attrs, kids)] + after)[1..] == after;
  }

  // ----- Siblings do not matter

  /**
   Whatever balanced siblings come first, the trees after them are the ones their tokens make
   alone: no declaration made inside a sibling is seen.
   */
  lemma {:induction false} SiblingsDoNotLeak(earlier: seq<Token>, later: seq<Token>, scopes: seq<Decls>)
    requires Balanced(earlier, 0)
    ensures ParseForest(earlier + later, scopes)
         == Parse(ParseForest(earlier, scopes).forest + ParseForest(later, scopes).forest,
                  ParseForest(later, scopes).rest)
  {
    ParseAppend(earlier, later, scopes, 0);
  }

  lemma {:induction false} ParseAppend(a: seq<Token>, b: seq<Token>, scopes: seq<Decls>, depth: nat)
    requires Balanced(a, depth) && (depth > 0 ==> scopes != [])
    ensures var p, q, whole := ParseForest(a, scopes), ParseForest(b, scopes), ParseForest(a + b, scopes);
      && (depth == 0 ==> whole == Parse(p.forest + q.forest, q.rest))
      && (depth > 0 ==> Balanced(p.rest, depth - 1) && whole == Parse(p.forest, p.rest + b))
    decreases |a|
  {
    if a == [] {
      assert a + b == b;
    } else {
      var rest := a[1..];
      assert (a + b)[0] == a[0] && (a + b)[1..] == rest + b;
      match a[0]
      case Text(_) => ParseAppend(rest, b, scopes, depth);
      case Other => ParseAppend(rest, b, scopes, depth);
      case End =>
      case Start(name, attrs) =>
        var deeper := scopes + [DeclsOf(attrs)];
        ParseAppend(rest, b, deeper, depth + 1);
        ParseAppend(ParseForest(rest, deeper).rest, b, scopes, depth);
    }
  }

  // ----- Streams that are not balanced

  function Ends(n: nat): seq<Token> {
    if n == 0 then [] else [End] + Ends(n - 1)
  }

  /** A stream without the end tags that close nothing, and with those that are missing at its end. */
  function Repaired(toks: seq<Token>, depth: nat): seq<Token> {
    if toks == [] then Ends(depth) else
    match toks[0]
    case Start(_, _) => [toks[0]] + Repaired(toks[1..], depth + 1)
    case End => if depth == 0 then Repaired(toks[1..], 0) else [End] + Repaired(toks[1..], depth - 1)
    case _ => [toks[0]] + Repaired(toks[1..], depth)
  }

  lemma {:induction false} EndsBalance(n: nat)
    ensures Balanced(Ends(n), n)
  {
    if n > 0 {
      EndsBalance(n - 1);
      assert Ends(n)[1..] == Ends(n - 1);
    }
  }

  lemma {:induction false} RepairedIsBalanced(toks: seq<Token>, depth: nat)
    ensures Balanced(Repaired(toks, depth), depth)
  {
    if toks == [] {
      EndsBalance(depth);
    } else {
      var rest := toks[1..];
      match toks[0]
      case Start(_, _) =>
        RepairedIsBalanced(rest, depth + 1);
        assert Repaired(toks, depth)[1..] == Repaired(rest, depth + 1);
      case End =>
        RepairedIsBalanced(rest, if depth == 0 then 0 else depth - 1);
        assert depth > 0 ==> Repaired(toks, depth)[1..] == Repaired(rest, depth - 1);
      case _ =>
        RepairedIsBalanced(rest, depth);
        assert Repaired(toks, depth)[1..] == Repaired(rest, depth);
    }
  }

  /** A balanced stream needs no repair. */
  lemma {:induction false} RepairedLeaves(toks: seq<Token>, depth: nat)
    requires Balanced(toks, depth)
    ensures Repaired(toks, depth) == toks
  {
    if toks != [] {
      assert toks == [toks[0]] + toks[1..];
      RepairedLeaves(toks[1..], match toks[0] case Start(_, _) => depth + 1 case End => depth - 1 case _ => depth);
    }
  }

  /** What is parsed from a stream is parsed from the repaired one, and what is left is left repaired. */
  ghost predicate RepairsOk(toks: seq<Token>, scopes: seq<Decls>) {
    var p, q := ParseForest(toks, scopes), ParseForest(Repaired(toks, |scopes|), scopes);
    q.forest == p.forest && (scopes != [] ==> q.rest == Repaired(p.rest, |scopes| - 1))
  }

  lemma {:induction false} RepairedParsesAlike(toks: seq<Token>, scopes: seq<Decls>)
    ensures RepairsOk(toks, scopes)
    decreases |toks|
  {
    var fixed := Repaired(toks, |scopes|);
    if toks == [] {
      EndsParse(scopes);
    } else {
      var rest := toks[1..];
      match toks[0]
      case Start(name, attrs) =>
        var deeper := scopes + [DeclsOf(attrs)];
        RepairedParsesAlike(rest, deeper);
        RepairedParsesAlike(ParseForest(rest, deeper).rest, scopes);
        assert fixed[0] == toks[0] && fixed[1..] == Repaired(rest, |scopes| + 1);
      case End =>
        if scopes == [] {
          RepairedParsesAlike(rest, scopes);
        } else {
          assert fixed[0] == End && fixed[1..] == Repaired(rest, |scopes| - 1);
        }
      case Text(_) =>
        RepairedParsesAlike(rest, scopes);
        assert fixed[0] == toks[0] && fixed[1..] == Repaired(rest, |scopes|);
      case Other =>
        RepairedParsesAlike(rest, scopes);
        assert fixed[0] == toks[0] && fixed[1..] == Repaired(rest, |scopes|);
    }
  }

  lemma EndsParse(scopes: seq<Decls>)
    ensures RepairsOk([], scopes)
  {
    if scopes != [] {
      assert Ends(|scopes|)[0] == End && Ends(|scopes|)[1..] == Ends(|scopes| - 1);
    }
  }
}
