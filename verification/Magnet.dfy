/** Magnet links and info hashes, each from the other. */
module Magnet {
  import opened Wrappers
  import opened Lists
  import opened Utf8
  import opened FormEncoding

  const HASH: Byte := 35
  const COLON: Byte := 58
  const SEMICOLON: Byte := 59
  const QUERY_MARK: Byte := 63

  /** The bytes of a text of ASCII characters. */
  function Ascii(s: string): (b: Bytes)
    ensures |b| == |s|
  {
    seq(|s|, i requires 0 <= i < |s| => (s[i] as int % 256) as Byte)
  }

  const PUBLIC_TRACKERS: seq<string> := [
    "udp://tracker.opentrackr.org:1337/announce",
    "udp://open.demonii.com:1337/announce",
    "udp://open.stealth.si:80/announce",
    "udp://tracker.torrent.eu.org:451/announce",
    "udp://vito-tracker.space:6969/announce",
    "udp://vito-tracker.duckdns.org:6969/announce",
    "udp://tracker.theoks.net:6969/announce",
    "udp://tracker.srv00.com:6969/announce",
    "udp://tracker.qu.ax:6969/announce",
    "udp://tracker.corpscorp.online:80/announce"
  ]

  // ----- Writing a magnet

  /** What follows the hash: the title, then the trackers. */
  function MagnetPairs(title: Bytes, trackers: seq<string>): (pairs: seq<Pair>)
    ensures pairs != []
  {
    if trackers == [] then [Pair(Ascii("dn"), title)]
    else MagnetPairs(title, trackers[..|trackers| - 1]) + [Pair(Ascii("tr"), Ascii(trackers[|trackers| - 1]))]
  }

  /** The query of a magnet: the hash as it is, then the form encoding of the rest. */
  function MagnetQuery(infoHash: Bytes, tail: Bytes): Bytes {
    Ascii("xt=urn:btih:") + infoHash + [AMPERSAND] + tail
  }

  function MagnetText(infoHash: Bytes, title: Bytes, trackers: seq<string>): Bytes {
    Ascii("magnet:") + [QUERY_MARK] + MagnetQuery(infoHash, Encoded(MagnetPairs(title, trackers)))
  }

  function PublicMagnet(infoHash: Bytes, title: Bytes): Bytes {
    if Blank(infoHash) || Blank(title) then [] else MagnetText(infoHash, title, PUBLIC_TRACKERS)
  }

  lemma {:induction false} EscapeUnreserved(s: Bytes)
    requires forall i :: 0 <= i < |s| ==> IsUnreserved(s[i])
    ensures Escape(s) == s
  {
    if s != [] {
      EscapeUnreserved(s[1..]);
      assert s == [s[0]] + s[1..];
    }
  }

  lemma TitlePair(title: Bytes)
    ensures Encoded(MagnetPairs(title, [])) == Ascii("dn=") + Escape(title)
  {
    EscapeUnreserved(Ascii("dn"));
    assert Ascii("dn") + [EQUALS] == Ascii("dn=");
  }

  lemma TrackerPair(tracker: Bytes)
    ensures [AMPERSAND] + EncodePair(Pair(Ascii("tr"), tracker)) == Ascii("&tr=") + Escape(tracker)
  {
    EscapeUnreserved(Ascii("tr"));
    assert [AMPERSAND] + (Ascii("tr") + [EQUALS]) == Ascii("&tr=");
  }

  lemma OneMoreTracker(head: Bytes, title: Bytes, trackers: seq<string>, i: nat)
    requires i < |trackers|
    ensures head + Encoded(MagnetPairs(title, trackers[..i])) + Ascii("&tr=") + Escape(Ascii(trackers[i]))
         == head + Encoded(MagnetPairs(title, trackers[..i + 1]))
  {
    assert trackers[..i + 1][..i] == trackers[..i];
    var tracker := Ascii(trackers[i]);
    var pairs, last := MagnetPairs(title, trackers[..i]), Pair(Ascii("tr"), tracker);
    assert MagnetPairs(title, trackers[..i + 1]) == pairs + [last];
    EncodedLast(pairs, last);
    TrackerPair(tracker);
    Append(head, Encoded(pairs), [AMPERSAND], EncodePair(last), Ascii("&tr="), Escape(tracker));
  }

  lemma Append(head: Bytes, x: Bytes, a: Bytes, b: Bytes, a': Bytes, b': Bytes)
    requires a + b == a' + b'
    ensures head + x + a' + b' == head + (x + a + b)
  {
    assert head + x + a' + b' == head + x + (a' + b');
  }

  lemma Prepend(a: Bytes, h: Bytes, b: Bytes, e: Bytes, a1: Bytes, a2: Bytes, b1: Bytes, b2: Bytes)
    requires a == a1 + a2 && b == b1 + b2
    ensures a + h + b + e == a1 + (a2 + h + b1) + (b2 + e)
  {
  }

  method InfoHashToMagnet(infoHash: Bytes, title: Bytes) returns (magnet: Bytes)
    ensures magnet == PublicMagnet(infoHash, title)
  {
    if Blank(infoHash) || Blank(title) {
      return [];
    }
    var trackers := PUBLIC_TRACKERS;
    magnet := MagnetWith(infoHash, title, trackers);
  }

  method MagnetWith(infoHash: Bytes, title: Bytes, trackers: seq<string>) returns (b: Bytes)
    ensures b == MagnetText(infoHash, title, trackers)
  {
    b := Ascii("magnet:?xt=urn:btih:") + infoHash + Ascii("&dn=") + Escape(title);
    ghost var head := Ascii("magnet:") + [QUERY_MARK] + (Ascii("xt=urn:btih:") + infoHash + [AMPERSAND]);
    MagnetHead(infoHash, title);
    for i := 0 to |trackers|
      invariant b == head + Encoded(MagnetPairs(title, trackers[..i]))
    {
      OneMoreTracker(head, title, trackers, i);
      b := b + Ascii("&tr=") + Escape(Ascii(trackers[i]));
    }
    assert trackers[..|trackers|] == trackers;
    Reassociate(Ascii("magnet:") + [QUERY_MARK], Ascii("xt=urn:btih:") + infoHash + [AMPERSAND],
                Encoded(MagnetPairs(title, trackers)));
  }

  lemma PrefixParts()
    ensures Ascii("magnet:?xt=urn:btih:") == Ascii("magnet:") + [QUERY_MARK] + Ascii("xt=urn:btih:")
    ensures Ascii("&dn=") == [AMPERSAND] + Ascii("dn=")
  {
  }

  lemma MagnetHead(infoHash: Bytes, title: Bytes)
    ensures Ascii("magnet:?xt=urn:btih:") + infoHash + Ascii("&dn=") + Escape(title)
         == Ascii("magnet:") + [QUERY_MARK] + (Ascii("xt=urn:btih:") + infoHash + [AMPERSAND])
            + Encoded(MagnetPairs(title, []))
  {
    TitlePair(title);
    PrefixParts();
    Prepend(Ascii("magnet:?xt=urn:btih:"), infoHash, Ascii("&dn="), Escape(title),
            Ascii("magnet:") + [QUERY_MARK], Ascii("xt=urn:btih:"), [AMPERSAND], Ascii("dn="));
  }

  // ----- Reading a query argument

  /** Go's `url.ParseQuery` on the parts between '&': empty ones are skipped, a semicolon is an error. */
  function ParseQuery(parts: seq<Bytes>): Option<seq<Pair>> {
    if parts == [] then Some([])
    else if parts[0] == [] then ParseQuery(parts[1..])
    else if !Lacks(parts[0], SEMICOLON) then None else
    match (ParsePair(parts[0]), ParseQuery(parts[1..]))
    case (Some(p), Some(ps)) => Some([p] + ps)
    case _ => None
  }

  /** The first value a name has, or nothing. */
  function FirstValue(pairs: seq<Pair>, name: Bytes): Bytes {
    if pairs == [] then []
    else if pairs[0].key == name then pairs[0].value
    else FirstValue(pairs[1..], name)
  }

  /** A URL's query, without its fragment. */
  function QueryOf(raw: Bytes): Bytes {
    var i := IndexOf(raw, QUERY_MARK);
    if i == |raw| then [] else
    var qs := raw[i + 1..];
    qs[..IndexOf(qs, HASH)]
  }

  function QueryArg(raw: Bytes, name: Bytes): Bytes {
    match ParseQuery(Split(QueryOf(raw), AMPERSAND))
    case None => []
    case Some(pairs) => FirstValue(pairs, name)
  }

  /** Where the part after the last `c` starts. */
  function AfterLast(s: Bytes, c: Byte): (j: nat)
    ensures j <= |s| && Lacks(s[j..], c)
    ensures j > 0 ==> s[j - 1] == c
  {
    if s == [] || s[|s| - 1] == c then |s| else
    var j := AfterLast(s[..|s| - 1], c);
    assert s[j..] == s[..|s| - 1][j..] + [s[|s| - 1]];
    j
  }

  function MagnetToInfoHash(magnet: Bytes): Bytes {
    var xt := QueryArg(magnet, Ascii("xt"));
    xt[AfterLast(xt, COLON)..]
  }

  // ----- The round trip

  predicate Plain(b: Byte) {
    b != HASH && b != PERCENT && b != AMPERSAND && b != PLUS && b != COLON && b != SEMICOLON
  }

  predicate AllPlain(s: Bytes) {
    forall i :: 0 <= i < |s| ==> Plain(s[i])
  }

  /** Where a hash written into a query stops being its argument. */
  function Stop(h: Bytes): (k: nat)
    ensures k <= |h|
  {
    IndexOf(h[..IndexOf(h, HASH)], AMPERSAND)
  }

  lemma {:induction false} EncodedAlphabet(pairs: seq<Pair>)
    ensures Lacks(Encoded(pairs), HASH) && Lacks(Encoded(pairs), SEMICOLON)
  {
    if pairs != [] {
      var init, last := pairs[..|pairs| - 1], EncodePair(pairs[|pairs| - 1]);
      EncodedAlphabet(init);
      forall c | c == HASH || c == SEMICOLON
        ensures Lacks(last, c) && Lacks(Encoded(init) + [AMPERSAND] + last, c)
      {
        PairLacks(pairs[|pairs| - 1], c);
        LacksConcat(Encoded(init), [AMPERSAND], c);
        LacksConcat(Encoded(init) + [AMPERSAND], last, c);
      }
    }
  }

  lemma PairLacks(p: Pair, c: Byte)
    requires !IsEncoded(c) && c != EQUALS
    ensures Lacks(EncodePair(p), c)
  {
    EscapeLacks(p.key, c);
    EscapeLacks(p.value, c);
    LacksConcat(Escape(p.key), [EQUALS], c);
    LacksConcat(Escape(p.key) + [EQUALS], Escape(p.value), c);
  }

  lemma {:induction false} ParseQueryConcat(a: seq<Bytes>, b: seq<Bytes>)
    requires ParseQuery(a).Some? && ParseQuery(b).Some?
    ensures ParseQuery(a + b) == Some(ParseQuery(a).value + ParseQuery(b).value)
  {
    if a == [] {
      assert a + b == b;
      assert [] + ParseQuery(b).value == ParseQuery(b).value;
    } else {
      assert (a + b)[1..] == a[1..] + b && (a + b)[0] == a[0];
      ParseQueryConcat(a[1..], b);
      if a[0] != [] {
        Reassociate([ParsePair(a[0]).value], ParseQuery(a[1..]).value, ParseQuery(b).value);
      }
    }
  }

  lemma ParseQueryOne(p: Pair)
    ensures ParseQuery(Split(EncodePair(p), AMPERSAND)) == Some([p])
  {
    ParseEncodedPair(p);
    SplitWithout(EncodePair(p), AMPERSAND);
    PairLacks(p, SEMICOLON);
    ParseQuerySingleton(EncodePair(p));
  }

  lemma ParseQuerySingleton(part: Bytes)
    requires part != [] && Lacks(part, SEMICOLON) && ParsePair(part).Some?
    ensures ParseQuery([part]) == Some([ParsePair(part).value])
  {
    assert [part][1..] == [];
    assert ParseQuery([]) == Some([]);
    assert [ParsePair(part).value] + [] == [ParsePair(part).value];
  }

  lemma ParseQueryJoined(a: Bytes, b: Bytes, as': seq<Pair>, bs: seq<Pair>)
    requires ParseQuery(Split(a, AMPERSAND)) == Some(as') && ParseQuery(Split(b, AMPERSAND)) == Some(bs)
    ensures ParseQuery(Split(a + [AMPERSAND] + b, AMPERSAND)) == Some(as' + bs)
  {
    SplitJoined(a, AMPERSAND, b);
    ParseQueryConcat(Split(a, AMPERSAND), Split(b, AMPERSAND));
  }

  lemma {:induction false} ParseQueryEncoded(pairs: seq<Pair>)
    requires pairs != []
    ensures ParseQuery(Split(Encoded(pairs), AMPERSAND)) == Some(pairs)
  {
    var init, last := pairs[..|pairs| - 1], pairs[|pairs| - 1];
    assert pairs == init + [last];
    ParseQueryOne(last);
    if init == [] {
      assert pairs == [last];
    } else {
      ParseQueryEncoded(init);
      EncodedLast(init, last);
      ParseQueryJoined(Encoded(init), EncodePair(last), init, [last]);
    }
  }

  /** A magnet's query is what follows its '?', up to a '#' in the hash. */
  lemma QueryOfMagnet(q: Bytes)
    ensures QueryOf(Ascii("magnet:") + [QUERY_MARK] + q) == q[..IndexOf(q, HASH)]
  {
    var scheme := Ascii("magnet:");
    var m := scheme + [QUERY_MARK] + q;
    IndexOfIs(m, QUERY_MARK, |scheme|);
    assert m[|scheme| + 1..] == q;
  }

  /** Text without '%' and '+' in front stands for itself. */
  lemma {:induction false} UnescapePlainPrefix(a: Bytes, b: Bytes)
    requires Lacks(a, PERCENT) && Lacks(a, PLUS)
    ensures Unescape(a + b) == match Unescape(b) case None => None case Some(w) => Some(a + w)
  {
    if a == [] {
      assert a + b == b;
      assert Unescape(b).Some? ==> a + Unescape(b).value == Unescape(b).value;
    } else {
      assert (a + b)[1..] == a[1..] + b && (a + b)[0] == a[0];
      UnescapePlainPrefix(a[1..], b);
      if Unescape(b).Some? {
        assert [a[0]] + (a[1..] + Unescape(b).value) == a + Unescape(b).value;
      }
    }
  }

  /** Unescaping never lengthens a text, and keeps exactly those without '%' and '+'. */
  lemma {:induction false} UnescapeShrinks(s: Bytes)
    ensures Unescape(s).Some? ==> |Unescape(s).value| <= |s|
  {
    if s != [] && UnescapeFirst(s).Some? {
      UnescapeShrinks(UnescapeFirst(s).value.1);
    }
  }

  lemma {:induction false} UnescapeFixes(s: Bytes)
    ensures Unescape(s) == Some(s) <==> Lacks(s, PERCENT) && Lacks(s, PLUS)
  {
    if s != [] && UnescapeFirst(s).Some? {
      var rest := UnescapeFirst(s).value.1;
      UnescapeShrinks(rest);
      UnescapeFixes(s[1..]);
      assert s == [s[0]] + s[1..];
      if s[0] != PERCENT && s[0] != PLUS {
        LacksCons(s, PERCENT);
        LacksCons(s, PLUS);
      }
    }
  }

  lemma LacksCons(s: Bytes, c: Byte)
    requires s != []
    ensures Lacks(s, c) <==> s[0] != c && Lacks(s[1..], c)
  {
    if s[0] != c && Lacks(s[1..], c) {
      assert forall k :: 1 <= k < |s| ==> s[k] == s[1..][k - 1];
    }
  }

  // The argument "xt" of a magnet.

  /** A query cut at its fragment starts with the hash up to where it stops, as one whole part. */
  lemma FirstPart(prefix: Bytes, h: Bytes, tail: Bytes)
    requires Lacks(prefix, HASH) && Lacks(prefix, AMPERSAND)
    ensures var q := prefix + h + [AMPERSAND] + tail;
      Split(q[..IndexOf(q, HASH)], AMPERSAND)[0] == prefix + h[..Stop(h)]
  {
    var q := prefix + h + [AMPERSAND] + tail;
    var n, k := |prefix|, Stop(h);
    var cut := IndexOf(q, HASH);
    FragmentIsPastStop(prefix, h, tail);
    var qs := q[..cut];
    assert forall i :: 0 <= i < n + k ==> qs[i] != AMPERSAND;
    IndexOfIs(qs, AMPERSAND, n + k);
    assert qs[..n + k] == prefix + h[..k];
    if n + k == |qs| {
      assert qs == prefix + h[..k];
    }
  }

  lemma FragmentIsPastStop(prefix: Bytes, h: Bytes, tail: Bytes)
    requires Lacks(prefix, HASH) && Lacks(prefix, AMPERSAND)
    ensures var q := prefix + h + [AMPERSAND] + tail;
      var cut, stop := IndexOf(q, HASH), |prefix| + Stop(h);
      && stop <= cut && (stop == cut || q[stop] == AMPERSAND)
      && forall i :: 0 <= i < stop ==> q[i] != AMPERSAND
  {
    var q := prefix + h + [AMPERSAND] + tail;
    var n, i := |prefix|, IndexOf(h, HASH);
    assert forall j :: 0 <= j < n ==> q[j] == prefix[j];
    assert forall j :: n <= j < n + |h| ==> q[j] == h[j - n];
    if i < |h| {
      IndexOfIs(q, HASH, n + i);
    }
  }

  lemma XtPrefix()
    ensures Ascii("xt=urn:btih:") == Ascii("xt") + [EQUALS] + Ascii("urn:btih:")
  {
  }

  lemma XtPrefixLacks(c: Byte)
    requires c == HASH || c == AMPERSAND || c == SEMICOLON
    ensures Lacks(Ascii("xt=urn:btih:"), c)
  {
  }

  predicate IsName(name: Bytes) {
    Lacks(name, EQUALS) && Lacks(name, PERCENT) && Lacks(name, PLUS)
  }

  /** A start of a value that stands for itself and ends a segment. */
  predicate IsStart(start: Bytes) {
    Lacks(start, PERCENT) && Lacks(start, PLUS) && start != [] && start[|start| - 1] == COLON
  }

  lemma XtIsName()
    ensures IsName(Ascii("xt"))
  {
  }

  lemma UrnIsStart()
    ensures IsStart(Ascii("urn:btih:"))
  {
  }

  /** A part with a plain name and a plain start of its value. */
  lemma PlainPair(name: Bytes, start: Bytes, v: Bytes)
    requires IsName(name) && IsStart(start)
    ensures ParsePair(name + [EQUALS] + start + v)
         == match Unescape(v) case None => None case Some(w) => Some(Pair(name, start + w))
  {
    UnescapeFixes(name);
    Reassociate(name + [EQUALS], start, v);
    CutAtEquals(name, start + v);
    UnescapePlainPrefix(start, v);
  }

  /** What is read back when the query parses. */
  lemma FirstValueIs(parts: seq<Bytes>, name: Bytes, start: Bytes, v: Bytes)
    requires parts != [] && parts[0] != [] && ParseQuery(parts).Some?
    requires ParsePair(parts[0]) == match Unescape(v) case None => None case Some(w) => Some(Pair(name, start + w))
    ensures Lacks(parts[0], SEMICOLON) && Unescape(v).Some?
    ensures FirstValue(ParseQuery(parts).value, name) == start + Unescape(v).value
  {
  }

  /** A segment read from what follows a plain start. */
  predicate IsSegment(r: Bytes, v: Bytes) {
    Lacks(v, SEMICOLON) && Unescape(v).Some? && Lacks(r, COLON)
    && |r| <= |Unescape(v).value| && r == Unescape(v).value[|Unescape(v).value| - |r|..]
  }

  lemma {:induction false} AfterLastPast(s: Bytes, c: Byte, k: nat)
    requires k < |s| && s[k] == c
    ensures AfterLast(s, c) > k
  {
    if s[|s| - 1] != c {
      AfterLastPast(s[..|s| - 1], c, k);
    }
  }

  /** The last segment after a start that ends in ':' is a suffix of what follows it. */
  lemma LastSegment(start: Bytes, w: Bytes)
    requires start != [] && start[|start| - 1] == COLON
    ensures var u := start + w; var r := u[AfterLast(u, COLON)..];
      && |r| <= |w| && r == w[|w| - |r|..] && Lacks(r, COLON)
      && (Lacks(w, COLON) ==> r == w)
  {
    var u := start + w;
    var a := AfterLast(u, COLON);
    AfterLastPast(u, COLON, |start| - 1);
    var j := a - |start|;
    assert u[a..] == w[j..];
    if j > 0 {
      assert w[j - 1] == u[a - 1];
      assert !Lacks(w, COLON);
    }
  }

  /** A magnet's hash read back is nothing, or a segment of the hash up to where it stops. */
  lemma ReadBackParts(h: Bytes, tail: Bytes)
    ensures var r := MagnetToInfoHash(Ascii("magnet:") + [QUERY_MARK] + MagnetQuery(h, tail));
      r == [] || IsSegment(r, h[..Stop(h)])
  {
    var q := MagnetQuery(h, tail);
    QueryOfMagnet(q);
    XtPrefix();
    XtPrefixLacks(HASH);
    XtPrefixLacks(AMPERSAND);
    XtIsName();
    UrnIsStart();
    FirstPart(Ascii("xt=urn:btih:"), h, tail);
    ReadBackQuery(q[..IndexOf(q, HASH)], Ascii("xt=urn:btih:"), Ascii("xt"), Ascii("urn:btih:"), h[..Stop(h)]);
    EmptySegment();
  }

  lemma EmptySegment()
    ensures AfterLast([], COLON) == 0
  {
  }

  lemma ReadBackQuery(qs: Bytes, prefix: Bytes, name: Bytes, start: Bytes, v: Bytes)
    requires Split(qs, AMPERSAND)[0] == prefix + v && prefix == name + [EQUALS] + start
    requires IsName(name) && IsStart(start)
    ensures var parts := Split(qs, AMPERSAND);
      ParseQuery(parts).Some? ==>
        var u := FirstValue(ParseQuery(parts).value, name);
        IsSegment(u[AfterLast(u, COLON)..], v)
  {
    var parts := Split(qs, AMPERSAND);
    PlainPair(name, start, v);
    if ParseQuery(parts).Some? {
      FirstValueIs(parts, name, start, v);
      LacksConcat(prefix, v, SEMICOLON);
      LastSegment(start, Unescape(v).value);
    }
  }

  /** A hash that comes back whole holds none of the six special bytes. */
  lemma ReturnedIsPlain(h: Bytes, tail: Bytes)
    requires h != []
    requires MagnetToInfoHash(Ascii("magnet:") + [QUERY_MARK] + MagnetQuery(h, tail)) == h
    ensures AllPlain(h)
  {
    ReadBackParts(h, tail);
    SegmentIsPlain(h);
  }

  lemma SegmentIsPlain(h: Bytes)
    requires IsSegment(h, h[..Stop(h)])
    ensures AllPlain(h)
  {
    UnescapeShrinks(h[..Stop(h)]);
    assert h[..Stop(h)] == h;
    assert Unescape(h).value == h;
    UnescapeFixes(h);
    StopAtEnd(h);
  }

  lemma StopAtEnd(h: Bytes)
    requires Stop(h) == |h|
    ensures Lacks(h, HASH) && Lacks(h, AMPERSAND)
  {
    assert h[..|h|] == h;
  }

  /** A plain hash comes back whole. */
  lemma PlainReturns(h: Bytes, pairs: seq<Pair>)
    requires AllPlain(h) && pairs != []
    ensures MagnetToInfoHash(Ascii("magnet:") + [QUERY_MARK] + MagnetQuery(h, Encoded(pairs))) == h
  {
    var q := MagnetQuery(h, Encoded(pairs));
    QueryOfMagnet(q);
    PlainQuery(h, pairs);
    assert q[..|q|] == q;
    PlainArg(Ascii("magnet:") + [QUERY_MARK] + q, pairs, Ascii("urn:btih:") + h);
    UrnIsStart();
    LastSegment(Ascii("urn:btih:"), h);
  }

  lemma PlainArg(magnet: Bytes, pairs: seq<Pair>, value: Bytes)
    requires QueryPairs(QueryOf(magnet), pairs, value)
    ensures QueryArg(magnet, Ascii("xt")) == value
  {
  }

  lemma PlainQuery(h: Bytes, pairs: seq<Pair>)
    requires AllPlain(h) && pairs != []
    ensures var q := MagnetQuery(h, Encoded(pairs));
      IndexOf(q, HASH) == |q| && QueryPairs(q, pairs, Ascii("urn:btih:") + h)
  {
    var xt := Ascii("xt=urn:btih:") + h;
    var q := xt + [AMPERSAND] + Encoded(pairs);
    XtPart(h);
    EncodedAlphabet(pairs);
    LacksConcat(xt, [AMPERSAND], HASH);
    LacksConcat(xt + [AMPERSAND], Encoded(pairs), HASH);
    IndexOfIs(q, HASH, |q|);
    ParseQueryEncoded(pairs);
    ParseQueryJoined(xt, Encoded(pairs), [Pair(Ascii("xt"), Ascii("urn:btih:") + h)], pairs);
  }

  /** The query parses to an "xt" of the given value, followed by the given pairs. */
  predicate QueryPairs(q: Bytes, pairs: seq<Pair>, value: Bytes) {
    ParseQuery(Split(q, AMPERSAND)) == Some([Pair(Ascii("xt"), value)] + pairs)
  }

  lemma XtLacks(h: Bytes, c: Byte)
    requires AllPlain(h) && (c == HASH || c == AMPERSAND || c == SEMICOLON)
    ensures Lacks(Ascii("xt=urn:btih:") + h, c)
  {
    XtPrefixLacks(c);
    LacksConcat(Ascii("xt=urn:btih:"), h, c);
  }

  lemma XtPart(h: Bytes)
    requires AllPlain(h)
    ensures var xt := Ascii("xt=urn:btih:") + h;
      Lacks(xt, HASH) && ParseQuery(Split(xt, AMPERSAND)) == Some([Pair(Ascii("xt"), Ascii("urn:btih:") + h)])
  {
    var xt := Ascii("xt=urn:btih:") + h;
    XtPrefix();
    XtIsName();
    UrnIsStart();
    XtLacks(h, HASH);
    XtLacks(h, AMPERSAND);
    XtLacks(h, SEMICOLON);
    SplitWithout(xt, AMPERSAND);
    UnescapeFixes(h);
    PlainPair(Ascii("xt"), Ascii("urn:btih:"), h);
    ParseQuerySingleton(xt);
  }

  /**
   Reading the hash back from the magnet made for it gives it back exactly when there was no hash, or
   neither it nor the title is blank and the hash holds none of '#', '%', '&', '+', ':' and ';'.
   */
  lemma RoundTripIff(infoHash: Bytes, title: Bytes)
    ensures MagnetToInfoHash(PublicMagnet(infoHash, title)) == infoHash
        <==> infoHash == [] || (!Blank(infoHash) && !Blank(title) && AllPlain(infoHash))
  {
    NoMagnetNoHash();
    if Blank(infoHash) || Blank(title) {
    } else {
      TextRoundTripIff(infoHash, title, PUBLIC_TRACKERS);
    }
  }

  lemma NoMagnetNoHash()
    ensures MagnetToInfoHash([]) == []
  {
    var parts: seq<Bytes> := [[]];
    assert parts[1..] == [];
    assert ParseQuery(parts) == Some([]);
  }

  lemma TextRoundTripIff(infoHash: Bytes, title: Bytes, trackers: seq<string>)
    requires infoHash != []
    ensures MagnetToInfoHash(MagnetText(infoHash, title, trackers)) == infoHash <==> AllPlain(infoHash)
  {
    var pairs := MagnetPairs(title, trackers);
    if AllPlain(infoHash) {
      PlainReturns(infoHash, pairs);
    } else if MagnetToInfoHash(MagnetText(infoHash, title, trackers)) == infoHash {
      ReturnedIsPlain(infoHash, Encoded(pairs));
    }
  }

  // ----- Making a release's two links agree

  class Release {
    var magnet: Bytes
    var infoHash: Bytes
    const title: Bytes

    constructor (magnet: Bytes, infoHash: Bytes, title: Bytes)
      ensures this.magnet == magnet && this.infoHash == infoHash && this.title == title
    {
      this.magnet, this.infoHash, this.title := magnet, infoHash, title;
    }

    method Synthesize(indexerType: string)
      modifies this
      ensures Links(magnet, infoHash) == Synthesized(old(Links(magnet, infoHash)), title, indexerType)
    {
      if magnet == [] && infoHash != [] && indexerType != "private" {
        magnet := InfoHashToMagnet(infoHash, title);
      }
      if magnet != [] && Blank(infoHash) {
        infoHash := MagnetToInfoHash(magnet);
      }
    }
  }

  datatype Links = Links(magnet: Bytes, infoHash: Bytes)

  function Synthesized(r: Links, title: Bytes, indexerType: string): Links {
    var magnet := if r.magnet == [] && r.infoHash != [] && indexerType != "private"
                  then PublicMagnet(r.infoHash, title) else r.magnet;
    Links(magnet, if magnet != [] && Blank(r.infoHash) then MagnetToInfoHash(magnet) else r.infoHash)
  }

  /** Synthesizing twice is synthesizing once, whatever the release holds. */
  lemma SynthesizedOnce(r: Links, title: Bytes, indexerType: string)
    ensures Synthesized(Synthesized(r, title, indexerType), title, indexerType) == Synthesized(r, title, indexerType)
  {
  }

  /** A magnet already there is kept, a hash that is not blank is kept, and a private indexer gets no magnet. */
  lemma GivenIsKept(r: Links, title: Bytes, indexerType: string)
    ensures var s := Synthesized(r, title, indexerType);
      && (r.magnet != [] || indexerType == "private" ==> s.magnet == r.magnet)
      && (!Blank(r.infoHash) ==> s.infoHash == r.infoHash)
  {
  }

  /** Where a magnet is synthesized for a plain hash, the two links agree afterwards. */
  lemma SynthesizedAgrees(r: Links, title: Bytes, indexerType: string)
    requires r.magnet == [] && indexerType != "private" && !Blank(r.infoHash) && !Blank(title)
    ensures var s := Synthesized(r, title, indexerType);
      MagnetToInfoHash(s.magnet) == s.infoHash <==> AllPlain(r.infoHash)
  {
    RoundTripIff(r.infoHash, title);
  }

  // ----- What a magnet spells and holds

  /** The trackers as a magnet spells them. */
  function TrackerText(trackers: seq<string>): Bytes {
    if trackers == [] then [] else
    TrackerText(trackers[..|trackers| - 1]) + Ascii("&tr=") + Escape(Ascii(trackers[|trackers| - 1]))
  }

  lemma {:induction false} PairsSpell(title: Bytes, trackers: seq<string>)
    ensures Encoded(MagnetPairs(title, trackers)) == Ascii("dn=") + Escape(title) + TrackerText(trackers)
  {
    if trackers == [] {
      TitlePair(title);
      assert Ascii("dn=") + Escape(title) + [] == Ascii("dn=") + Escape(title);
    } else {
      var n := |trackers| - 1;
      PairsSpell(title, trackers[..n]);
      assert trackers[..n + 1] == trackers;
      OneMoreTracker([], title, trackers, n);
      SpellLast(Encoded(MagnetPairs(title, trackers[..n])), Ascii("dn=") + Escape(title), TrackerText(trackers[..n]),
                Ascii("&tr="), Escape(Ascii(trackers[n])), Encoded(MagnetPairs(title, trackers)));
    }
  }

  lemma SpellLast(x: Bytes, head: Bytes, tail: Bytes, a: Bytes, b: Bytes, y: Bytes)
    requires x == head + tail && [] + x + a + b == [] + y
    ensures y == head + (tail + a + b)
  {
    assert [] + x == x && [] + y == y;
  }

  /** A magnet, spelt out: nothing for a blank hash or title. */
  lemma MagnetSpells(infoHash: Bytes, title: Bytes)
    ensures Blank(infoHash) || Blank(title) ==> PublicMagnet(infoHash, title) == []
    ensures !Blank(infoHash) && !Blank(title) ==>
      PublicMagnet(infoHash, title)
      == Ascii("magnet:?xt=urn:btih:") + infoHash + Ascii("&dn=") + Escape(title) + TrackerText(PUBLIC_TRACKERS)
  {
    MagnetHead(infoHash, title);
    PairsSpell(title, []);
    PairsSpell(title, PUBLIC_TRACKERS);
    HeadThenRest(Ascii("magnet:") + [QUERY_MARK], Ascii("xt=urn:btih:") + infoHash + [AMPERSAND],
                 Ascii("dn=") + Escape(title), TrackerText(PUBLIC_TRACKERS), TrackerText([]));
  }

  lemma HeadThenRest(a: Bytes, b: Bytes, c: Bytes, d: Bytes, none: Bytes)
    requires none == []
    ensures a + (b + (c + d)) == a + b + (c + none) + d
  {
    assert c + none == c;
    assert a + (b + (c + d)) == a + b + c + d;
  }

  /** What a reader of a magnet for a plain hash finds in its query: the hash, the title, and every tracker in turn. */
  lemma MagnetHolds(infoHash: Bytes, title: Bytes)
    requires AllPlain(infoHash) && !Blank(infoHash) && !Blank(title)
    ensures var query := ParseQuery(Split(QueryOf(PublicMagnet(infoHash, title)), AMPERSAND));
      && query.Some? && |query.value| == 2 + |PUBLIC_TRACKERS|
      && query.value[0] == Pair(Ascii("xt"), Ascii("urn:btih:") + infoHash)
      && query.value[1] == Pair(Ascii("dn"), title)
      && forall i :: 0 <= i < |PUBLIC_TRACKERS| ==>
           query.value[2 + i] == Pair(Ascii("tr"), Ascii(PUBLIC_TRACKERS[i]))
  {
    TextHolds(infoHash, title, PUBLIC_TRACKERS);
  }

  lemma TextHolds(infoHash: Bytes, title: Bytes, trackers: seq<string>)
    requires AllPlain(infoHash)
    ensures var query := ParseQuery(Split(QueryOf(MagnetText(infoHash, title, trackers)), AMPERSAND));
      && query.Some? && |query.value| == 2 + |trackers|
      && query.value[0] == Pair(Ascii("xt"), Ascii("urn:btih:") + infoHash)
      && query.value[1] == Pair(Ascii("dn"), title)
      && forall i :: 0 <= i < |trackers| ==> query.value[2 + i] == Pair(Ascii("tr"), Ascii(trackers[i]))
  {
    var pairs := MagnetPairs(title, trackers);
    var q := MagnetQuery(infoHash, Encoded(pairs));
    QueryOfMagnet(q);
    PlainQuery(infoHash, pairs);
    assert q[..|q|] == q;
    forall i | 0 <= i < |trackers|
      ensures |pairs| == 1 + |trackers| && pairs[0] == Pair(Ascii("dn"), title)
      ensures pairs[1 + i] == Pair(Ascii("tr"), Ascii(trackers[i]))
    {
      PairAt(title, trackers, i);
    }
  }

  lemma {:induction false} PairAt(title: Bytes, trackers: seq<string>, i: nat)
    requires i < |trackers|
    ensures var pairs := MagnetPairs(title, trackers);
      && |pairs| == 1 + |trackers| && pairs[0] == Pair(Ascii("dn"), title)
      && pairs[1 + i] == Pair(Ascii("tr"), Ascii(trackers[i]))
  {
    if |trackers| > 1 {
      PairAt(title, trackers[..|trackers| - 1], if i < |trackers| - 1 then i else 0);
    }
  }

  /** A blank hash is read from a given magnet: what follows the last colon of its first `xt` argument. */
  lemma HashIsRead(before: seq<Pair>, prefix: Bytes, hash: Bytes, after: seq<Pair>, title: Bytes, indexerType: string)
    requires Lacks(hash, COLON) && prefix != [] && prefix[|prefix| - 1] == COLON
    requires forall i :: 0 <= i < |before| ==> before[i].key != Ascii("xt")
    ensures var pairs := before + [Pair(Ascii("xt"), prefix + hash)] + after;
      var magnet := Ascii("magnet:") + [QUERY_MARK] + Encoded(pairs);
      Synthesized(Links(magnet, []), title, indexerType) == Links(magnet, hash)
  {
    FirstAfter(before, Pair(Ascii("xt"), prefix + hash), after);
    LastSegment(prefix, hash);
    NothingIsBlank();
    ArgumentOfEncoded(before + [Pair(Ascii("xt"), prefix + hash)] + after, Ascii("xt"));
  }

  lemma ArgumentOfEncoded(pairs: seq<Pair>, name: Bytes)
    requires pairs != []
    ensures QueryArg(Ascii("magnet:") + [QUERY_MARK] + Encoded(pairs), name) == FirstValue(pairs, name)
  {
    var q := Encoded(pairs);
    QueryOfMagnet(q);
    EncodedAlphabet(pairs);
    IndexOfIs(q, HASH, |q|);
    assert q[..|q|] == q;
    ParseQueryEncoded(pairs);
  }

  lemma NothingIsBlank()
    ensures Blank([])
  {
  }

  lemma {:induction false} FirstAfter(before: seq<Pair>, p: Pair, after: seq<Pair>)
    requires forall i :: 0 <= i < |before| ==> before[i].key != p.key
    ensures FirstValue(before + [p] + after, p.key) == p.value
  {
    if before != [] {
      assert (before + [p] + after)[1..] == before[1..] + [p] + after;
      FirstAfter(before[1..], p, after);
    }
  }
}
