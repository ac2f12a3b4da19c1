/** The inline-markup renderer that the dashboard, the item card and the
    recent-ideas feed each carry a copy of: matchAll of the markup pattern
    over a string, and the loop that turns its matches into parts. The
    scan is stated for any matcher that reports only matches that are
    really there; the pattern's own matcher is one of them. */
module Markup {
  import opened Types
  import opened Strings
  import opened Pattern
  import Lists

  /** One rendered part: plain text, <strong>, <em>, or an <a> showing
      `text` and pointing at `href`. */
  datatype Token = Text(text: string) | Bold(text: string) | Italic(text: string) | Link(text: string, href: string)

  /** found(q) is the match a matcher reports at q; a sound matcher
      reports only matches whose text is there. */
  ghost predicate Sound(s: string, found: nat -> Option<Capture>)
  {
    forall q: nat :: SoundAt(s, found, q)
  }

  /** The match reported at q, if any, is there. */
  ghost predicate SoundAt(s: string, found: nat -> Option<Capture>, q: nat)
  {
    found(q).Some? ==> OccursAt(s, q, Source(found(q).value))
  }

  /** A fitting matcher reports only matches that end within s; this is
      all the scan itself needs. */
  ghost predicate Fits(s: string, found: nat -> Option<Capture>)
  {
    forall q: nat :: FitsAt(s, found, q)
  }

  /** The match reported at q, if any, ends within s. */
  ghost predicate FitsAt(s: string, found: nat -> Option<Capture>, q: nat)
  {
    found(q).Some? ==> q + Width(found(q).value) <= |s|
  }

  /** The markup pattern as a matcher over s. */
  function Matcher(s: string): nat -> Option<Capture>
  {
    (q: nat) => if q <= |s| then MatchAt(s, q) else None
  }

  lemma MatcherSound(s: string)
    ensures Sound(s, Matcher(s)) && Fits(s, Matcher(s))
  {
    forall q: nat ensures SoundAt(s, Matcher(s), q) && FitsAt(s, Matcher(s), q) {
      if Matcher(s)(q).Some? {
        WidthIsLength(Matcher(s)(q).value);
      }
    }
  }

  /** The next match of a global search at or after i: the leftmost
      position where the matcher finds one. */
  function NextMatch(s: string, i: nat, found: nat -> Option<Capture>): (r: Option<nat>)
    requires i <= |s|
    ensures r.Some? ==> i <= r.value <= |s| && found(r.value).Some?
    decreases |s| - i
  {
    if found(i).Some? then Some(i)
    else if i == |s| then None
    else NextMatch(s, i + 1, found)
  }

  /** The search finds the leftmost match, and reports none only when
      there is none from i on. */
  lemma {:induction false} NextMatchLeftmost(s: string, i: nat, found: nat -> Option<Capture>)
    requires i <= |s|
    ensures NextMatch(s, i, found).Some? ==> forall q :: i <= q < NextMatch(s, i, found).value ==> found(q).None?
    ensures NextMatch(s, i, found).None? <==> forall q :: i <= q <= |s| ==> found(q).None?
    decreases |s| - i
  {
    if found(i).None? && i < |s| {
      NextMatchLeftmost(s, i + 1, found);
    }
  }

  /** So the search is determined by where matches are: the first one, or
      none. */
  lemma {:induction false} NextMatchIs(s: string, i: nat, found: nat -> Option<Capture>, p: nat)
    requires i <= p <= |s| && found(p).Some?
    requires forall q :: i <= q < p ==> found(q).None?
    ensures NextMatch(s, i, found) == Some(p)
    decreases p - i
  {
    if i < p {
      NextMatchIs(s, i + 1, found, p);
    }
  }

  lemma NextMatchNone(s: string, i: nat, found: nat -> Option<Capture>)
    requires i <= |s|
    requires forall q :: i <= q <= |s| ==> found(q).None?
    ensures NextMatch(s, i, found).None?
  {
    NextMatchLeftmost(s, i, found);
  }

  /** The scan of s from i as a sequence of unmatched stretches and
      matches, in order. */
  datatype Piece = Gap(text: string) | Found(capture: Capture)

  function PiecesFrom(s: string, i: nat, found: nat -> Option<Capture>): seq<Piece>
    requires i <= |s| && Fits(s, found)
    decreases |s| - i
  {
    match NextMatch(s, i, found)
    case None => Before(s, i, |s|)
    case Some(p) =>
      var c := found(p).value;
      assert FitsAt(s, found, p);
      Before(s, i, p) + [Found(c)] + PiecesFrom(s, p + Width(c), found)
  }

  /** The stretch s[i..p] as a piece, when it is not empty. */
  function Before(s: string, i: nat, p: nat): seq<Piece>
    requires i <= p <= |s|
  {
    if i < p then [Gap(s[i..p])] else []
  }

  lemma UnparseBefore(s: string, i: nat, p: nat)
    requires i <= p <= |s|
    ensures Unparse(Before(s, i, p)) == s[i..p]
  {
    if i < p {
      assert [Gap(s[i..p])][1..] == [];
    }
  }

  /** One step of the scan: the stretch before the next match, the match,
      and the scan of what follows it. */
  lemma ScanStep(s: string, i: nat, found: nat -> Option<Capture>, p: nat, c: Capture)
    requires i <= |s| && Fits(s, found) && NextMatch(s, i, found) == Some(p) && found(p) == Some(c)
    ensures i <= p < p + Width(c) <= |s|
    ensures PiecesFrom(s, i, found) == Before(s, i, p) + [Found(c)] + PiecesFrom(s, p + Width(c), found)
  {
    assert FitsAt(s, found, p);
  }

  /** The text each piece stands for. */
  function Unparse(ps: seq<Piece>): string
  {
    if ps == [] then ""
    else (match ps[0] case Gap(t) => t case Found(c) => Source(c)) + Unparse(ps[1..])
  }

  lemma {:induction false} UnparseAppend(a: seq<Piece>, b: seq<Piece>)
    ensures Unparse(a + b) == Unparse(a) + Unparse(b)
  {
    if a == [] {
      assert a + b == b;
    } else {
      assert (a + b)[0] == a[0];
      assert (a + b)[1..] == a[1..] + b;
      UnparseAppend(a[1..], b);
    }
  }

  lemma ThreeUnparse(a: seq<Piece>, c: Capture, b: seq<Piece>)
    ensures Unparse(a + [Found(c)] + b) == Unparse(a) + Source(c) + Unparse(b)
  {
    UnparseAppend(a + [Found(c)], b);
    UnparseAppend(a, [Found(c)]);
    assert Unparse([Found(c)]) == Source(c) by { assert [Found(c)][1..] == []; }
  }

  /** The scan loses and invents nothing: the gaps and the text of each
      match, in order, make up the input again. */
  lemma {:induction false} PiecesRoundTrip(s: string, i: nat, found: nat -> Option<Capture>)
    requires i <= |s| && Fits(s, found) && Sound(s, found)
    ensures Unparse(PiecesFrom(s, i, found)) == s[i..]
    decreases |s| - i
  {
    if NextMatch(s, i, found).None? {
      UnparseBefore(s, i, |s|);
      assert s[i..|s|] == s[i..];
    } else {
      var p := NextMatch(s, i, found).value;
      var c := found(p).value;
      var e := p + Width(c);
      UnparseStep(s, i, found, p, c);
      PiecesRoundTrip(s, e, found);
      Rejoin(s, i, p, e, Unparse(PiecesFrom(s, i, found)), s[i..p], s[p..e], Unparse(PiecesFrom(s, e, found)));
    }
  }

  /** One step of the round trip: the stretch, the match's own text, and
      the text of the rest. */
  lemma UnparseStep(s: string, i: nat, found: nat -> Option<Capture>, p: nat, c: Capture)
    requires i <= |s| && Fits(s, found) && Sound(s, found)
    requires NextMatch(s, i, found) == Some(p) && found(p) == Some(c)
    ensures i <= p <= p + Width(c) <= |s|
    ensures Unparse(PiecesFrom(s, i, found)) == s[i..p] + s[p..p + Width(c)] + Unparse(PiecesFrom(s, p + Width(c), found))
  {
    ScanStep(s, i, found, p, c);
    WidthIsLength(c);
    assert SoundAt(s, found, p);
    ThreeUnparse(Before(s, i, p), c, PiecesFrom(s, p + Width(c), found));
    UnparseBefore(s, i, p);
  }

  lemma Rejoin(s: string, i: nat, p: nat, e: nat, u: string, a: string, b: string, c: string)
    requires i <= p <= e <= |s|
    requires a == s[i..p] && b == s[p..e] && c == s[e..] && u == a + b + c
    ensures u == s[i..]
  {
    assert s[i..] == s[i..p] + s[p..e] + s[e..];
  }

  /** The part a match contributes. The loop destructures the match as
      [full, , bold, , italic, linkText, linkUrl]: bold is group 2 and
      italic group 4, but linkText is group 5, the whole bracketed link,
      and linkUrl is group 6, the bracket text; the URL (group 7) is never
      read. So a link shows its whole markup and points at its bracket
      text, and it is emitted exactly when the bracket text is not empty
      (group 5 never is). Empty bold and italic captures emit nothing. */
  function Emit(c: Capture): (r: seq<Token>)
    ensures |r| <= 1
    ensures r == [] <==> (if c.LinkMatch? then c.text == "" else c.inner == "")
    ensures r != [] ==> !r[0].Text? && (r[0].Bold? <==> c.BoldMatch?) && (r[0].Italic? <==> c.ItalicMatch?)
    ensures r != [] && !c.LinkMatch? ==> r[0].text == c.inner
    ensures r != [] && c.LinkMatch? ==>
              r[0] == Link("[" + c.text + "](" + c.url + ")", c.text)
  {
    match c
    case BoldMatch(x) => if x != "" then [Bold(x)] else []
    case ItalicMatch(x) => if x != "" then [Italic(x)] else []
    case LinkMatch(t, u) => if t != "" then [Link(Source(c), t)] else []
  }

  function Visible(ps: seq<Piece>): seq<Token>
  {
    if ps == [] then []
    else (match ps[0] case Gap(t) => [Text(t)] case Found(c) => Emit(c)) + Visible(ps[1..])
  }

  lemma {:induction false} VisibleAppend(a: seq<Piece>, b: seq<Piece>)
    ensures Visible(a + b) == Visible(a) + Visible(b)
  {
    if a == [] {
      assert a + b == b;
    } else {
      assert (a + b)[0] == a[0];
      assert (a + b)[1..] == a[1..] + b;
      VisibleAppend(a[1..], b);
    }
  }

  /** The parts renderMarkdown builds for one string. */
  function Parts(s: string): seq<Token>
  {
    MatcherSound(s);
    Visible(PiecesFrom(s, 0, Matcher(s)))
  }

  /** The stretch s[i..p] as a plain part, when it is not empty. */
  function Plain(s: string, i: nat, p: nat): seq<Token>
    requires i <= p <= |s|
  {
    if i < p then [Text(s[i..p])] else []
  }

  /** The stretch before a match renders as one plain part, if any. */
  lemma VisibleBefore(s: string, i: nat, p: nat)
    requires i <= p <= |s|
    ensures Visible(Before(s, i, p)) == Plain(s, i, p)
  {
    if i < p {
      assert [Gap(s[i..p])][1..] == [];
    }
  }

  lemma VisibleStep(s: string, i: nat, found: nat -> Option<Capture>, p: nat, c: Capture)
    requires i <= |s| && Fits(s, found) && NextMatch(s, i, found) == Some(p) && found(p) == Some(c)
    ensures i <= p < p + Width(c) <= |s|
    ensures Visible(PiecesFrom(s, i, found)) ==
            Plain(s, i, p) + Emit(c) + Visible(PiecesFrom(s, p + Width(c), found))
  {
    ScanStep(s, i, found, p, c);
    ThreeVisible(Before(s, i, p), c, PiecesFrom(s, p + Width(c), found));
    VisibleBefore(s, i, p);
  }

  lemma ThreeVisible(a: seq<Piece>, c: Capture, b: seq<Piece>)
    ensures Visible(a + [Found(c)] + b) == Visible(a) + Emit(c) + Visible(b)
  {
    VisibleAppend(a + [Found(c)], b);
    VisibleAppend(a, [Found(c)]);
    assert Visible([Found(c)]) == Emit(c) by { assert [Found(c)][1..] == []; }
  }

  /** A match the search finds ends within the line, after it starts. */
  lemma MatchEnds(s: string, found: nat -> Option<Capture>, i: nat, p: nat, c: Capture)
    requires i <= |s| && Fits(s, found) && NextMatch(s, i, found) == Some(p) && found(p) == Some(c)
    ensures i <= p < p + Width(c) <= |s|
  {
    ScanStep(s, i, found, p, c);
  }

  /** One turn of the loop keeps "parts so far, then the rendering of the
      rest" equal to the rendering of the whole line: `before` are the
      parts when the turn starts, `after` the parts once the stretch
      before the match (when not empty) and the match's part are pushed. */
  lemma Advance(s: string, found: nat -> Option<Capture>, i: nat, p: nat, c: Capture, e: nat,
                before: seq<Token>, after: seq<Token>, all: seq<Token>)
    requires i <= |s| && Fits(s, found) && NextMatch(s, i, found) == Some(p) && found(p) == Some(c)
    requires e == p + Width(c)
    requires before + Visible(PiecesFrom(s, i, found)) == all
    requires after == (if p > i then before + [Text(s[i..p])] else before) + Emit(c)
    ensures i <= p < e <= |s|
    ensures after + Visible(PiecesFrom(s, e, found)) == all
  {
    VisibleStep(s, i, found, p, c);
    var rest := Visible(PiecesFrom(s, p + Width(c), found));
    PushPlain(s, i, p, before, if p > i then before + [Text(s[i..p])] else before);
    Lists.Regroup(before, Plain(s, i, p) + Emit(c), rest);
    Lists.Regroup(before, Plain(s, i, p), Emit(c));
  }

  /** Pushing the stretch before a match only when it is not empty adds
      exactly its plain part. */
  lemma PushPlain(s: string, i: nat, p: nat, before: seq<Token>, after: seq<Token>)
    requires i <= p <= |s|
    requires after == if p > i then before + [Text(s[i..p])] else before
    ensures after == before + Plain(s, i, p)
  {
    if p == i {
      assert before + [] == before;
    }
  }

  /** Once the search finds nothing, the rest of the line is one plain
      stretch, pushed when it is not empty, and the parts are complete. */
  lemma EndOfScan(s: string, i: nat, found: nat -> Option<Capture>, before: seq<Token>, after: seq<Token>, all: seq<Token>)
    requires i <= |s| && Fits(s, found) && NextMatch(s, i, found).None?
    requires before + Visible(PiecesFrom(s, i, found)) == all
    requires after == if i < |s| then before + [Text(s[i..])] else before
    ensures after == all
  {
    VisibleBefore(s, i, |s|);
    assert s[i..|s|] == s[i..];
    PushPlain(s, i, |s|, before, after);
  }

  /** The loop of renderMarkdown: walk the matches left to right, push the
      stretch before each match and the match's part, then the rest. */
  method ScanParts(line: string, found: nat -> Option<Capture>) returns (parts: seq<Token>)
    requires Fits(line, found)
    ensures parts == Visible(PiecesFrom(line, 0, found))
  {
    parts := [];
    var lastIndex := 0;
    var next := NextMatch(line, 0, found);
    ghost var all := Visible(PiecesFrom(line, 0, found));
    while next.Some?
      invariant lastIndex <= |line|
      invariant next == NextMatch(line, lastIndex, found)
      invariant parts + Visible(PiecesFrom(line, lastIndex, found)) == all
      decreases |line| - lastIndex
    {
      var index := next.value;
      var capture := found(index).value;
      MatchEnds(line, found, lastIndex, index, capture);
      ghost var before := parts;
      if index > lastIndex {
        parts := parts + [Text(line[lastIndex..index])];
      }
      parts := parts + Emit(capture);
      ghost var start := lastIndex;
      lastIndex := index + Width(capture);
      Advance(line, found, start, index, capture, lastIndex, before, parts, all);
      next := NextMatch(line, lastIndex, found);
    }
    ghost var before := parts;
    if lastIndex < |line| {
      parts := parts + [Text(line[lastIndex..])];
    }
    EndOfScan(line, lastIndex, found, before, parts, all);
  }

  /** renderMarkdown's parts for one line, with the markup pattern. */
  method RenderParts(line: string) returns (parts: seq<Token>)
    ensures parts == Parts(line)
  {
    MatcherSound(line);
    parts := ScanParts(line, Matcher(line));
  }

  /** The pattern finds nothing in a stretch without '*' and '['. */
  lemma MatcherFindsNothing(s: string, i: nat, j: nat)
    requires i <= j <= |s|
    requires forall q :: i <= q < j ==> s[q] != '*' && s[q] != '['
    ensures forall q :: i <= q < j ==> Matcher(s)(q).None?
  {
    forall q | i <= q < j ensures MatchAt(s, q).None? {
      NoMarkAt(s, q);
    }
  }

  /** A text with one match, at p, renders as the stretch before it, the
      match's part and the stretch after it. */
  lemma SingleMatch(s: string, found: nat -> Option<Capture>, p: nat, c: Capture)
    requires Fits(s, found) && p <= |s| && found(p) == Some(c)
    requires forall q :: 0 <= q < p ==> found(q).None?
    requires forall q :: p + Width(c) <= q <= |s| ==> found(q).None?
    ensures p + Width(c) <= |s|
    ensures Visible(PiecesFrom(s, 0, found)) == Plain(s, 0, p) + Emit(c) + Plain(s, p + Width(c), |s|)
  {
    LeadingMatch(s, found, p, c);
    QuietTail(s, p + Width(c), found);
  }

  /** When the first match is at p, the text renders as the stretch before
      it, its part, and the rendering of what follows it. */
  lemma LeadingMatch(s: string, found: nat -> Option<Capture>, p: nat, c: Capture)
    requires Fits(s, found) && p <= |s| && found(p) == Some(c)
    requires forall q :: 0 <= q < p ==> found(q).None?
    ensures p + Width(c) <= |s|
    ensures Visible(PiecesFrom(s, 0, found)) == Plain(s, 0, p) + Emit(c) + Visible(PiecesFrom(s, p + Width(c), found))
  {
    NextMatchIs(s, 0, found, p);
    VisibleStep(s, 0, found, p, c);
  }

  /** A stretch where the matcher finds nothing renders as one plain part. */
  lemma QuietTail(s: string, i: nat, found: nat -> Option<Capture>)
    requires i <= |s| && Fits(s, found)
    requires forall q :: i <= q <= |s| ==> found(q).None?
    ensures Visible(PiecesFrom(s, i, found)) == Plain(s, i, |s|)
  {
    NextMatchNone(s, i, found);
    VisibleBefore(s, i, |s|);
  }

  /** Where the matcher finds nothing more, the rest is one stretch. */
  lemma ScanRest(s: string, i: nat, found: nat -> Option<Capture>)
    requires i <= |s| && Fits(s, found)
    requires forall q :: i <= q <= |s| ==> found(q).None?
    ensures PiecesFrom(s, i, found) == Before(s, i, |s|)
  {
    NextMatchNone(s, i, found);
  }

  /** Where no '*' or '[' follows, the rest is one plain stretch. */
  lemma PlainRest(s: string, i: nat)
    requires i <= |s|
    requires forall q :: i <= q < |s| ==> s[q] != '*' && s[q] != '['
    ensures Fits(s, Matcher(s))
    ensures PiecesFrom(s, i, Matcher(s)) == Before(s, i, |s|)
  {
    MatcherSound(s);
    MatcherFindsNothing(s, i, |s|);
    NoMarkAt(s, |s|);
    ScanRest(s, i, Matcher(s));
  }

  /** Text without '*' or '[' is passed through as one plain part. */
  lemma PlainTextPassesThrough(s: string)
    requires forall m :: 0 <= m < |s| ==> s[m] != '*' && s[m] != '['
    ensures Parts(s) == if s == "" then [] else [Text(s)]
  {
    PlainRest(s, 0);
    if s != "" {
      assert s[0..|s|] == s;
      assert Visible([Gap(s)]) == [Text(s)] by { assert [Gap(s)][1..] == []; }
    }
  }

  /** A match whose capture is empty leaves no trace: "**" is an empty
      italic span, "****" an empty bold span, "[](http://x)" a link
      without text, and each renders to nothing. */
  lemma EmptyItalicVanishes()
    ensures Parts("**") == []
  {
    var a := "**";
    MatcherSound(a);
    assert BoldAt(a, 0).None? by {
      assert LazyClose(a, 2, "**").None?;
    }
    ItalicAtComplete(a, 0, "");
    NoMarkAt(a, 2);
    WholeMatch(a, Matcher(a), ItalicMatch(""));
  }

  lemma EmptyBoldVanishes()
    ensures Parts("****") == []
  {
    var b := "****";
    MatcherSound(b);
    BoldAtComplete(b, 0, "");
    NoMarkAt(b, 4);
    WholeMatch(b, Matcher(b), BoldMatch(""));
  }

  /** At a '[' only the link alternative can match. */
  lemma OpensLink(s: string, q: nat)
    requires q < |s| && s[q] == '['
    ensures !OccursAt(s, q, "*") && !OccursAt(s, q, "**") && OccursAt(s, q, "[")
  {
    OccursAtChars(s, q, "*");
    OccursAtChars(s, q, "[");
    if q + 2 <= |s| {
      OccursAtChars(s, q, "**");
    }
  }

  lemma EmptyLinkVanishes()
    ensures Parts("[](http://x)") == []
  {
    var c := "[](http://x)";
    MatcherSound(c);
    EmptyLinkMatch();
    NoMarkAt(c, 12);
    WholeMatch(c, Matcher(c), LinkMatch("", "http://x"));
  }

  /** A link renders as its whole markup, pointing at its bracket text;
      the URL is not the link's target. */
  lemma LinkShowsMarkup()
    ensures Parts("[a](http://x)") == [Link("[a](http://x)", "a")]
  {
    var c := "[a](http://x)";
    MatcherSound(c);
    LinkAMatch();
    NoMarkAt(c, 13);
    WholeMatch(c, Matcher(c), LinkMatch("a", "http://x"));
    assert Source(LinkMatch("a", "http://x")) == c;
  }

  lemma LinkAMatch()
    ensures Matcher("[a](http://x)")(0) == Some(LinkMatch("a", "http://x"))
  {
    LinkAAt();
    OpensLink("[a](http://x)", 0);
  }

  /** The link alternative at 0 takes "a" as its text and http://x as
      its URL. */
  lemma LinkAAt()
    ensures LinkAt("[a](http://x)", 0) == Some(("a", "http://x"))
  {
    var c := "[a](http://x)";
    assert OccursAt(c, 0, "[") by { assert c[0..1] == "["; }
    LinkAFrom();
    LinkATail();
    assert c[1..2] == "a";
  }

  /** The lazy link text from 1 ends at 2, where the tail starts. */
  lemma LinkAFrom()
    ensures LinkFrom("[a](http://x)", 1) == Some(2)
  {
    var c := "[a](http://x)";
    LinkATail();
    assert LinkTail(c, 1).None? by {
      OccursAtChars(c, 1, "](");
      assert c[1] != "]("[0];
    }
    assert LineEnd(c, 1) >= 2 by { assert !IsLineTerminator(c[1]); }
  }

  lemma LinkATail()
    ensures LinkTail("[a](http://x)", 2) == Some(("http://x", 13))
  {
    var c := "[a](http://x)";
    var u := "http://x";
    assert IsLinkUrl(u) by { assert u[..7] == "http://" && u[7..] == "x"; }
    assert c[2..13] == "](" + u + ")";
    LinkTailComplete(c, 2, u);
  }

  /** A match spanning the whole text renders as that match's part alone. */
  lemma WholeMatch(s: string, found: nat -> Option<Capture>, c: Capture)
    requires Fits(s, found) && found(0) == Some(c) && Width(c) == |s| && found(|s|).None?
    ensures Visible(PiecesFrom(s, 0, found)) == Emit(c)
  {
    SingleMatch(s, found, 0, c);
  }

  lemma EmptyLinkMatch()
    ensures Matcher("[](http://x)")(0) == Some(LinkMatch("", "http://x"))
  {
    var c := "[](http://x)";
    var u := "http://x";
    assert IsLinkUrl(u) by { assert u[..7] == "http://" && u[7..] == "x"; }
    assert c[1..12] == "](" + u + ")";
    LinkTailComplete(c, 1, u);
    assert LinkFrom(c, 1) == Some(1);
    OpensLink(c, 0);
  }

  /** A bold span in running text: the stretches around it stay verbatim. */
  lemma BoldInText()
    ensures Parts("a **b** c") == [Text("a "), Bold("b"), Text(" c")]
  {
    var s := "a **b** c";
    MatcherSound(s);
    BoldB();
    NoMarkAt(s, 0);
    NoMarkAt(s, 1);
    NoMarkAt(s, 7);
    NoMarkAt(s, 8);
    NoMarkAt(s, 9);
    BoldBetween(s, Matcher(s));
    assert s[..2] == "a " && s[7..] == " c";
  }

  lemma BoldBetween(s: string, found: nat -> Option<Capture>)
    requires |s| == 9 && Fits(s, found) && found(2) == Some(BoldMatch("b"))
    requires found(0).None? && found(1).None? && found(7).None? && found(8).None? && found(9).None?
    ensures Visible(PiecesFrom(s, 0, found)) == [Text(s[..2]), Bold("b"), Text(s[7..])]
  {
    SingleMatch(s, found, 2, BoldMatch("b"));
    assert s[0..2] == s[..2] && s[7..9] == s[7..];
  }

  lemma BoldB()
    ensures Matcher("a **b** c")(2) == Some(BoldMatch("b"))
  {
    var s := "a **b** c";
    assert OccursAt(s, 2, "**" + "b" + "**") by { assert s[2..7] == "**b**"; }
    assert NoBreakIn("b");
    assert !OccursAt("b*", 0, "**") by { OccursAtChars("b*", 0, "**"); assert "b*"[0] != "**"[0]; }
    BoldAtComplete(s, 2, "b");
  }

  /** The longest text a summary keeps before it is cut. */
  const SummaryLimit: nat := 150

  /** The summary cut: over 150 characters, the first 150 and "...". */
  function Truncate(text: string): (r: string)
    ensures |text| <= SummaryLimit ==> r == text
    ensures |text| > SummaryLimit ==> |r| == SummaryLimit + 3 && r[..SummaryLimit] == text[..SummaryLimit] &&
                                      r[SummaryLimit..] == "..."
  {
    if |text| > SummaryLimit then text[..SummaryLimit] + "..." else text
  }

  /** One rendered line: a spacer for a blank line, otherwise its parts. */
  datatype Block = Spacer | Paragraph(parts: seq<Token>)

  /** The per-line renderMarkdown: split on '\n', one block per line, a
      line whose trim() is empty becoming a spacer. */
  function RenderLines(text: string): (r: seq<Block>)
    ensures |r| == |Split(text, '\n')|
    ensures forall i :: 0 <= i < |r| ==> (r[i] == Spacer <==> IsBlank(Split(text, '\n')[i]))
    ensures forall i :: 0 <= i < |r| ==> r[i].Paragraph? ==> r[i].parts == Parts(Split(text, '\n')[i])
  {
    var lines := Split(text, '\n');
    seq(|lines|, i requires 0 <= i < |lines| =>
      TrimEmptyIffBlank(lines[i]);
      if Trim(lines[i]) == "" then Spacer else Paragraph(Parts(lines[i])))
  }

  /** The lines rendered are exactly the text's lines: joined with '\n'
      they give the text back, and none of them contains '\n'. */
  lemma RenderedLinesCoverText(text: string)
    ensures Join(Split(text, '\n'), '\n') == text
    ensures |RenderLines(text)| == |Split(text, '\n')|
    ensures forall i :: 0 <= i < |Split(text, '\n')| ==> '\n' !in Split(text, '\n')[i]
  {
    JoinSplit(text, '\n');
  }
}
