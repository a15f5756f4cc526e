/** A message as stretches of plain text with links between them, and what the filter makes of it. */
module MessagePieces {
  import opened TextReplace
  import opened EscapePasses
  import opened Placeholders

  /** A link by its number, its encoded address and the text it was written as. */
  datatype Link = Link(index: nat, encoded: string, original: string)

  datatype Pieces = End(plain: string) | Cut(plain: string, link: Link, rest: Pieces)

  function LinkText(link: Link): string {
    "<a href=\"" + link.encoded + "\">" + link.original + "</a>"
  }

  function Links(p: Pieces): seq<Link> {
    match p
    case End(_) => []
    case Cut(_, link, rest) => [link] + Links(rest)
  }

  /** The text as it was written. */
  function Written(p: Pieces): string {
    match p
    case End(plain) => plain
    case Cut(plain, link, rest) => plain + link.original + Written(rest)
  }

  /** The text with a placeholder for every link. */
  function Marked(p: Pieces): string {
    match p
    case End(plain) => plain
    case Cut(plain, link, rest) => plain + Placeholder(link.index) + Marked(rest)
  }

  /** What the filter is meant to produce: escaped plain text with the links between, as they are. */
  function Intended(p: Pieces): string {
    match p
    case End(plain) => Passes(plain)
    case Cut(plain, link, rest) => Passes(plain) + LinkText(link) + Intended(rest)
  }

  /** Putting the links back: one replacement of all occurrences per link, in order. */
  function PutBack(s: string, links: seq<Link>): string
    decreases |links|
  {
    if links == [] then s
    else
      PlaceholderChars(links[0].index);
      PutBack(ReplaceAll(s, Placeholder(links[0].index), LinkText(links[0])), links[1..])
  }

  /** The links are numbered upwards. */
  ghost predicate Ascending(links: seq<Link>) {
    forall i, j :: 0 <= i < j < |links| ==> links[i].index < links[j].index
  }

  // ---- putting back piece by piece ---------------------------------------------------------------

  /** The pieces of an escaped message: plain text `a`, then a link or a placeholder `b`. */
  datatype Row = Last(a: string) | Then(a: string, b: string, rest: Row)

  function Join(row: Row): string {
    match row
    case Last(a) => a
    case Then(a, b, rest) => a + (b + Join(rest))
  }

  function PutBackRow(row: Row, links: seq<Link>): Row {
    match row
    case Last(a) => Last(PutBack(a, links))
    case Then(a, b, rest) => Then(PutBack(a, links), PutBack(b, links), PutBackRow(rest, links))
  }

  function ReplaceRow(row: Row, pat: string, rep: string): Row
    requires pat != ""
  {
    match row
    case Last(a) => Last(ReplaceAll(a, pat, rep))
    case Then(a, b, rest) => Then(ReplaceAll(a, pat, rep), ReplaceAll(b, pat, rep), ReplaceRow(rest, pat, rep))
  }

  ghost predicate LinkLike(b: string) {
    b != "" && b[0] == '<' && b[|b| - 1] == '>'
  }

  ghost predicate Between(b: string) {
    LinkLike(b) || exists i: nat :: b == Placeholder(i)
  }

  ghost predicate Shaped(row: Row) {
    match row
    case Last(_) => true
    case Then(_, b, rest) => Between(b) && Shaped(rest)
  }

  lemma BetweenFollows(b: string, rest: string)
    requires Between(b)
    ensures Follows(b + rest)
  {
    if LinkLike(b) {
      assert (b + rest)[0] == '<';
    } else {
      var i: nat :| b == Placeholder(i);
      assert Placeholder(i) <= b + rest;
    }
  }

  lemma BetweenBoundary(b: string, rest: string, j: nat)
    requires Between(b)
    ensures NoStraddle(b, rest, Placeholder(j))
  {
    if LinkLike(b) {
      LinkBoundary(b, rest, j);
    } else {
      var i: nat :| b == Placeholder(i);
      PlaceholderBoundary(i, rest, j);
    }
  }

  lemma LinkTextLinkLike(link: Link)
    ensures LinkLike(LinkText(link)) && '<' in LinkText(link)
  {
    assert LinkText(link)[0] == '<';
  }

  lemma BetweenKept(b: string, link: Link)
    requires Between(b)
    ensures Placeholder(link.index) != "" && Between(ReplaceAll(b, Placeholder(link.index), LinkText(link)))
  {
    hide Placeholder;
    PlaceholderChars(link.index);
    LinkTextLinkLike(link);
    if LinkLike(b) {
      EndsKept(b, Placeholder(link.index), LinkText(link));
    } else {
      var i: nat :| b == Placeholder(i);
      ReplaceInPlaceholder(i, link.index, LinkText(link));
    }
  }

  /** Replacing a placeholder in the whole message is replacing it in every piece. */
  lemma {:induction false} ReplaceByPieces(row: Row, link: Link)
    requires Shaped(row)
    ensures Placeholder(link.index) != ""
    ensures
      var replaced := ReplaceRow(row, Placeholder(link.index), LinkText(link));
      && ReplaceAll(Join(row), Placeholder(link.index), LinkText(link)) == Join(replaced)
      && Shaped(replaced)
  {
    hide Placeholder, ReplaceAll, NoStraddle, Follows;
    PlaceholderChars(link.index);
    match row
    case Last(_) =>
    case Then(a, b, rest) =>
      ReplaceByPieces(rest, link);
      BetweenFollows(b, Join(rest));
      PlainBoundary(a, b + Join(rest), link.index);
      ReplaceSplit(a, b + Join(rest), Placeholder(link.index), LinkText(link));
      BetweenBoundary(b, Join(rest), link.index);
      ReplaceSplit(b, Join(rest), Placeholder(link.index), LinkText(link));
      BetweenKept(b, link);
  }

  lemma {:induction false} PutBackByPieces(row: Row, links: seq<Link>)
    requires Shaped(row)
    ensures PutBack(Join(row), links) == Join(PutBackRow(row, links))
    decreases |links|
  {
    hide Placeholder, ReplaceAll;
    if links == [] {
      PutBackNone(row);
    } else {
      ReplaceByPieces(row, links[0]);
      var replaced := ReplaceRow(row, Placeholder(links[0].index), LinkText(links[0]));
      PutBackByPieces(replaced, links[1..]);
      PutBackFirst(row, links);
    }
  }

  lemma {:induction false} PutBackNone(row: Row)
    ensures PutBackRow(row, []) == row
  {
    match row
    case Last(_) =>
    case Then(_, _, rest) => PutBackNone(rest);
  }

  lemma {:induction false} PutBackFirst(row: Row, links: seq<Link>)
    requires links != []
    ensures Placeholder(links[0].index) != ""
    ensures PutBackRow(ReplaceRow(row, Placeholder(links[0].index), LinkText(links[0])), links[1..])
      == PutBackRow(row, links)
  {
    hide Placeholder, ReplaceAll;
    PlaceholderChars(links[0].index);
    match row
    case Last(_) =>
    case Then(_, _, rest) => PutBackFirst(rest, links);
  }

  /** The escaped message before any link is back. */
  function EscapedRow(p: Pieces): Row {
    match p
    case End(plain) => Last(Passes(plain))
    case Cut(plain, link, rest) => Then(Passes(plain), Placeholder(link.index), EscapedRow(rest))
  }

  /** The passes leave every placeholder alone and work on the stretches between separately. */
  lemma {:induction false} PassesByPieces(p: Pieces)
    ensures Passes(Marked(p)) == Join(EscapedRow(p)) && Shaped(EscapedRow(p))
  {
    hide Placeholder, Passes;
    match p
    case End(_) =>
    case Cut(plain, link, rest) =>
      PassesByPieces(rest);
      PlaceholderChars(link.index);
      PassesAround(plain, Placeholder(link.index), Marked(rest));
      assert Between(Placeholder(link.index));
      assert Passes(plain) + Placeholder(link.index) + Join(EscapedRow(rest))
          == Passes(plain) + (Placeholder(link.index) + Join(EscapedRow(rest)));
  }

  /** What the filter produces for any message at all: every stretch and every placeholder with the
      replacements carried out in it. */
  lemma FilterByPieces(p: Pieces)
    ensures PutBack(Passes(Marked(p)), Links(p)) == Join(PutBackRow(EscapedRow(p), Links(p)))
  {
    hide Passes, PutBack;
    PassesByPieces(p);
    PutBackByPieces(EscapedRow(p), Links(p));
  }

  // ---- when the result is the intended one ---------------------------------------------------------

  /** None of `links` has its placeholder in `s`. */
  ghost predicate FreeOf(s: string, links: seq<Link>) {
    forall k :: 0 <= k < |links| ==> !Occurs(s, Placeholder(links[k].index))
  }

  /** The links of `links` that are numbered above `index`. */
  function Later(links: seq<Link>, index: nat): seq<Link> {
    if links == [] then []
    else if links[0].index > index then links
    else Later(links[1..], index)
  }

  /** No plain text holds the placeholder of one of `links`, and no link that of a later one. */
  ghost predicate Clean(p: Pieces, links: seq<Link>) {
    match p
    case End(plain) => FreeOf(plain, links)
    case Cut(plain, link, rest) =>
      FreeOf(plain, links) && FreeOf(LinkText(link), Later(links, link.index)) && Clean(rest, links)
  }

  /** Putting back changes a text only where a placeholder occurs, and then it brings in more tags. */
  lemma {:induction false} PutBackGrows(s: string, links: seq<Link>)
    ensures FreeOf(s, links) ==> PutBack(s, links) == s
    ensures Count(PutBack(s, links), '<') >= Count(s, '<')
    ensures !FreeOf(s, links) ==> Count(PutBack(s, links), '<') > Count(s, '<')
    decreases |links|
  {
    hide Placeholder, ReplaceAll, Occurs, Count;
    if links != [] {
      var pat, rep := Placeholder(links[0].index), LinkText(links[0]);
      PlaceholderChars(links[0].index);
      LinkTextLinkLike(links[0]);
      CountGrows(s, pat, rep, '<');
      PutBackGrows(ReplaceAll(s, pat, rep), links[1..]);
      if !Occurs(s, pat) {
        ReplaceNothing(s, pat, rep);
        assert FreeOf(s, links) <==> FreeOf(s, links[1..]) by {
          forall k | 0 <= k < |links| && k > 0 ensures links[k] == links[1..][k - 1] { }
        }
      }
    }
  }

  lemma EscapedFreeOf(plain: string, links: seq<Link>)
    ensures FreeOf(Passes(plain), links) <==> FreeOf(plain, links)
  {
    hide Placeholder, Occurs, Passes;
    forall k | 0 <= k < |links|
      ensures Occurs(Passes(plain), Placeholder(links[k].index)) <==> Occurs(plain, Placeholder(links[k].index))
    {
      PlaceholderChars(links[k].index);
      PassesKeepOccurrences(plain, Placeholder(links[k].index));
    }
  }

  /** A placeholder becomes its link, in which only the later links are then looked for. */
  lemma {:induction false} PlaceholderResolved(link: Link, links: seq<Link>)
    requires Ascending(links) && link in links
    ensures PutBack(Placeholder(link.index), links) == PutBack(LinkText(link), Later(links, link.index))
    decreases |links|
  {
    hide Placeholder, ReplaceAll;
    var first := links[0];
    PlaceholderChars(first.index);
    ReplaceInPlaceholder(link.index, first.index, LinkText(first));
    if first == link {
      LaterThanFirst(links);
    } else {
      assert link in links[1..] && first.index < link.index;
      PlaceholderResolved(link, links[1..]);
    }
  }

  lemma LaterThanFirst(links: seq<Link>)
    requires links != [] && Ascending(links)
    ensures Later(links, links[0].index) == links[1..]
  {
    if |links| > 1 { assert links[1..][0] == links[1]; }
  }

  /** Piece by piece, the result has at least the tags of the intended one; it is the intended one
      exactly when no stray placeholder is there. */
  lemma {:induction false} IntendedOrMore(p: Pieces, links: seq<Link>)
    requires Ascending(links) && forall l :: l in Links(p) ==> l in links
    ensures
      var result := Join(PutBackRow(EscapedRow(p), links));
      && (Clean(p, links) ==> result == Intended(p))
      && Count(result, '<') >= Count(Intended(p), '<')
      && (!Clean(p, links) ==> Count(result, '<') > Count(Intended(p), '<'))
  {
    hide Placeholder, Passes, PutBack, Later, Count, FreeOf;
    EscapedFreeOf(p.plain, links);
    PutBackGrows(Passes(p.plain), links);
    match p
    case End(_) =>
    case Cut(plain, link, rest) =>
      assert forall l :: l in Links(rest) ==> l in Links(p);
      assert link in Links(p);
      IntendedOrMore(rest, links);
      PlaceholderResolved(link, links);
      PutBackGrows(LinkText(link), Later(links, link.index));
      var a, b := PutBack(Passes(plain), links), PutBack(Placeholder(link.index), links);
      var tail := Join(PutBackRow(EscapedRow(rest), links));
      CountConcat(a, b + tail, '<');
      CountConcat(b, tail, '<');
      CountConcat(Passes(plain) + LinkText(link), Intended(rest), '<');
      CountConcat(Passes(plain), LinkText(link), '<');
      assert Passes(plain) + LinkText(link) + Intended(rest) == Passes(plain) + (LinkText(link) + Intended(rest));
  }

  /** The filter does what it is meant to exactly when no plain text holds the placeholder of a link of
      the message, and no link the placeholder of a later one. */
  lemma FilterIsIntended(p: Pieces)
    requires Ascending(Links(p))
    ensures PutBack(Passes(Marked(p)), Links(p)) == Intended(p) <==> Clean(p, Links(p))
  {
    hide Passes, PutBack, Clean;
    FilterByPieces(p);
    IntendedOrMore(p, Links(p));
  }

  // ---- a condition that is easy to see -----------------------------------------------------------

  /** Someone writes the placeholder of a link in front of the link: the link appears in both places. */
  lemma StrayPlaceholder(link: Link)
    ensures
      var p := Cut(Placeholder(link.index) + " ", link, End(""));
      && PutBack(Passes(Marked(p)), Links(p)) == LinkText(link) + " " + LinkText(link)
      && PutBack(Passes(Marked(p)), Links(p)) != Intended(p)
  {
    var w, l := Placeholder(link.index), LinkText(link);
    var p := Cut(w + " ", link, End(""));
    assert Links(p) == [link] && Marked(p) == w + " " + w by { assert w + " " + w + "" == w + " " + w; }
    StrayUnclean(link);
    FilterIsIntended(p);
    PlaceholderChars(link.index);
    StrayPasses(w);
    StrayReplaced(link.index, l);
    PutBackOne(w + " " + w, link);
  }

  lemma StrayUnclean(link: Link)
    ensures !Clean(Cut(Placeholder(link.index) + " ", link, End("")), [link])
  {
    hide Placeholder;
    var w := Placeholder(link.index);
    assert w <= (w + " ")[0..];
    assert Occurs(w + " ", Placeholder([link][0].index));
  }

  lemma PutBackOne(s: string, link: Link)
    ensures Placeholder(link.index) != ""
    ensures PutBack(s, [link]) == ReplaceAll(s, Placeholder(link.index), LinkText(link))
  {
    hide Placeholder, ReplaceAll, LinkText;
    PlaceholderChars(link.index);
    assert [link][1..] == [];
  }

  lemma StrayPasses(w: string)
    requires w != "" && Neutral(w)
    ensures Passes(w + " " + w) == w + " " + w
  {
    BlankPasses();
    hide Passes, Neutral;
    PassesAround("", w, " " + w);
    PassesAround(" ", w, "");
    assert "" + w + (" " + w) == w + " " + w && " " + w + "" == " " + w;
  }

  lemma StrayReplaced(i: nat, l: string)
    ensures Placeholder(i) != "" && ReplaceAll(Placeholder(i) + " " + Placeholder(i), Placeholder(i), l) == l + " " + l
  {
    var w := Placeholder(i);
    SpaceNot(i);
    assert ReplaceAll(" " + w, w, l) == " " + ReplaceAll(w, w, l) by { assert (" " + w)[1..] == w; }
    assert ReplaceAll("", w, l) == "";
    hide Placeholder, ReplaceAll;
    ReplaceFirst(w, " " + w, l);
    ReplaceFirst(w, "", l);
    assert w + "" == w && w + " " + w == w + (" " + w);
  }

  lemma ReplaceFirst(pat: string, rest: string, rep: string)
    requires pat != ""
    ensures ReplaceAll(pat + rest, pat, rep) == rep + ReplaceAll(rest, pat, rep)
  {
    assert (pat + rest)[|pat|..] == rest;
  }

  lemma SpaceNot(i: nat)
    ensures !(Placeholder(i) <= " " + Placeholder(i))
  {
    PlaceholderShape(i);
    assert (" " + Placeholder(i))[0] == ' ';
  }

  lemma BlankPasses()
    ensures Passes("") == "" && Passes(" ") == " "
  {
  }

  lemma OccursInConcat(a: string, x: string, b: string, w: string)
    requires Occurs(x, w)
    ensures Occurs(a + x + b, w)
  {
    var k :| 0 <= k <= |x| && w <= x[k..];
    var t := a + x + b;
    assert t[|a| + k..] == x[k..] + b;
  }

  lemma MarkInPlaceholder(s: string, i: nat)
    requires Occurs(s, Placeholder(i))
    ensures Occurs(s, MARK)
  {
    hide Decimal;
    var k :| 0 <= k <= |s| && Placeholder(i) <= s[k..];
    assert MARK <= Placeholder(i);
    assert MARK <= s[k..];
  }

  /** It is enough that the mark occurs neither in the message nor in the text of a link. */
  lemma {:induction false} UnmarkedIsClean(p: Pieces, links: seq<Link>)
    requires !Occurs(Written(p), MARK)
    requires forall l :: l in Links(p) ==> !Occurs(LinkText(l), MARK)
    ensures Clean(p, links)
  {
    hide Placeholder, Occurs;
    forall k | 0 <= k < |links| ensures !Occurs(p.plain, Placeholder(links[k].index)) {
      if Occurs(p.plain, Placeholder(links[k].index)) {
        MarkInPlaceholder(p.plain, links[k].index);
        PlainInWritten(p);
      }
    }
    match p
    case End(_) =>
    case Cut(plain, link, rest) =>
      var later := Later(links, link.index);
      assert link in Links(p);
      forall k | 0 <= k < |later| ensures !Occurs(LinkText(link), Placeholder(later[k].index)) {
        if Occurs(LinkText(link), Placeholder(later[k].index)) {
          MarkInPlaceholder(LinkText(link), later[k].index);
        }
      }
      assert forall l :: l in Links(rest) ==> l in Links(p);
      assert plain + link.original + Written(rest) + "" == Written(p);
      if Occurs(Written(rest), MARK) {
        OccursInConcat(plain + link.original, Written(rest), "", MARK);
      }
      UnmarkedIsClean(rest, links);
  }

  lemma PlainInWritten(p: Pieces)
    requires Occurs(p.plain, MARK)
    ensures Occurs(Written(p), MARK)
  {
    match p
    case End(_) =>
    case Cut(plain, link, rest) =>
      OccursInConcat("", plain, link.original + Written(rest), MARK);
      assert "" + plain + (link.original + Written(rest)) == Written(p);
  }
}
