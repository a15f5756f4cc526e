/** The filter that escapes a message and makes its URLs clickable. */
module MessageEscapeFilter {
  import opened TextReplace
  import opened EscapePasses
  import opened Placeholders
  import opened MessagePieces
  import opened TextParser

  /** What the filter asks of a URL: its scheme and its encoded form. */
  datatype UrlLibrary = UrlLibrary(scheme: string -> string, toEncoded: string -> string)

  /** The matches from number `i` on lie behind `pos`. */
  ghost predicate Ready(text: string, ms: seq<Match>, i: nat, pos: nat) {
    && i <= |ms| && pos <= |text|
    && (forall k :: 0 <= k < |ms| ==> Inside(text, 0, ms[k]))
    && (forall k :: i <= k < |ms| ==> Inside(text, pos, ms[k]))
    && (forall j, k :: 0 <= j < k < |ms| ==> Before(ms[j], ms[k]))
  }

  lemma ReadyStep(text: string, ms: seq<Match>, i: nat, pos: nat)
    requires Ready(text, ms, i, pos) && i < |ms|
    ensures Inside(text, pos, ms[i]) && Inside(text, 0, ms[i])
    ensures Ready(text, ms, i + 1, pos) && Ready(text, ms, i + 1, ms[i].pos + ms[i].length)
  {
    assert forall k :: i < k < |ms| ==> Before(ms[i], ms[k]);
  }

  /** The message from position `pos` on, cut at the URLs number `i` and up that are not mail
      addresses; a mail address stays part of the plain text. */
  ghost function PiecesFrom(text: string, ms: seq<Match>, lib: UrlLibrary, i: nat, pos: nat): Pieces
    requires Ready(text, ms, i, pos)
    decreases |ms| - i
  {
    if i == |ms| then
      End(text[pos..])
    else
      ReadyStep(text, ms, i, pos);
      if lib.scheme(FixedUrl(text, ms[i])) == "mailto" then
        PiecesFrom(text, ms, lib, i + 1, pos)
      else
        Cut(text[pos..ms[i].pos],
            Link(i, lib.toEncoded(FixedUrl(text, ms[i])), text[ms[i].pos..ms[i].pos + ms[i].length]),
            PiecesFrom(text, ms, lib, i + 1, ms[i].pos + ms[i].length))
  }

  ghost function PiecesOf(text: string, pattern: UrlPattern, lib: UrlLibrary): Pieces {
    PiecesFrom(text, MatchesFrom(text, pattern, 0), lib, 0, 0)
  }

  /** The URLs that become links. */
  ghost function LinkUrls(text: string, ms: seq<Match>, lib: UrlLibrary, i: nat): seq<string>
    requires i <= |ms| && forall k :: 0 <= k < |ms| ==> Inside(text, 0, ms[k])
    decreases |ms| - i
  {
    if i == |ms| then []
    else if lib.scheme(FixedUrl(text, ms[i])) == "mailto" then LinkUrls(text, ms, lib, i + 1)
    else [FixedUrl(text, ms[i])] + LinkUrls(text, ms, lib, i + 1)
  }

  /** The pieces are the message, cut up, and their links are numbered upwards. */
  lemma {:induction false} PiecesFaithful(text: string, ms: seq<Match>, lib: UrlLibrary, i: nat, pos: nat)
    requires Ready(text, ms, i, pos)
    ensures
      var p := PiecesFrom(text, ms, lib, i, pos);
      && Written(p) == text[pos..]
      && Ascending(Links(p))
      && forall l :: l in Links(p) ==> i <= l.index < |ms|
    decreases |ms| - i
  {
    hide Ready;
    MatchCount(text, ms, i, pos);
    if i < |ms| {
      ReadyStep(text, ms, i, pos);
      if lib.scheme(FixedUrl(text, ms[i])) == "mailto" {
        PiecesFaithful(text, ms, lib, i + 1, pos);
      } else {
        var end := ms[i].pos + ms[i].length;
        PiecesFaithful(text, ms, lib, i + 1, end);
        Split(text, pos, ms[i].pos, end);
        var p := PiecesFrom(text, ms, lib, i, pos);
        AscendingFrom(p.link, Links(p.rest));
      }
    }
  }

  lemma MatchCount(text: string, ms: seq<Match>, i: nat, pos: nat)
    requires Ready(text, ms, i, pos)
    ensures i <= |ms| && pos <= |text|
  {
  }

  lemma Split(text: string, a: nat, b: nat, c: nat)
    requires a <= b <= c <= |text|
    ensures text[a..] == text[a..b] + text[b..c] + text[c..]
  {
  }

  lemma AscendingFrom(link: Link, rest: seq<Link>)
    requires Ascending(rest) && forall l :: l in rest ==> link.index < l.index
    ensures Ascending([link] + rest)
  {
    forall k | 0 <= k < |rest| ensures rest[k] in rest { }
  }

  /** One placeholder and the link it stands for. */
  datatype Pair = Pair(placeholder: string, link: string)

  function PairsOf(links: seq<Link>): seq<Pair> {
    if links == [] then []
    else [Pair(Placeholder(links[0].index), LinkText(links[0]))] + PairsOf(links[1..])
  }

  /** The detection loop: every URL that is not a mail address makes way for a placeholder.  The text
      is then everything up to `pos` rewritten, followed by the rest untouched, so that a range of the
      original text shifted by `offset` is a range of the current text. */
  method PlacePlaceholders(text: string, pattern: UrlPattern, lib: UrlLibrary, urls0: seq<string>)
    returns (messageText: string, placeholders: seq<Pair>, urls: seq<string>)
    ensures
      var p := PiecesOf(text, pattern, lib);
      && messageText == Marked(p)
      && placeholders == PairsOf(Links(p))
    ensures urls == urls0 + LinkUrls(text, MatchesFrom(text, pattern, 0), lib, 0)
  {
    hide RangesFound, AllUrlsRepaired;
    hide MatchesFrom, Placeholder, PiecesFrom, LinkUrls, Ready, Progress, LinkText;
    var urlRanges, fixedUrls := ExtractUrlData(text, pattern, true);
    ghost var ms := MatchesFrom(text, pattern, 0);
    messageText, placeholders, urls := text, [], urls0;
    var offset: int := 0;
    ghost var rewritten := "";
    ghost var pos: nat := 0;
    AllReady(text, pattern);
    ProgressStart(text, ms, lib, urls0);
    var i := 0;
    while i < |fixedUrls|
      invariant i <= |fixedUrls| == |urlRanges| == |ms|
      invariant pos <= |text| && Ready(text, ms, i, pos)
      invariant messageText == rewritten + text[pos..]
      invariant offset == |rewritten| - pos
      invariant Progress(text, ms, lib, urls0, i, pos, rewritten, placeholders, urls)
    {
      ProgressStep(text, ms, lib, urls0, i, pos, rewritten, placeholders, urls);
      var url := fixedUrls[i];
      if lib.scheme(url) != "mailto" {
        var at, length := urlRanges[i].first + offset, urlRanges[i].second;
        RangeShifted(rewritten, text, pos, urlRanges[i].first, length);
        var originalText := messageText[at..at + length];
        var link := LinkText(Link(i, lib.toEncoded(url), originalText));
        var placeholder := Placeholder(i);
        messageText := messageText[..at] + placeholder + messageText[at + length..];
        placeholders := placeholders + [Pair(placeholder, link)];
        urls := urls + [url];
        offset := offset + |placeholder| - |originalText|;
        rewritten := rewritten + text[pos..ms[i].pos] + placeholder;
        pos := ms[i].pos + ms[i].length;
      }
      i := i + 1;
    }
    ProgressEnd(text, ms, lib, urls0, pos, rewritten, placeholders, urls);
  }

  /** What is done so far, followed by what the rest of the matches gives, is the whole result. */
  ghost predicate Progress(text: string, ms: seq<Match>, lib: UrlLibrary, urls0: seq<string>,
                           i: nat, pos: nat, rewritten: string, placeholders: seq<Pair>, urls: seq<string>)
    requires Ready(text, ms, i, pos)
  {
    ReadyStart(text, ms, i, pos);
    var p, rest := PiecesFrom(text, ms, lib, 0, 0), PiecesFrom(text, ms, lib, i, pos);
    && rewritten + Marked(rest) == Marked(p)
    && placeholders + PairsOf(Links(rest)) == PairsOf(Links(p))
    && urls + LinkUrls(text, ms, lib, i) == urls0 + LinkUrls(text, ms, lib, 0)
  }

  lemma ProgressStart(text: string, ms: seq<Match>, lib: UrlLibrary, urls0: seq<string>)
    requires Ready(text, ms, 0, 0)
    ensures text[0..] == text && Progress(text, ms, lib, urls0, 0, 0, "", [], urls0)
  {
    hide Ready;
    ReadyStart(text, ms, 0, 0);
  }

  lemma ReadyStart(text: string, ms: seq<Match>, i: nat, pos: nat)
    requires Ready(text, ms, i, pos)
    ensures Ready(text, ms, 0, 0)
  {
  }

  lemma ProgressStep(text: string, ms: seq<Match>, lib: UrlLibrary, urls0: seq<string>,
                     i: nat, pos: nat, rewritten: string, placeholders: seq<Pair>, urls: seq<string>)
    requires Ready(text, ms, i, pos) && i < |ms|
    requires Progress(text, ms, lib, urls0, i, pos, rewritten, placeholders, urls)
    ensures Inside(text, pos, ms[i]) && Inside(text, 0, ms[i])
    ensures
      var url, end := FixedUrl(text, ms[i]), ms[i].pos + ms[i].length;
      if lib.scheme(url) == "mailto" then
        Ready(text, ms, i + 1, pos) && Progress(text, ms, lib, urls0, i + 1, pos, rewritten, placeholders, urls)
      else
        var link := Link(i, lib.toEncoded(url), text[ms[i].pos..end]);
        && Ready(text, ms, i + 1, end)
        && Progress(text, ms, lib, urls0, i + 1, end, rewritten + text[pos..ms[i].pos] + Placeholder(i),
                    placeholders + [Pair(Placeholder(i), LinkText(link))], urls + [url])
  {
    hide Ready, Placeholder, LinkText, PiecesFrom, LinkUrls, Marked, Links, PairsOf, FixedUrl;
    PiecesStep(text, ms, lib, i, pos);
    ReadyStep(text, ms, i, pos);
    var rest := Marked(PiecesFrom(text, ms, lib, i + 1, ms[i].pos + ms[i].length));
    var done := text[pos..ms[i].pos] + Placeholder(i);
    assert rewritten + text[pos..ms[i].pos] + Placeholder(i) == rewritten + done;
    assert (rewritten + done) + rest == rewritten + (done + rest);
  }

  lemma ProgressEnd(text: string, ms: seq<Match>, lib: UrlLibrary, urls0: seq<string>,
                    pos: nat, rewritten: string, placeholders: seq<Pair>, urls: seq<string>)
    requires Ready(text, ms, |ms|, pos)
    requires Progress(text, ms, lib, urls0, |ms|, pos, rewritten, placeholders, urls)
    ensures Ready(text, ms, 0, 0)
    ensures
      var p := PiecesFrom(text, ms, lib, 0, 0);
      && rewritten + text[pos..] == Marked(p)
      && placeholders == PairsOf(Links(p))
      && urls == urls0 + LinkUrls(text, ms, lib, 0)
  {
    hide Ready;
    ReadyStart(text, ms, |ms|, pos);
    PiecesEnd(text, ms, lib, pos);
  }

  lemma AllReady(text: string, pattern: UrlPattern)
    ensures Ready(text, MatchesFrom(text, pattern, 0), 0, 0)
  {
    hide MatchesFrom;
  }

  /** One round of the loop on the pieces that are still to come. */
  lemma PiecesStep(text: string, ms: seq<Match>, lib: UrlLibrary, i: nat, pos: nat)
    requires Ready(text, ms, i, pos) && i < |ms|
    ensures Inside(text, pos, ms[i]) && Inside(text, 0, ms[i])
    ensures
      var url, end := FixedUrl(text, ms[i]), ms[i].pos + ms[i].length;
      var p := PiecesFrom(text, ms, lib, i, pos);
      if lib.scheme(url) == "mailto" then
        && Ready(text, ms, i + 1, pos)
        && p == PiecesFrom(text, ms, lib, i + 1, pos)
        && LinkUrls(text, ms, lib, i) == LinkUrls(text, ms, lib, i + 1)
      else
        && Ready(text, ms, i + 1, end)
        && var rest := PiecesFrom(text, ms, lib, i + 1, end);
           var link := Link(i, lib.toEncoded(url), text[ms[i].pos..end]);
        && Marked(p) == (text[pos..ms[i].pos] + Placeholder(i)) + Marked(rest)
        && PairsOf(Links(p)) == [Pair(Placeholder(i), LinkText(link))] + PairsOf(Links(rest))
        && LinkUrls(text, ms, lib, i) == [url] + LinkUrls(text, ms, lib, i + 1)
  {
    hide Placeholder, Ready, FixedUrl;
    ReadyStep(text, ms, i, pos);
  }

  lemma PiecesEnd(text: string, ms: seq<Match>, lib: UrlLibrary, pos: nat)
    requires Ready(text, ms, |ms|, pos)
    ensures
      var p := PiecesFrom(text, ms, lib, |ms|, pos);
      Marked(p) == text[pos..] && PairsOf(Links(p)) == [] && LinkUrls(text, ms, lib, |ms|) == []
  {
  }

  /** A range of the original text behind `pos`, shifted, lies in the rewritten text and holds the same
      characters; what is before and behind it is known too. */
  lemma RangeShifted(rewritten: string, text: string, pos: nat, first: nat, length: nat)
    requires pos <= first && first + length <= |text|
    ensures
      var current, at := rewritten + text[pos..], first + |rewritten| - pos;
      && at + length <= |current|
      && current[at..at + length] == text[first..first + length]
      && current[..at] == rewritten + text[pos..first]
      && current[at + length..] == text[first + length..]
  {
  }

  /** The result wanted: escaped text, and between it the URLs that are not mail addresses as links with the
      encoded repaired URL as the address and the URL as it was written as the text. */
  ghost function Rendered(text: string, ms: seq<Match>, lib: UrlLibrary, i: nat, pos: nat): string
    requires Ready(text, ms, i, pos)
    decreases |ms| - i
  {
    if i == |ms| then Passes(text[pos..])
    else
      ReadyStep(text, ms, i, pos);
      var url, end := FixedUrl(text, ms[i]), ms[i].pos + ms[i].length;
      if lib.scheme(url) == "mailto" then Rendered(text, ms, lib, i + 1, pos)
      else
        Passes(text[pos..ms[i].pos])
        + ("<a href=\"" + lib.toEncoded(url) + "\">" + text[ms[i].pos..end] + "</a>"
           + Rendered(text, ms, lib, i + 1, end))
  }

  lemma {:induction false} IntendedIsRendered(text: string, ms: seq<Match>, lib: UrlLibrary, i: nat, pos: nat)
    requires Ready(text, ms, i, pos)
    ensures Intended(PiecesFrom(text, ms, lib, i, pos)) == Rendered(text, ms, lib, i, pos)
    decreases |ms| - i
  {
    MatchCount(text, ms, i, pos);
    hide Passes, FixedUrl, Ready;
    if i < |ms| {
      ReadyStep(text, ms, i, pos);
      var url, end := FixedUrl(text, ms[i]), ms[i].pos + ms[i].length;
      if lib.scheme(url) == "mailto" {
        IntendedIsRendered(text, ms, lib, i + 1, pos);
      } else {
        IntendedIsRendered(text, ms, lib, i + 1, end);
        OneRendered(Link(i, lib.toEncoded(url), text[ms[i].pos..end]), Passes(text[pos..ms[i].pos]),
                    Rendered(text, ms, lib, i + 1, end));
      }
    }
  }

  lemma OneRendered(link: Link, before: string, rest: string)
    ensures before + LinkText(link) + rest
         == before + ("<a href=\"" + link.encoded + "\">" + link.original + "</a>" + rest)
  {
    Regroup(before, LinkText(link), rest);
  }

  lemma Regroup(a: string, b: string, c: string)
    ensures a + b + c == a + (b + c)
  {
  }

  /** The rewriting passes and then one replacement per placeholder. */
  method FilterMessage(text: string, pattern: UrlPattern, lib: UrlLibrary, urls0: seq<string>)
    returns (escapedMessage: string, urls: seq<string>)
    ensures
      var p := PiecesOf(text, pattern, lib);
      && escapedMessage == Join(PutBackRow(EscapedRow(p), Links(p)))
      && (escapedMessage == Intended(p) <==> Clean(p, Links(p)))
      && Written(p) == text
    ensures Ready(text, MatchesFrom(text, pattern, 0), 0, 0)
    ensures
      var p := PiecesOf(text, pattern, lib);
      escapedMessage == Rendered(text, MatchesFrom(text, pattern, 0), lib, 0, 0) <==> Clean(p, Links(p))
    ensures urls == urls0 + LinkUrls(text, MatchesFrom(text, pattern, 0), lib, 0)
  {
    hide MatchesFrom, Placeholder, Clean, ReplaceAll;
    var messageText, placeholders;
    messageText, placeholders, urls := PlacePlaceholders(text, pattern, lib, urls0);
    ghost var p := PiecesOf(text, pattern, lib);
    PiecesFaithful(text, MatchesFrom(text, pattern, 0), lib, 0, 0);

    AllReady(text, pattern);
    IntendedIsRendered(text, MatchesFrom(text, pattern, 0), lib, 0, 0);

    escapedMessage := HtmlEscaped(messageText);
    escapedMessage := ReplaceAll(escapedMessage, "\n ", "<br/>&nbsp;");
    escapedMessage := ReplaceAll(escapedMessage, "\n", "<br/>");
    escapedMessage := ReplaceAll(escapedMessage, "\r", "<br/>");
    escapedMessage := ReplaceAll(escapedMessage, "\t", "&nbsp; &nbsp; ");
    escapedMessage := ReplaceAll(escapedMessage, "  ", " &nbsp;");
    assert escapedMessage == Passes(Marked(p));

    escapedMessage := PutLinksBack(escapedMessage, placeholders, Links(p));
    FilterByPieces(p);
    FilterIsIntended(p);
  }

  method PutLinksBack(text: string, placeholders: seq<Pair>, ghost links: seq<Link>) returns (escapedMessage: string)
    requires placeholders == PairsOf(links)
    ensures escapedMessage == PutBack(text, links)
  {
    hide Placeholder, ReplaceAll;
    escapedMessage := text;
    var i := 0;
    PairsFrom(links);
    while i < |placeholders|
      invariant i <= |placeholders| == |links|
      invariant PutBack(escapedMessage, links[i..]) == PutBack(text, links)
    {
      assert links[i..][0] == links[i] && links[i..][1..] == links[i + 1..];
      PlaceholderChars(links[i].index);
      escapedMessage := ReplaceAll(escapedMessage, placeholders[i].placeholder, placeholders[i].link);
      i := i + 1;
    }
  }

  lemma {:induction false} PairsFrom(links: seq<Link>)
    ensures |PairsOf(links)| == |links|
    ensures forall k :: 0 <= k < |links| ==>
      PairsOf(links)[k] == Pair(Placeholder(links[k].index), LinkText(links[k]))
  {
    hide Placeholder;
    if links != [] { PairsFrom(links[1..]); }
  }

  /** An ordinary message: the mark of the placeholders is neither in it nor in one of its links. */
  lemma OrdinaryMessage(text: string, pattern: UrlPattern, lib: UrlLibrary)
    requires !Occurs(text, MARK)
    requires forall l :: l in Links(PiecesOf(text, pattern, lib)) ==> !Occurs(LinkText(l), MARK)
    ensures var p := PiecesOf(text, pattern, lib); Clean(p, Links(p))
  {
    hide MatchesFrom, Clean;
    PiecesFaithful(text, MatchesFrom(text, pattern, 0), lib, 0, 0);
    UnmarkedIsClean(PiecesOf(text, pattern, lib), Links(PiecesOf(text, pattern, lib)));
  }

  /** A message without links is just escaped. */
  lemma WithoutLinks(text: string, pattern: UrlPattern, lib: UrlLibrary)
    requires MatchesFrom(text, pattern, 0) == []
    ensures var p := PiecesOf(text, pattern, lib); Join(PutBackRow(EscapedRow(p), Links(p))) == Passes(text)
  {
    assert text[0..] == text;
  }

  /** A pattern that finds what is at one place. */
  function FindsAt(first: nat, length: nat): UrlPattern
    requires length > 0
  {
    (text: string, pos: nat) =>
      if pos <= first && first + length <= |text| then Match(first, length, "", "http://") else NoMatch
  }

  /** Someone writes a placeholder, a space and a link: the link comes out twice. */
  method HandwrittenPlaceholder(url: string, lib: UrlLibrary) returns (escapedMessage: string)
    requires url != "" && lib.scheme(url) != "mailto"
    ensures
      var text, pattern := Placeholder(0) + " " + url, FindsAt(|Placeholder(0)| + 1, |url|);
      var link := LinkText(Link(0, lib.toEncoded(url), url));
      && escapedMessage == link + " " + link
      && escapedMessage != Intended(PiecesOf(text, pattern, lib))
  {
    var text, pattern := Placeholder(0) + " " + url, FindsAt(|Placeholder(0)| + 1, |url|);
    OneLink(url, lib);
    ghost var p := PiecesOf(text, pattern, lib);
    StrayPlaceholder(Link(0, lib.toEncoded(url), url));
    FilterByPieces(p);
    var urls;
    escapedMessage, urls := FilterMessage(text, pattern, lib, []);
  }

  lemma OneLink(url: string, lib: UrlLibrary)
    requires url != "" && lib.scheme(url) != "mailto"
    ensures
      PiecesOf(Placeholder(0) + " " + url, FindsAt(|Placeholder(0)| + 1, |url|), lib)
      == Cut(Placeholder(0) + " ", Link(0, lib.toEncoded(url), url), End(""))
  {
    hide Placeholder;
    var before := Placeholder(0) + " ";
    var text, pattern := before + url, FindsAt(|before|, |url|);
    var m := Match(|before|, |url|, "", "http://");
    assert MatchesFrom(text, pattern, |text|) == [];
    assert MatchesFrom(text, pattern, 0) == [m];
    assert text[|before|..|text|] == url && FixedUrl(text, m) == url;
    assert text[0..|before|] == before && text[|text|..] == "";
    var ms := [m];
    assert Ready(text, ms, 0, 0) && Ready(text, ms, 1, |text|);
    assert PiecesFrom(text, ms, lib, 1, |text|) == End("");
    hide MatchesFrom;
    assert PiecesFrom(text, ms, lib, 0, 0)
      == Cut(before, Link(0, lib.toEncoded(url), url), PiecesFrom(text, ms, lib, 1, |text|));
  }
}
