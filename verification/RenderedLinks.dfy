/** Reading a filtered message the way a browser does: which links it has, and what is left without tags. */
module RenderedLinks {
  import opened EscapePasses
  import opened TextParser
  import opened MessagePieces
  import opened MessageEscapeFilter

  datatype Anchor = Anchor(href: string, shown: string)

  /** The text before the first `c`. */
  function UpToChar(s: string, c: char): (r: string)
    ensures |r| <= |s| && r <= s && c !in r
    ensures |r| < |s| ==> s[|r|] == c
  {
    if s == "" || s[0] == c then "" else [s[0]] + UpToChar(s[1..], c)
  }

  /** The links: an address up to the closing quote, and the text up to the next tag. */
  function Anchors(s: string): seq<Anchor>
    decreases |s|
  {
    if s == "" then []
    else if "<a href=\"" <= s then
      var href := UpToChar(s[9..], '"');
      var inside := s[9 + |href|..];
      if |inside| < 2 then [] else
      var shown := UpToChar(inside[2..], '<');
      [Anchor(href, shown)] + Anchors(inside[2 + |shown|..])
    else Anchors(s[1..])
  }

  /** The text without the tags of links. */
  function Untagged(s: string): string
    decreases |s|
  {
    if s == "" then ""
    else if "<a href=\"" <= s then
      var inside := s[9 + |UpToChar(s[9..], '"')|..];
      if |inside| < 2 then "" else Untagged(inside[2..])
    else if "</a>" <= s then Untagged(s[4..])
    else [s[0]] + Untagged(s[1..])
  }

  /** No tag but line breaks. */
  ghost predicate Tagless(s: string) {
    forall k :: 0 <= k < |s| && s[k] == '<' ==> k + 1 < |s| && s[k + 1] == 'b'
  }

  lemma {:induction false} TaglessSkipped(a: string, b: string)
    requires Tagless(a)
    ensures Anchors(a + b) == Anchors(b) && Untagged(a + b) == a + Untagged(b)
  {
    hide Anchors, Untagged;
    if a == "" {
      assert a + b == b;
    } else {
      TaglessRest(a);
      assert (a + b)[0] == a[0] && (a + b)[1..] == a[1..] + b && (|a| > 1 ==> (a + b)[1] == a[1]);
      NoTagHere(a + b);
      hide Tagless;
      TaglessSkipped(a[1..], b);
      assert [a[0]] + (a[1..] + Untagged(b)) == a + Untagged(b);
    }
  }

  lemma TaglessRest(a: string)
    requires a != "" && Tagless(a)
    ensures Tagless(a[1..])
  {
    forall k | 0 <= k < |a[1..]| && a[1..][k] == '<' ensures k + 1 < |a[1..]| && a[1..][k + 1] == 'b' {
      assert a[k + 1] == '<';
    }
  }

  lemma BeginsLike(tag: string, s: string)
    requires |tag| >= 2
    ensures tag <= s ==> |s| >= 2 && s[0] == tag[0] && s[1] == tag[1]
  {
  }

  lemma NoTagHere(s: string)
    requires s != "" && (s[0] == '<' ==> |s| > 1 && s[1] != 'a' && s[1] != '/')
    ensures Anchors(s) == Anchors(s[1..]) && Untagged(s) == [s[0]] + Untagged(s[1..])
  {
    BeginsLike("<a href=\"", s);
    BeginsLike("</a>", s);
    hide UpToChar;
  }

  /** What the passes produce has no tags but line breaks. */
  lemma {:induction false} EncodedTagless(s: string)
    requires Encoded(s)
    ensures Tagless(s)
    decreases |s|
  {
    if s != "" {
      hide Encoded, Token, Step, Tagless;
      DecodeStep(s);
      var n := Step(s);
      EncodedTagless(s[n..]);
      TokenTagless(s);
      TwoTagless(s, n);
    }
  }

  lemma TwoTagless(s: string, n: nat)
    requires n <= |s| && Tagless(s[n..])
    requires forall k :: 0 <= k < n && s[k] == '<' ==> k + 1 < |s| && s[k + 1] == 'b'
    ensures Tagless(s)
  {
    var rest := s[n..];
    forall k | 0 <= k < |s| && s[k] == '<' ensures k + 1 < |s| && s[k + 1] == 'b' {
      if k >= n { assert rest[k - n] == '<'; }
    }
  }

  lemma TokenTagless(s: string)
    requires s != "" && (Token(s) != "" || s[0] !in "&<>\"")
    ensures forall k :: 0 <= k < Step(s) && s[k] == '<' ==> k + 1 < |s| && s[k + 1] == 'b'
  {
    var t := Token(s);
    if t != "" {
      assert forall k :: 0 <= k < |t| ==> s[k] == t[k];
      assert forall k :: 0 <= k < |t| && t[k] == '<' ==> k + 1 < |t| && t[k + 1] == 'b';
    }
  }

  lemma {:induction false} UpToCharIs(a: string, c: char, b: string)
    requires c !in a
    ensures UpToChar(a + [c] + b, c) == a
  {
    if a == "" {
      assert a + [c] + b == [c] + b;
    } else {
      assert (a + [c] + b)[1..] == a[1..] + [c] + b;
      UpToCharIs(a[1..], c, b);
    }
  }

  /** A link is read back as it was put together. */
  lemma AnchorRead(href: string, shown: string, rest: string)
    requires '"' !in href && '<' !in shown
    ensures
      var s := "<a href=\"" + href + "\">" + shown + "</a>" + rest;
      && Anchors(s) == [Anchor(href, shown)] + Anchors(rest)
      && Untagged(s) == shown + Untagged(rest)
  {
    hide Anchors, Untagged, UpToChar, Tagless;
    var closing := "</a>" + rest;
    var inside := "\">" + (shown + closing);
    var s := "<a href=\"" + href + "\">" + shown + "</a>" + rest;
    AnchorParts(href, shown, rest);
    UpToCharIs(href, '"', ">" + (shown + closing));
    UpToCharIs(shown, '<', "/a>" + rest);
    ClosingSkipped(rest);
    ShownTagless(shown);
    TaglessSkipped(shown, closing);
    OpeningRead(s, href, shown, inside);
  }

  lemma AnchorParts(href: string, shown: string, rest: string)
    ensures
      var closing := "</a>" + rest;
      var inside := "\">" + (shown + closing);
      var s := "<a href=\"" + href + "\">" + shown + "</a>" + rest;
      && "<a href=\"" <= s && s[9..] == href + ['"'] + (">" + (shown + closing)) && s[9 + |href|..] == inside
      && |inside| >= 2 && inside[2..] == shown + closing && shown + closing == shown + ['<'] + ("/a>" + rest)
      && inside[2 + |shown|..] == closing
  {
    var open, quote, closing := "<a href=\"", "\">", "</a>" + rest;
    Regroup(open + href + quote + shown, "</a>", rest);
    FiveParts(open, href, quote, shown, closing);
    TwoPrefixes(open, href, quote + (shown + closing));
    TwoPrefixes(quote, shown, closing);
    QuoteFirst(shown + closing);
    Regroup(href, ['"'], ">" + (shown + closing));
    BracketFirst(rest);
    Regroup(shown, ['<'], "/a>" + rest);
  }

  lemma QuoteFirst(x: string)
    ensures "\">" + x == ['"'] + (">" + x)
  {
  }

  lemma BracketFirst(x: string)
    ensures "</a>" + x == ['<'] + ("/a>" + x)
  {
  }

  lemma TwoPrefixes(a: string, b: string, c: string)
    ensures a <= a + (b + c) && (a + (b + c))[|a|..] == b + c && (a + (b + c))[|a| + |b|..] == c
  {
  }

  lemma FiveParts(a: string, b: string, c: string, d: string, e: string)
    ensures a + b + c + d + e == a + (b + (c + (d + e)))
  {
    Regroup(a + b + c, d, e);
    Regroup(a + b, c, d + e);
    Regroup(a, b, c + (d + e));
  }

  lemma ShownTagless(shown: string)
    requires '<' !in shown
    ensures Tagless(shown)
  {
  }

  lemma OpeningRead(s: string, href: string, shown: string, inside: string)
    requires "<a href=\"" <= s && UpToChar(s[9..], '"') == href && s[9 + |href|..] == inside && |inside| >= 2
    requires UpToChar(inside[2..], '<') == shown
    ensures Anchors(s) == [Anchor(href, shown)] + Anchors(inside[2 + |shown|..])
    ensures Untagged(s) == Untagged(inside[2..])
  {
    hide UpToChar;
  }

  lemma ClosingSkipped(rest: string)
    ensures Anchors("</a>" + rest) == Anchors(rest) && Untagged("</a>" + rest) == Untagged(rest)
  {
    var s := "</a>" + rest;
    assert s[1] == '/' && "<a href=\""[1] == 'a';
    assert s[4..] == rest && s[1..] == "/a>" + rest;
    assert Tagless("/a>");
    TaglessSkipped("/a>", rest);
  }

  // ---- the whole message ---------------------------------------------------------------------------

  /** The encoded addresses have no quotes, and the URLs no angle brackets. */
  ghost predicate Quotable(text: string, ms: seq<Match>, lib: UrlLibrary)
    requires forall k :: 0 <= k < |ms| ==> Inside(text, 0, ms[k])
  {
    forall k :: 0 <= k < |ms| ==>
      && '"' !in lib.toEncoded(FixedUrl(text, ms[k]))
      && '<' !in text[ms[k].pos..ms[k].pos + ms[k].length]
  }

  /** The links wanted, in order. */
  ghost function AnchorsWanted(text: string, ms: seq<Match>, lib: UrlLibrary, i: nat): seq<Anchor>
    requires i <= |ms| && forall k :: 0 <= k < |ms| ==> Inside(text, 0, ms[k])
    decreases |ms| - i
  {
    if i == |ms| then []
    else if lib.scheme(FixedUrl(text, ms[i])) == "mailto" then AnchorsWanted(text, ms, lib, i + 1)
    else
      [Anchor(lib.toEncoded(FixedUrl(text, ms[i])), text[ms[i].pos..ms[i].pos + ms[i].length])]
      + AnchorsWanted(text, ms, lib, i + 1)
  }

  /** The text wanted: escaped, except for the URLs that became links, which are as they were written. */
  ghost function TextWanted(text: string, ms: seq<Match>, lib: UrlLibrary, i: nat, pos: nat): string
    requires Ready(text, ms, i, pos)
    decreases |ms| - i
  {
    if i == |ms| then Passes(text[pos..])
    else
      ReadyStep(text, ms, i, pos);
      var end := ms[i].pos + ms[i].length;
      if lib.scheme(FixedUrl(text, ms[i])) == "mailto" then TextWanted(text, ms, lib, i + 1, pos)
      else Passes(text[pos..ms[i].pos]) + (text[ms[i].pos..end] + TextWanted(text, ms, lib, i + 1, end))
  }

  function Tagged(before: string, href: string, shown: string, rest: string): string {
    before + ("<a href=\"" + href + "\">" + shown + "</a>" + rest)
  }

  lemma WantedStep(text: string, ms: seq<Match>, lib: UrlLibrary, i: nat, pos: nat)
    requires Ready(text, ms, i, pos) && i < |ms|
    ensures Inside(text, pos, ms[i])
    ensures
      var url, end := FixedUrl(text, ms[i]), ms[i].pos + ms[i].length;
      if lib.scheme(url) == "mailto" then
        && Ready(text, ms, i + 1, pos)
        && Rendered(text, ms, lib, i, pos) == Rendered(text, ms, lib, i + 1, pos)
        && AnchorsWanted(text, ms, lib, i) == AnchorsWanted(text, ms, lib, i + 1)
        && TextWanted(text, ms, lib, i, pos) == TextWanted(text, ms, lib, i + 1, pos)
      else
        && Ready(text, ms, i + 1, end)
        && Rendered(text, ms, lib, i, pos) ==
             Tagged(Passes(text[pos..ms[i].pos]), lib.toEncoded(url), text[ms[i].pos..end],
                    Rendered(text, ms, lib, i + 1, end))
        && AnchorsWanted(text, ms, lib, i) ==
             [Anchor(lib.toEncoded(url), text[ms[i].pos..end])] + AnchorsWanted(text, ms, lib, i + 1)
        && TextWanted(text, ms, lib, i, pos) ==
             Passes(text[pos..ms[i].pos]) + (text[ms[i].pos..end] + TextWanted(text, ms, lib, i + 1, end))
  {
    hide Passes, FixedUrl;
    ReadyStep(text, ms, i, pos);
  }

  ghost predicate ReadsBack(text: string, ms: seq<Match>, lib: UrlLibrary, i: nat, pos: nat)
    requires Ready(text, ms, i, pos)
  {
    && Anchors(Rendered(text, ms, lib, i, pos)) == AnchorsWanted(text, ms, lib, i)
    && Untagged(Rendered(text, ms, lib, i, pos)) == TextWanted(text, ms, lib, i, pos)
  }

  lemma WantedEnd(text: string, ms: seq<Match>, lib: UrlLibrary, pos: nat)
    requires Ready(text, ms, |ms|, pos)
    ensures ReadsBack(text, ms, lib, |ms|, pos)
  {
    hide Passes, FixedUrl, Anchors, Untagged, Encoded, Tagless;
    PassesRoundTrip(text[pos..]);
    EncodedTagless(Passes(text[pos..]));
    TaglessSkipped(Passes(text[pos..]), "");
    assert Passes(text[pos..]) + "" == Passes(text[pos..]);
    NothingRead();
  }

  lemma ReadBackStep(text: string, ms: seq<Match>, lib: UrlLibrary, i: nat, pos: nat) returns (next: nat)
    requires Ready(text, ms, i, pos) && i < |ms|
    requires Quotable(text, ms, lib)
    ensures Ready(text, ms, i + 1, next)
    ensures ReadsBack(text, ms, lib, i + 1, next) ==> ReadsBack(text, ms, lib, i, pos)
  {
    hide Passes, FixedUrl, Anchors, Untagged, Quotable, Rendered, AnchorsWanted, TextWanted, Tagged, Ready;
    QuotableAt(text, ms, lib, i, pos);
    WantedStep(text, ms, lib, i, pos);
    var url, end := FixedUrl(text, ms[i]), ms[i].pos + ms[i].length;
    next := pos;
    if lib.scheme(url) != "mailto" {
      next := end;
      ReadStep(text[pos..ms[i].pos], lib.toEncoded(url), text[ms[i].pos..end], Rendered(text, ms, lib, i + 1, end));
    }
  }

  /** Reading the rendered message gives exactly the links and the text wanted. */
  lemma {:induction false} RenderedReadBack(text: string, ms: seq<Match>, lib: UrlLibrary, i: nat, pos: nat)
    requires Ready(text, ms, i, pos)
    requires Quotable(text, ms, lib)
    ensures ReadsBack(text, ms, lib, i, pos)
    decreases |ms| - i
  {
    hide Quotable, ReadsBack, FixedUrl, Ready, Inside;
    MatchCount(text, ms, i, pos);
    if i == |ms| {
      WantedEnd(text, ms, lib, pos);
    } else {
      var next := ReadBackStep(text, ms, lib, i, pos);
      RenderedReadBack(text, ms, lib, i + 1, next);
    }
  }

  lemma QuotableAt(text: string, ms: seq<Match>, lib: UrlLibrary, i: nat, pos: nat)
    requires Ready(text, ms, i, pos) && i < |ms|
    requires Quotable(text, ms, lib)
    ensures Inside(text, 0, ms[i])
    ensures '"' !in lib.toEncoded(FixedUrl(text, ms[i])) && '<' !in text[ms[i].pos..ms[i].pos + ms[i].length]
  {
  }

  lemma ReadStep(before: string, href: string, shown: string, rest: string)
    requires '"' !in href && '<' !in shown
    ensures
      var s := Tagged(Passes(before), href, shown, rest);
      && Anchors(s) == [Anchor(href, shown)] + Anchors(rest)
      && Untagged(s) == Passes(before) + (shown + Untagged(rest))
  {
    hide Passes, Anchors, Untagged, Encoded, Tagless;
    PassesRoundTrip(before);
    EncodedTagless(Passes(before));
    AnchorRead(href, shown, rest);
    TaglessSkipped(Passes(before), "<a href=\"" + href + "\">" + shown + "</a>" + rest);
  }

  lemma NothingRead()
    ensures Anchors("") == [] && Untagged("") == ""
  {
  }

  /** A message without stray placeholders, filtered and read back. */
  method FilterAndRead(text: string, pattern: UrlPattern, lib: UrlLibrary) returns (anchors: seq<Anchor>, plain: string)
    requires var p := PiecesOf(text, pattern, lib); Clean(p, Links(p))
    requires Quotable(text, MatchesFrom(text, pattern, 0), lib)
    ensures Ready(text, MatchesFrom(text, pattern, 0), 0, 0)
    ensures anchors == AnchorsWanted(text, MatchesFrom(text, pattern, 0), lib, 0)
    ensures plain == TextWanted(text, MatchesFrom(text, pattern, 0), lib, 0, 0)
  {
    hide MatchesFrom, Clean, Quotable, Anchors, Untagged;
    var escapedMessage, urls := FilterMessage(text, pattern, lib, []);
    RenderedReadBack(text, MatchesFrom(text, pattern, 0), lib, 0, 0);
    anchors, plain := Anchors(escapedMessage), Untagged(escapedMessage);
  }
}
