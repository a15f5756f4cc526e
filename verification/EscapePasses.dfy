/** Making a message safe to show as HTML: escaping, then the passes that keep its white space. */
module EscapePasses {
  import opened TextReplace

  function EscapeChar(c: char): string {
    if c == '<' then "&lt;" else if c == '>' then "&gt;"
    else if c == '&' then "&amp;" else if c == '"' then "&quot;" else [c]
  }

  function HtmlEscaped(s: string): string {
    if s == "" then "" else EscapeChar(s[0]) + HtmlEscaped(s[1..])
  }

  /** The white space passes, in the order of the filter. */
  function WhiteSpace(s: string): string {
    var indented := ReplaceAll(s, "\n ", "<br/>&nbsp;");
    var lines := ReplaceAll(indented, "\n", "<br/>");
    var returns_ := ReplaceAll(lines, "\r", "<br/>");
    var tabs := ReplaceAll(returns_, "\t", "&nbsp; &nbsp; ");
    ReplaceAll(tabs, "  ", " &nbsp;")
  }

  function Passes(s: string): string {
    WhiteSpace(HtmlEscaped(s))
  }

  // ---- reading the result back ---------------------------------------------------------------

  /** The entity or tag that `s` begins with, if any. */
  function Token(s: string): (t: string)
    ensures t <= s
    ensures t == "" || t in {"&lt;", "&gt;", "&amp;", "&quot;", "&nbsp;", "<br/>"}
  {
    if "&lt;" <= s then "&lt;" else if "&gt;" <= s then "&gt;"
    else if "&amp;" <= s then "&amp;" else if "&quot;" <= s then "&quot;"
    else if "&nbsp;" <= s then "&nbsp;" else if "<br/>" <= s then "<br/>"
    else ""
  }

  function Meaning(token: string): string {
    if token == "&lt;" then "<" else if token == "&gt;" then ">"
    else if token == "&amp;" then "&" else if token == "&quot;" then "\""
    else if token == "&nbsp;" then " " else "\n"
  }

  function PlainMeaning(c: char): string {
    if c == '\r' then "\n" else if c == '\t' then "    " else [c]
  }

  function Decode(s: string): string {
    if s == "" then ""
    else if Token(s) != "" then Meaning(Token(s)) + Decode(s[|Token(s)|..])
    else PlainMeaning(s[0]) + Decode(s[1..])
  }

  /** The text as a reader of the result sees it. */
  function Normalised(s: string): string {
    if s == "" then "" else PlainMeaning(s[0]) + Normalised(s[1..])
  }

  /** Nothing but known entities, line breaks and plain characters. */
  ghost predicate Encoded(s: string) {
    s == "" ||
    if Token(s) != "" then Encoded(s[|Token(s)|..])
    else s[0] !in "&<>\"" && Encoded(s[1..])
  }

  function Step(s: string): (n: nat)
    requires s != ""
    ensures 0 < n <= |s|
  {
    if Token(s) != "" then |Token(s)| else 1
  }

  function StepMeaning(s: string): string
    requires s != ""
  {
    if Token(s) != "" then Meaning(Token(s)) else PlainMeaning(s[0])
  }

  lemma DecodeStep(s: string)
    requires s != ""
    ensures Decode(s) == StepMeaning(s) + Decode(s[Step(s)..])
    ensures Encoded(s) <==> (Token(s) != "" || s[0] !in "&<>\"") && Encoded(s[Step(s)..])
  {
    hide Token, Meaning, PlainMeaning;
  }

  lemma StepConcat(u: string, v: string)
    requires u != "" && Encoded(u)
    ensures Token(u + v) == Token(u) && Step(u + v) == Step(u) && StepMeaning(u + v) == StepMeaning(u)
  {
    assert Token(u) != "" || u[0] !in "&<>\"" by { DecodeStep(u); }
    hide Token, Meaning, PlainMeaning, Encoded, Decode;
    TokenConcat(u, v);
    FirstOfConcat(u, v);
  }

  lemma FirstOfConcat(u: string, v: string)
    requires u != ""
    ensures (u + v)[0] == u[0]
  {
  }

  lemma RestOfConcat(u: string, v: string, n: nat)
    requires n <= |u|
    ensures (u + v)[n..] == u[n..] + v
  {
  }

  lemma ThreeParts(a: string, b: string, c: string)
    ensures a + (b + c) == (a + b) + c
  {
  }

  lemma {:induction false} DecodeConcat(u: string, v: string)
    requires Encoded(u)
    ensures Decode(u + v) == Decode(u) + Decode(v)
    ensures Encoded(u + v) <==> Encoded(v)
    decreases |u|
  {
    if u == "" {
      assert u + v == v;
    } else {
      hide Decode, Encoded, Token, Step, StepMeaning;
      StepConcat(u, v);
      DecodeStep(u);
      DecodeStep(u + v);
      RestOfConcat(u, v, Step(u));
      DecodeConcat(u[Step(u)..], v);
      FirstOfConcat(u, v);
      ThreeParts(StepMeaning(u), Decode(u[Step(u)..]), Decode(v));
    }
  }

  lemma TokenConcat(u: string, v: string)
    requires u != ""
    requires Token(u) != "" || u[0] !in "&<>\""
    ensures Token(u + v) == Token(u)
  {
    assert (u + v)[0] == u[0];
    if Token(u) != "" {
      var t := Token(u);
      assert t <= u + v;
      assert (u + v)[..|t|] == u[..|t|];
      assert (u + v)[1] == u[1] && (u + v)[2] == u[2];
    }
  }

  lemma {:induction false} EscapeDecodes(s: string)
    ensures Encoded(HtmlEscaped(s))
    ensures Decode(HtmlEscaped(s)) == Normalised(s)
  {
    if s != "" {
      EscapeDecodes(s[1..]);
      EscapedChar(s[0]);
      DecodeConcat(EscapeChar(s[0]), HtmlEscaped(s[1..]));
    }
  }

  lemma EscapedChar(c: char)
    ensures Encoded(EscapeChar(c)) && Decode(EscapeChar(c)) == PlainMeaning(c)
  {
    var e := EscapeChar(c);
    if c in "<>&\"" {
      TokenAlone(e);
    } else {
      assert e[0] == c && e[1..] == "";
    }
  }

  ghost predicate Blank(s: string) {
    forall c :: c in s ==> c in " \n\r\t"
  }

  lemma BlankFirst(s: string)
    requires s != "" && Blank(s)
    ensures Token(s) == "" && s[0] !in "&<>\""
  {
    assert s[0] in s;
  }

  lemma {:induction false} BlankEncoded(s: string)
    requires Blank(s)
    ensures Encoded(s)
  {
    if s != "" {
      assert s[0] in s;
      BlankEncoded(s[1..]);
      hide Token, Encoded;
      BlankFirst(s);
      DecodeStep(s);
    }
  }

  /** A pass that puts encoded text for white space of the same meaning changes no meaning. */
  lemma {:induction false} PassDecodes(s: string, pat: string, rep: string)
    requires Encoded(s) && pat != "" && Blank(pat)
    requires Encoded(rep) && Decode(rep) == Decode(pat)
    ensures Encoded(ReplaceAll(s, pat, rep))
    ensures Decode(ReplaceAll(s, pat, rep)) == Decode(s)
    decreases |s|
  {
    hide Token, Blank, Decode, Encoded;
    if s == "" {
    } else if pat <= s {
      var rest := s[|pat|..];
      assert s == pat + rest;
      BlankEncoded(pat);
      DecodeConcat(pat, rest);
      PassDecodes(rest, pat, rep);
      DecodeConcat(rep, ReplaceAll(rest, pat, rep));
    } else if Token(s) != "" {
      DecodeStep(s);
      var t := Token(s);
      var rest := s[|t|..];
      assert s == t + rest;
      PassDecodes(rest, pat, rep);
      PassToken(t, rest, pat, rep);
    } else {
      DecodeStep(s);
      assert s == [s[0]] + s[1..];
      PassDecodes(s[1..], pat, rep);
      PassPlain(s[0], s[1..], ReplaceAll(s[1..], pat, rep));
    }
  }

  lemma PassPlain(c: char, rest: string, done: string)
    requires c !in "&<>\"" && Encoded(rest) && Encoded(done) && Decode(done) == Decode(rest)
    ensures Encoded([c] + done) && Decode([c] + done) == Decode([c] + rest)
  {
    PlainAlone(c);
    DecodeConcat([c], done);
    DecodeConcat([c], rest);
  }

  lemma PassToken(t: string, rest: string, pat: string, rep: string)
    requires t in {"&lt;", "&gt;", "&amp;", "&quot;", "&nbsp;", "<br/>"}
    requires pat != "" && Blank(pat)
    requires Encoded(ReplaceAll(rest, pat, rep)) && Decode(ReplaceAll(rest, pat, rep)) == Decode(rest)
    ensures Encoded(ReplaceAll(t + rest, pat, rep))
    ensures Decode(ReplaceAll(t + rest, pat, rep)) == Decode(t + rest)
  {
    hide ReplaceAll, Encoded, Decode, Token;
    assert pat[0] in pat;
    ReplaceSkips(t, rest, pat, rep);
    TokenAlone(t);
    DecodeConcat(t, ReplaceAll(rest, pat, rep));
    DecodeConcat(t, rest);
  }

  lemma TokenAlone(t: string)
    requires t in {"&lt;", "&gt;", "&amp;", "&quot;", "&nbsp;", "<br/>"}
    ensures Token(t) == t && Encoded(t) && Decode(t) == Meaning(t)
  {
    assert t[|t|..] == "";
    assert t[..|t|] == t;
    TokenByName(t);
  }

  lemma TokenByName(t: string)
    requires t in {"&lt;", "&gt;", "&amp;", "&quot;", "&nbsp;", "<br/>"}
    ensures Token(t) == t
  {
    if t == "&lt;" {
    } else if t == "&gt;" {
      assert t[1] == 'g' && "&lt;"[1] == 'l';
    } else if t == "&amp;" {
      assert t[1] == 'a' && "&lt;"[1] == 'l' && "&gt;"[1] == 'g';
    } else if t == "&quot;" {
      assert t[1] == 'q' && "&lt;"[1] == 'l' && "&gt;"[1] == 'g' && "&amp;"[1] == 'a';
    } else if t == "&nbsp;" {
      assert t[1] == 'n' && "&lt;"[1] == 'l' && "&gt;"[1] == 'g' && "&amp;"[1] == 'a' && "&quot;"[1] == 'q';
    } else {
      assert t[0] == '<' && "&lt;"[0] == '&' && "&gt;"[0] == '&' && "&amp;"[0] == '&' && "&quot;"[0] == '&'
        && "&nbsp;"[0] == '&';
    }
  }

  /** The whole rewriting can be read back, and nothing in it can be mistaken for markup. */
  lemma PassesRoundTrip(s: string)
    ensures Encoded(Passes(s))
    ensures Decode(Passes(s)) == Normalised(s)
  {
    hide ReplaceAll, Encoded, Decode;
    var e := HtmlEscaped(s);
    EscapeDecodes(s);
    PassMeanings();
    PassDecodes(e, "\n ", "<br/>&nbsp;");
    var indented := ReplaceAll(e, "\n ", "<br/>&nbsp;");
    PassDecodes(indented, "\n", "<br/>");
    var lines := ReplaceAll(indented, "\n", "<br/>");
    PassDecodes(lines, "\r", "<br/>");
    var returns_ := ReplaceAll(lines, "\r", "<br/>");
    PassDecodes(returns_, "\t", "&nbsp; &nbsp; ");
    PassDecodes(ReplaceAll(returns_, "\t", "&nbsp; &nbsp; "), "  ", " &nbsp;");
  }

  lemma PlainAlone(c: char)
    requires c !in "&<>\""
    ensures Encoded([c]) && Decode([c]) == PlainMeaning(c)
  {
    assert [c][0] == c && [c][1..] == "";
  }

  lemma PassMeanings()
    ensures Encoded("<br/>&nbsp;") && Decode("<br/>&nbsp;") == Decode("\n ")
    ensures Encoded("<br/>") && Decode("<br/>") == Decode("\n") == Decode("\r")
    ensures Encoded("&nbsp; &nbsp; ") && Decode("&nbsp; &nbsp; ") == Decode("\t")
    ensures Encoded(" &nbsp;") && Decode(" &nbsp;") == Decode("  ")
  {
    hide Encoded, Decode, Token;
    TokenAlone("<br/>");
    TokenAlone("&nbsp;");
    PlainAlone('\n');
    PlainAlone('\r');
    PlainAlone('\t');
    PlainAlone(' ');
    assert "<br/>&nbsp;" == "<br/>" + "&nbsp;";
    DecodeConcat("<br/>", "&nbsp;");
    assert "\n " == "\n" + " ";
    DecodeConcat("\n", " ");
    assert " &nbsp;" == " " + "&nbsp;";
    DecodeConcat(" ", "&nbsp;");
    assert "  " == " " + " ";
    DecodeConcat(" ", " ");
    DecodeConcat(" &nbsp;", " ");
    DecodeConcat("&nbsp;", " &nbsp;" + " ");
    assert "&nbsp; &nbsp; " == "&nbsp;" + (" &nbsp;" + " ");
  }

  // ---- white space stays visible ---------------------------------------------------------------

  ghost predicate NoDoubleSpace(s: string) {
    forall i :: 0 <= i < |s| - 1 ==> !(s[i] == ' ' && s[i + 1] == ' ')
  }

  lemma {:induction false} LastPassSeparates(s: string)
    ensures NoDoubleSpace(ReplaceAll(s, "  ", " &nbsp;"))
    ensures s != "" ==> var t := ReplaceAll(s, "  ", " &nbsp;"); t != "" && t[0] == s[0]
    decreases |s|
  {
    if s == "" {
    } else if "  " <= s {
      LastPassSeparates(s[2..]);
    } else {
      LastPassSeparates(s[1..]);
      var t := ReplaceAll(s[1..], "  ", " &nbsp;");
      assert |s| > 1 ==> s[..2] == [s[0], s[1]];
      if |s| > 1 && s[0] == ' ' && s[1] == ' ' { assert s[..2] == "  "; }
      assert |s| == 1 ==> t == "";
    }
  }

  lemma {:induction false} CharGone(s: string, c: char, rep: string)
    requires c !in rep
    ensures c !in ReplaceAll(s, [c], rep)
    decreases |s|
  {
    if s != "" {
      if [c] <= s { CharGone(s[1..], c, rep); } else { assert s[..1] == [s[0]]; CharGone(s[1..], c, rep); }
    }
  }

  lemma {:induction false} CharStaysGone(s: string, c: char, pat: string, rep: string)
    requires pat != "" && c !in s && c !in rep
    ensures c !in ReplaceAll(s, pat, rep)
    decreases |s|
  {
    if s != "" {
      if pat <= s { CharStaysGone(s[|pat|..], c, pat, rep); } else { CharStaysGone(s[1..], c, pat, rep); }
    }
  }

  /** In the result, white space is single spaces between other things; the rest became markup. */
  lemma PassesVisible(s: string)
    ensures NoDoubleSpace(Passes(s))
    ensures '\n' !in Passes(s) && '\r' !in Passes(s) && '\t' !in Passes(s)
  {
    hide ReplaceAll;
    var indented := ReplaceAll(HtmlEscaped(s), "\n ", "<br/>&nbsp;");
    var lines := ReplaceAll(indented, "\n", "<br/>");
    CharGone(indented, '\n', "<br/>");
    var returns_ := ReplaceAll(lines, "\r", "<br/>");
    CharStaysGone(lines, '\n', "\r", "<br/>");
    CharGone(lines, '\r', "<br/>");
    var tabs := ReplaceAll(returns_, "\t", "&nbsp; &nbsp; ");
    CharStaysGone(returns_, '\n', "\t", "&nbsp; &nbsp; ");
    CharStaysGone(returns_, '\r', "\t", "&nbsp; &nbsp; ");
    CharGone(returns_, '\t', "&nbsp; &nbsp; ");
    CharStaysGone(tabs, '\n', "  ", " &nbsp;");
    CharStaysGone(tabs, '\r', "  ", " &nbsp;");
    CharStaysGone(tabs, '\t', "  ", " &nbsp;");
    LastPassSeparates(tabs);
  }

  // ---- text that the passes do not touch ---------------------------------------------------------

  /** No character that escaping or a white space pass looks at. */
  ghost predicate Neutral(x: string) {
    forall c :: c in x ==> c !in "<>&\"\n\r\t "
  }

  lemma {:induction false} EscapeConcat(a: string, b: string)
    ensures HtmlEscaped(a + b) == HtmlEscaped(a) + HtmlEscaped(b)
    decreases |a|
  {
    if a == "" {
      assert a + b == b;
    } else {
      assert (a + b)[0] == a[0] && (a + b)[1..] == a[1..] + b;
      EscapeConcat(a[1..], b);
    }
  }

  lemma {:induction false} EscapeNeutral(x: string)
    requires Neutral(x)
    ensures HtmlEscaped(x) == x
  {
    if x != "" {
      assert x[0] in x;
      EscapeNeutral(x[1..]);
    }
  }

  ghost predicate NoBlanks(x: string) {
    forall c :: c in x ==> c !in "\n\r\t "
  }

  /** A pass works on both sides of a stretch without white space separately. */
  lemma PassAround(a: string, x: string, b: string, pat: string, rep: string)
    requires pat != "" && Blank(pat) && x != "" && NoBlanks(x)
    ensures ReplaceAll(a + x + b, pat, rep) == ReplaceAll(a, pat, rep) + x + ReplaceAll(b, pat, rep)
  {
    assert x[0] in x && x[0] !in pat && pat[0] in pat;
    assert a + x + b == a + (x + b) && (x + b)[0] == x[0];
    ForeignBoundary(a, x + b, pat);
    ReplaceSplit(a, x + b, pat, rep);
    ReplaceSkips(x, b, pat, rep);
  }

  lemma WhiteSpaceAround(a0: string, x: string, b0: string)
    requires x != "" && NoBlanks(x)
    ensures WhiteSpace(a0 + x + b0) == WhiteSpace(a0) + x + WhiteSpace(b0)
  {
    hide ReplaceAll, NoBlanks;
    PassAround(a0, x, b0, "\n ", "<br/>&nbsp;");
    var a1, b1 := ReplaceAll(a0, "\n ", "<br/>&nbsp;"), ReplaceAll(b0, "\n ", "<br/>&nbsp;");
    PassAround(a1, x, b1, "\n", "<br/>");
    var a2, b2 := ReplaceAll(a1, "\n", "<br/>"), ReplaceAll(b1, "\n", "<br/>");
    PassAround(a2, x, b2, "\r", "<br/>");
    var a3, b3 := ReplaceAll(a2, "\r", "<br/>"), ReplaceAll(b2, "\r", "<br/>");
    PassAround(a3, x, b3, "\t", "&nbsp; &nbsp; ");
    var a4, b4 := ReplaceAll(a3, "\t", "&nbsp; &nbsp; "), ReplaceAll(b3, "\t", "&nbsp; &nbsp; ");
    PassAround(a4, x, b4, "  ", " &nbsp;");
  }

  lemma PassesAround(a: string, x: string, b: string)
    requires x != "" && Neutral(x)
    ensures Passes(a + x + b) == Passes(a) + x + Passes(b)
  {
    hide WhiteSpace;
    EscapeConcat(a + x, b);
    EscapeConcat(a, x);
    EscapeNeutral(x);
    WhiteSpaceAround(HtmlEscaped(a), x, HtmlEscaped(b));
  }

  lemma EntityAround(a: string, c: char, b: string)
    requires c in "<>&\""
    ensures Passes(a + [c] + b) == Passes(a) + EscapeChar(c) + Passes(b)
  {
    hide WhiteSpace, HtmlEscaped, EscapeChar, NoBlanks;
    EscapeConcat(a + [c], b);
    EscapeConcat(a, [c]);
    EntityAlone(c);
    WhiteSpaceAround(HtmlEscaped(a), EscapeChar(c), HtmlEscaped(b));
  }

  lemma EntityAlone(c: char)
    requires c in "<>&\""
    ensures HtmlEscaped([c]) == EscapeChar(c) && EscapeChar(c) != "" && NoBlanks(EscapeChar(c))
  {
    assert [c][1..] == "";
  }

  /** Wherever they stand, the characters of markup become the entities of HTML for them. */
  lemma EntitiesAnywhere(a: string, b: string)
    ensures Passes(a + "<" + b) == Passes(a) + "&lt;" + Passes(b)
    ensures Passes(a + ">" + b) == Passes(a) + "&gt;" + Passes(b)
    ensures Passes(a + "&" + b) == Passes(a) + "&amp;" + Passes(b)
    ensures Passes(a + "\"" + b) == Passes(a) + "&quot;" + Passes(b)
  {
    hide Passes;
    EntityAround(a, '<', b);
    EntityAround(a, '>', b);
    EntityAround(a, '&', b);
    EntityAround(a, '"', b);
  }

  /** A text with none of the characters that the passes write occurs afterwards exactly when it did
      before. */
  ghost predicate Unwritten(w: string) {
    w != "" && forall c :: c in w ==> c !in "<>&\"\n\r\t ;/ltgampquonbsr"
  }

  lemma {:induction false} EscapeKeepsOccurrences(s: string, w: string)
    requires Unwritten(w)
    ensures Occurs(HtmlEscaped(s), w) <==> Occurs(s, w)
  {
    if s != "" {
      EscapeKeepsOccurrences(s[1..], w);
      OccursLater(s, w);
      var t := HtmlEscaped(s[1..]);
      if EscapeChar(s[0]) == [s[0]] {
        OccursLater([s[0]] + t, w);
        assert ([s[0]] + t)[1..] == t;
        EscapeKeepsPrefix(s, w);
      } else {
        assert w[0] in w;
        OccursSkip(EscapeChar(s[0]), t, w);
      }
    }
  }

  lemma {:induction false} EscapeKeepsPrefix(s: string, w: string)
    requires w == "" || Unwritten(w)
    ensures w <= HtmlEscaped(s) <==> w <= s
    decreases |s|
  {
    if s != "" && w != "" {
      var t := HtmlEscaped(s[1..]);
      assert w[0] in w;
      PrefixStep(w, s);
      if EscapeChar(s[0]) == [s[0]] {
        EscapeKeepsPrefix(s[1..], w[1..]);
        PrefixStep(w, [s[0]] + t);
        assert ([s[0]] + t)[1..] == t;
      }
    }
  }

  lemma PassesKeepOccurrences(s: string, w: string)
    requires Unwritten(w)
    ensures Occurs(Passes(s), w) <==> Occurs(s, w)
  {
    hide ReplaceAll, Occurs;
    EscapeKeepsOccurrences(s, w);
    var e := HtmlEscaped(s);
    OccursKept(e, "\n ", "<br/>&nbsp;", w);
    var indented := ReplaceAll(e, "\n ", "<br/>&nbsp;");
    OccursKept(indented, "\n", "<br/>", w);
    var lines := ReplaceAll(indented, "\n", "<br/>");
    OccursKept(lines, "\r", "<br/>", w);
    var returns_ := ReplaceAll(lines, "\r", "<br/>");
    OccursKept(returns_, "\t", "&nbsp; &nbsp; ", w);
    OccursKept(ReplaceAll(returns_, "\t", "&nbsp; &nbsp; "), "  ", " &nbsp;", w);
  }

  // ---- white space that stays visible ------------------------------------------------------------

  /** A pass works on both sides of a stretch that it finds nothing in and nothing across. */
  lemma PassOver(a: string, x: string, b: string, pat: string, rep: string)
    requires pat != "" && !Occurs(x, pat) && NoStraddle(a, x + b, pat) && NoStraddle(x, b, pat)
    ensures ReplaceAll(a + x + b, pat, rep) == ReplaceAll(a, pat, rep) + x + ReplaceAll(b, pat, rep)
  {
    hide NoStraddle, ReplaceAll, Occurs;
    assert a + x + b == a + (x + b);
    ReplaceSplit(a, x + b, pat, rep);
    ReplaceSplit(x, b, pat, rep);
    ReplaceNothing(x, pat, rep);
  }

  /** And where it finds exactly that stretch. */
  lemma PassAt(a: string, b: string, pat: string, rep: string)
    requires pat != "" && NoStraddle(a, pat + b, pat)
    ensures ReplaceAll(a + pat + b, pat, rep) == ReplaceAll(a, pat, rep) + rep + ReplaceAll(b, pat, rep)
  {
    assert (pat + b)[|pat|..] == b;
    assert ReplaceAll(pat + b, pat, rep) == rep + ReplaceAll(b, pat, rep);
    hide NoStraddle, ReplaceAll;
    assert a + pat + b == a + (pat + b);
    ReplaceSplit(a, pat + b, pat, rep);
  }

  lemma CharNotIn(x: string, pat: string)
    requires pat != "" && pat[0] !in x
    ensures !Occurs(x, pat)
  {
    forall k | 0 <= k <= |x| ensures !(pat <= x[k..]) {
      if k < |x| { assert x[k] in x; }
    }
  }

  lemma OneCharNoStraddle(a: string, b: string, c: char)
    ensures NoStraddle(a, b, [c])
  {
  }

  /** A single-character pass over a stretch without that character. */
  lemma CharPassOver(a: string, x: string, b: string, c: char, rep: string)
    requires c !in x
    ensures ReplaceAll(a + x + b, [c], rep) == ReplaceAll(a, [c], rep) + x + ReplaceAll(b, [c], rep)
  {
    CharNotIn(x, [c]);
    OneCharNoStraddle(a, x + b, c);
    OneCharNoStraddle(x, b, c);
    hide NoStraddle, ReplaceAll, Occurs;
    PassOver(a, x, b, [c], rep);
  }

  function LinesAndTabs(s: string): string {
    ReplaceAll(ReplaceAll(ReplaceAll(s, "\n", "<br/>"), "\r", "<br/>"), "\t", "&nbsp; &nbsp; ")
  }

  lemma LinesAndTabsOver(a: string, x: string, b: string)
    requires '\n' !in x && '\r' !in x && '\t' !in x
    ensures LinesAndTabs(a + x + b) == LinesAndTabs(a) + x + LinesAndTabs(b)
  {
    hide ReplaceAll;
    CharPassOver(a, x, b, '\n', "<br/>");
    var a1, b1 := ReplaceAll(a, "\n", "<br/>"), ReplaceAll(b, "\n", "<br/>");
    CharPassOver(a1, x, b1, '\r', "<br/>");
    var a2, b2 := ReplaceAll(a1, "\r", "<br/>"), ReplaceAll(b1, "\r", "<br/>");
    CharPassOver(a2, x, b2, '\t', "&nbsp; &nbsp; ");
  }

  lemma EscapeAround(a: string, x: string, b: string)
    ensures HtmlEscaped(a + x + b) == HtmlEscaped(a) + HtmlEscaped(x) + HtmlEscaped(b)
  {
    EscapeConcat(a + x, b);
    EscapeConcat(a, x);
  }

  lemma EscapedBlanks()
    ensures HtmlEscaped("\n ") == "\n " && HtmlEscaped("\t") == "\t"
  {
    assert "\n "[1..] == " " && " "[1..] == "" && "\t"[1..] == "";
  }

  /** Leading white space is kept: a space after a line feed never collapses. */
  lemma LeadingSpaceKept(a: string, b: string)
    ensures Passes(a + "\n " + b) == Passes(a) + "<br/>&nbsp;" + Passes(b)
  {
    hide HtmlEscaped, ReplaceAll, NoStraddle, Occurs;
    EscapeAround(a, "\n ", b);
    EscapedBlanks();
    var h, i, x := HtmlEscaped(a), HtmlEscaped(b), "<br/>&nbsp;";
    LineFeedApart(h, i);
    PassAt(h, i, "\n ", x);
    var h1, i1 := ReplaceAll(h, "\n ", x), ReplaceAll(i, "\n ", x);
    LinesAndTabsOver(h1, x, i1);
    var h2, i2 := LinesAndTabs(h1), LinesAndTabs(i1);
    CharNotIn(x, "  ");
    ForeignBoundary(h2, x + i2, "  ");
    ForeignBoundary(x, i2, "  ");
    PassOver(h2, x, i2, "  ", " &nbsp;");
  }

  lemma LineFeedApart(a: string, b: string)
    ensures NoStraddle(a, "\n " + b, "\n ")
  {
    forall k | 0 <= k < |a| < k + 2 ensures !("\n " <= (a + ("\n " + b))[k..]) {
      assert (a + ("\n " + b))[k..][1] == '\n';
    }
  }

  /** A tab is as wide as four spaces, unless a space follows that the last pass pairs with its end. */
  lemma TabKept(a: string, b: string)
    requires b == "" || b[0] != ' '
    ensures Passes(a + "\t" + b) == Passes(a) + "&nbsp; &nbsp; " + Passes(b)
  {
    hide HtmlEscaped, ReplaceAll, NoStraddle, Occurs;
    EscapeAround(a, "\t", b);
    EscapedBlanks();
    var h, i, x := HtmlEscaped(a), HtmlEscaped(b), "&nbsp; &nbsp; ";
    CharNotIn("\t", "\n ");
    ForeignBoundary(h, "\t" + i, "\n ");
    ForeignBoundary("\t", i, "\n ");
    PassOver(h, "\t", i, "\n ", "<br/>&nbsp;");
    var h1, i1 := ReplaceAll(h, "\n ", "<br/>&nbsp;"), ReplaceAll(i, "\n ", "<br/>&nbsp;");
    TabPass(h1, i1);
    var h2, i2 := LinesAndTabs(h1), LinesAndTabs(i1);
    NoPairInTab();
    ForeignBoundary(h2, x + i2, "  ");
    NoSpaceFirst(b);
    ForeignBoundary(x, i2, "  ");
    PassOver(h2, x, i2, "  ", " &nbsp;");
  }

  lemma TabPass(a: string, b: string)
    ensures LinesAndTabs(a + "\t" + b) == LinesAndTabs(a) + "&nbsp; &nbsp; " + LinesAndTabs(b)
  {
    hide ReplaceAll, NoStraddle;
    CharPassOver(a, "\t", b, '\n', "<br/>");
    var a1, b1 := ReplaceAll(a, "\n", "<br/>"), ReplaceAll(b, "\n", "<br/>");
    CharPassOver(a1, "\t", b1, '\r', "<br/>");
    var a2, b2 := ReplaceAll(a1, "\r", "<br/>"), ReplaceAll(b1, "\r", "<br/>");
    OneCharNoStraddle(a2, "\t" + b2, '\t');
    PassAt(a2, b2, "\t", "&nbsp; &nbsp; ");
  }

  lemma PairIsDouble(x: string)
    ensures Occurs(x, "  ") ==> !NoDoubleSpace(x)
  {
    if k :| 0 <= k <= |x| && "  " <= x[k..] {
      assert x[k] == x[k..][0] == ' ' && x[k + 1] == x[k..][1] == ' ';
    }
  }

  lemma NoPairInTab()
    ensures !Occurs("&nbsp; &nbsp; ", "  ")
  {
    assert NoDoubleSpace("&nbsp; &nbsp; ");
    hide Occurs;
    PairIsDouble("&nbsp; &nbsp; ");
  }

  ghost predicate NoSpaceAhead(s: string) {
    s == "" || s[0] != ' '
  }

  lemma PassNoSpaceAhead(s: string, pat: string, rep: string)
    requires pat != "" && NoSpaceAhead(s) && rep != "" && rep[0] != ' '
    ensures NoSpaceAhead(ReplaceAll(s, pat, rep))
  {
  }

  lemma EscapeNoSpaceAhead(b: string)
    requires b == "" || b[0] != ' '
    ensures NoSpaceAhead(HtmlEscaped(b))
  {
    if b != "" { assert HtmlEscaped(b)[0] == EscapeChar(b[0])[0]; }
  }

  lemma NoSpaceFirst(b: string)
    requires b == "" || b[0] != ' '
    ensures NoSpaceAhead(LinesAndTabs(ReplaceAll(HtmlEscaped(b), "\n ", "<br/>&nbsp;")))
  {
    EscapeNoSpaceAhead(b);
    hide HtmlEscaped, ReplaceAll, NoSpaceAhead;
    var b0 := ReplaceAll(HtmlEscaped(b), "\n ", "<br/>&nbsp;");
    PassNoSpaceAhead(HtmlEscaped(b), "\n ", "<br/>&nbsp;");
    PassNoSpaceAhead(b0, "\n", "<br/>");
    PassNoSpaceAhead(ReplaceAll(b0, "\n", "<br/>"), "\r", "<br/>");
    PassNoSpaceAhead(ReplaceAll(ReplaceAll(b0, "\n", "<br/>"), "\r", "<br/>"), "\t", "&nbsp; &nbsp; ");
  }
}
