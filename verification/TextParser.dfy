/** Finding the URLs of a text.  The regular expression is any function that finds matches. */
module TextParser {

  /** A match: where it is, how long it is, and its first two captures. */
  datatype Match = NoMatch | Match(pos: nat, length: nat, cap1: string, cap2: string)

  /** A search from a position finds a non-empty match inside the text, at or after that position. */
  ghost predicate FindsInside(indexIn: (string, nat) -> Match) {
    forall text, pos: nat :: pos <= |text| && indexIn(text, pos).Match? ==>
      var m := indexIn(text, pos);
      pos <= m.pos && m.length > 0 && m.pos + m.length <= |text|
  }

  type UrlPattern = f: (string, nat) -> Match | FindsInside(f) witness (text: string, pos: nat) => NoMatch

  datatype UrlRange = UrlRange(first: nat, second: nat)

  function Lower(c: char): char {
    if 'A' <= c <= 'Z' then (c as int + 32) as char else c
  }

  predicate StartsWithFtp(s: string) {
    |s| >= 4 && Lower(s[0]) == 'f' && Lower(s[1]) == 't' && Lower(s[2]) == 'p' && s[3] == '.'
  }

  /** What is put before a URL that was written without a scheme. */
  function Protocol(m: Match): string
    requires m.Match?
  {
    if m.cap2 != "" then ""
    else if '@' in m.cap1 then "mailto:"
    else if StartsWithFtp(m.cap1) then "ftp://"
    else "http://"
  }

  function FixedUrl(text: string, m: Match): string
    requires Inside(text, 0, m)
  {
    Protocol(m) + text[m.pos..m.pos + m.length]
  }

  /** The matches from `pos` on, each searched for from the end of the one before: in order, without
      overlap, not empty and inside the text. */
  function MatchesFrom(text: string, pattern: UrlPattern, pos: nat): (ms: seq<Match>)
    requires pos <= |text|
    ensures forall i :: 0 <= i < |ms| ==> Inside(text, pos, ms[i])
    ensures forall i, j :: 0 <= i < j < |ms| ==> Before(ms[i], ms[j])
    decreases |text| - pos
  {
    var m := pattern(text, pos);
    if m.NoMatch? then []
    else
      var rest := MatchesFrom(text, pattern, m.pos + m.length);
      assert forall i :: 0 <= i < |rest| ==> Inside(text, m.pos + m.length, rest[i]);
      [m] + rest
  }

  predicate Inside(text: string, pos: nat, m: Match) {
    m.Match? && pos <= m.pos && m.length > 0 && m.pos + m.length <= |text|
  }

  predicate Before(m: Match, later: Match) {
    m.Match? && later.Match? && m.pos + m.length <= later.pos
  }

  /** No match between two results is passed over: each is what a search from the end of the one
      before it finds, and a search from the last end finds nothing. */
  lemma {:induction false} MatchesAreComplete(text: string, pattern: UrlPattern, pos: nat, i: nat)
    requires pos <= |text| && i <= |MatchesFrom(text, pattern, pos)|
    ensures
      var ms := MatchesFrom(text, pattern, pos);
      && (i > 0 ==> ms[i - 1].Match? && ms[i - 1].pos + ms[i - 1].length <= |text|)
      && var at := if i == 0 then pos else ms[i - 1].pos + ms[i - 1].length;
         pattern(text, at) == if i < |ms| then ms[i] else NoMatch
    decreases i
  {
    var m := pattern(text, pos);
    if i > 0 {
      MatchesAreComplete(text, pattern, m.pos + m.length, i - 1);
    }
  }

  lemma MatchesStep(text: string, pattern: UrlPattern, pos: nat)
    requires pos <= |text|
    ensures
      var m, ms := pattern(text, pos), MatchesFrom(text, pattern, pos);
      if m.NoMatch? then ms == []
      else
        m.pos + m.length <= |text| && ms != [] && ms[0] == m &&
        ms[1..] == MatchesFrom(text, pattern, m.pos + m.length)
  {
  }

  /** The ranges and the repaired URLs of some matches. */
  function RangesOf(ms: seq<Match>): (r: seq<UrlRange>)
    requires forall k :: 0 <= k < |ms| ==> ms[k].Match?
    ensures |r| == |ms| && forall k :: 0 <= k < |ms| ==> r[k] == UrlRange(ms[k].pos, ms[k].length)
  {
    seq(|ms|, k requires 0 <= k < |ms| => UrlRange(ms[k].pos, ms[k].length))
  }

  function FixedUrlsOf(text: string, ms: seq<Match>): (r: seq<string>)
    requires forall k :: 0 <= k < |ms| ==> Inside(text, 0, ms[k])
    ensures |r| == |ms| && forall k :: 0 <= k < |ms| ==> r[k] == FixedUrl(text, ms[k])
  {
    seq(|ms|, k requires 0 <= k < |ms| => FixedUrl(text, ms[k]))
  }

  /** Where the search for URL number `k` starts: at the end of the one before. */
  function SearchFrom(urlRanges: seq<UrlRange>, k: nat): nat
    requires k <= |urlRanges|
  {
    if k == 0 then 0 else urlRanges[k - 1].first + urlRanges[k - 1].second
  }

  /** Each range is what the search from the end of the one before finds, and no search is left out. */
  ghost predicate RangesFound(text: string, pattern: UrlPattern, urlRanges: seq<UrlRange>) {
    && (forall k :: 0 <= k < |urlRanges| ==> pattern(text, SearchFrom(urlRanges, k)).Match?)
    && (forall k :: 0 <= k < |urlRanges| ==>
          var m := pattern(text, SearchFrom(urlRanges, k));
          urlRanges[k].first == m.pos && urlRanges[k].second == m.length)
    && pattern(text, SearchFrom(urlRanges, |urlRanges|)) == NoMatch
  }

  /** A URL that was written with a scheme is left alone; others get one by the look of them. */
  ghost predicate UrlRepaired(text: string, m: Match, fixed: string)
    requires Inside(text, 0, m)
  {
    var href := text[m.pos..m.pos + m.length];
    var ftp := |m.cap1| >= 4 && m.cap1[0] in "fF" && m.cap1[1] in "tT" && m.cap1[2] in "pP" && m.cap1[3] == '.';
    && (m.cap2 != "" ==> fixed == href)
    && (m.cap2 == "" && '@' in m.cap1 ==> fixed == "mailto:" + href)
    && (m.cap2 == "" && '@' !in m.cap1 && ftp ==> fixed == "ftp://" + href)
    && (m.cap2 == "" && '@' !in m.cap1 && !ftp ==> fixed == "http://" + href)
  }

  ghost predicate AllUrlsRepaired(text: string, pattern: UrlPattern, urlRanges: seq<UrlRange>, fixedUrls: seq<string>) {
    |fixedUrls| == |urlRanges| && forall k :: 0 <= k < |urlRanges| ==>
      var m := pattern(text, SearchFrom(urlRanges, k));
      Inside(text, 0, m) && UrlRepaired(text, m, fixedUrls[k])
  }

  lemma FtpByLetters(s: string)
    ensures StartsWithFtp(s) <==> |s| >= 4 && s[0] in "fF" && s[1] in "tT" && s[2] in "pP" && s[3] == '.'
  {
    if |s| >= 4 {
      LowerLetter(s[0]);
      LowerLetter(s[1]);
      LowerLetter(s[2]);
    }
  }

  lemma LowerLetter(c: char)
    ensures (Lower(c) == 'f' <==> c in "fF") && (Lower(c) == 't' <==> c in "tT") && (Lower(c) == 'p' <==> c in "pP")
  {
  }

  lemma FoundAt(text: string, pattern: UrlPattern, ms: seq<Match>, k: nat)
    requires ms == MatchesFrom(text, pattern, 0) && k <= |ms|
    ensures pattern(text, SearchFrom(RangesOf(ms), k)) == if k < |ms| then ms[k] else NoMatch
  {
    hide MatchesFrom, SearchFrom;
    MatchesAreComplete(text, pattern, 0, k);
    SearchAt(ms, k);
  }

  lemma MatchesFound(text: string, pattern: UrlPattern, ms: seq<Match>)
    requires ms == MatchesFrom(text, pattern, 0)
    ensures RangesFound(text, pattern, RangesOf(ms))
    ensures forall k :: 0 <= k < |ms| ==> pattern(text, SearchFrom(RangesOf(ms), k)) == ms[k]
  {
    hide MatchesFrom, SearchFrom;
    forall k | 0 <= k < |ms| ensures pattern(text, SearchFrom(RangesOf(ms), k)) == ms[k] {
      FoundAt(text, pattern, ms, k);
    }
    FoundAt(text, pattern, ms, |ms|);
  }

  lemma SearchAt(ms: seq<Match>, k: nat)
    requires k <= |ms| && forall i :: 0 <= i < |ms| ==> ms[i].Match?
    ensures SearchFrom(RangesOf(ms), k) == if k == 0 then 0 else ms[k - 1].pos + ms[k - 1].length
  {
  }

  lemma AllRepaired(text: string, ms: seq<Match>)
    requires forall k :: 0 <= k < |ms| ==> Inside(text, 0, ms[k])
    ensures forall k :: 0 <= k < |ms| ==> UrlRepaired(text, ms[k], FixedUrlsOf(text, ms)[k])
  {
    hide UrlRepaired, FixedUrl;
    forall k | 0 <= k < |ms| ensures UrlRepaired(text, ms[k], FixedUrl(text, ms[k])) { RepairedUrl(text, ms[k]); }
  }

  lemma RepairedUrl(text: string, m: Match)
    requires Inside(text, 0, m)
    ensures UrlRepaired(text, m, FixedUrl(text, m))
  {
    hide StartsWithFtp;
    FtpByLetters(m.cap1);
    var href := text[m.pos..m.pos + m.length];
    assert "" + href == href;
  }

  lemma Extracted(text: string, pattern: UrlPattern, urlRanges: seq<UrlRange>, fixedUrls: seq<string>)
    requires urlRanges == RangesOf(MatchesFrom(text, pattern, 0))
    ensures RangesFound(text, pattern, urlRanges)
    ensures fixedUrls == FixedUrlsOf(text, MatchesFrom(text, pattern, 0)) ==>
      AllUrlsRepaired(text, pattern, urlRanges, fixedUrls)
  {
    hide MatchesFrom, RangesFound, UrlRepaired, SearchFrom, FixedUrl;
    MatchesFound(text, pattern, MatchesFrom(text, pattern, 0));
    AllRepaired(text, MatchesFrom(text, pattern, 0));
  }

  method ExtractUrlData(text: string, pattern: UrlPattern, doUrlFixup: bool)
    returns (urlRanges: seq<UrlRange>, fixedUrls: seq<string>)
    ensures urlRanges == RangesOf(MatchesFrom(text, pattern, 0))
    ensures fixedUrls == if doUrlFixup then FixedUrlsOf(text, MatchesFrom(text, pattern, 0)) else []
    ensures RangesFound(text, pattern, urlRanges)
    ensures doUrlFixup ==> AllUrlsRepaired(text, pattern, urlRanges, fixedUrls)
  {
    hide MatchesFrom, Before, RangesFound, AllUrlsRepaired;
    urlRanges, fixedUrls := [], [];
    ghost var done: seq<Match> := [];
    var pos := 0;
    var found := pattern(text, pos);
    while found.Match?
      invariant pos <= |text| && found == pattern(text, pos)
      invariant done + MatchesFrom(text, pattern, pos) == MatchesFrom(text, pattern, 0)
      invariant forall k :: 0 <= k < |done| ==> Inside(text, 0, done[k])
      invariant urlRanges == RangesOf(done)
      invariant fixedUrls == if doUrlFixup then FixedUrlsOf(text, done) else []
      decreases |text| - pos
    {
      MatchesStep(text, pattern, pos);
      done := done + [found];
      pos := found.pos;
      var urlLen := found.length;
      var href := text[pos..pos + urlLen];
      urlRanges := urlRanges + [UrlRange(pos, |href|)];
      pos := pos + |href|;
      if doUrlFixup {
        href := FixUp(href, found);
        fixedUrls := fixedUrls + [href];
      }
      found := pattern(text, pos);
    }
    MatchesStep(text, pattern, pos);
    Extracted(text, pattern, urlRanges, fixedUrls);
  }

  method FixUp(href: string, found: Match) returns (fixed: string)
    requires found.Match?
    ensures fixed == Protocol(found) + href
  {
    var protocol := "";
    if found.cap2 == "" {
      if '@' in found.cap1 {
        protocol := "mailto:";
      } else if StartsWithFtp(found.cap1) {
        protocol := "ftp://";
      } else {
        protocol := "http://";
      }
    }
    fixed := protocol + href;
  }
}
