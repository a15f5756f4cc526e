/** Replacing all occurrences of a text, left to right, as `QString::replace` does. */
module TextReplace {

  function ReplaceAll(s: string, pat: string, rep: string): string
    requires pat != ""
  {
    if s == "" then ""
    else if pat <= s then rep + ReplaceAll(s[|pat|..], pat, rep)
    else [s[0]] + ReplaceAll(s[1..], pat, rep)
  }

  ghost predicate Occurs(s: string, w: string) {
    exists k :: 0 <= k <= |s| && w <= s[k..]
  }

  /** No occurrence of `pat` begins in `a` and ends in `b`. */
  ghost predicate NoStraddle(a: string, b: string, pat: string) {
    forall k :: 0 <= k < |a| < k + |pat| ==> !(pat <= (a + b)[k..])
  }

  lemma {:induction false} ReplaceSplit(a: string, b: string, pat: string, rep: string)
    requires pat != "" && NoStraddle(a, b, pat)
    ensures ReplaceAll(a + b, pat, rep) == ReplaceAll(a, pat, rep) + ReplaceAll(b, pat, rep)
    decreases |a|
  {
    if a == "" {
      assert a + b == b;
    } else if pat <= a + b {
      assert (a + b)[0..] == a + b;
      assert |pat| <= |a|;
      assert (a + b)[..|pat|] == a[..|pat|];
      SplitSuffix(a, b, pat, |pat|);
      ReplaceSplit(a[|pat|..], b, pat, rep);
      assert (a + b)[|pat|..] == a[|pat|..] + b;
      assert rep + (ReplaceAll(a[|pat|..], pat, rep) + ReplaceAll(b, pat, rep))
          == (rep + ReplaceAll(a[|pat|..], pat, rep)) + ReplaceAll(b, pat, rep);
    } else {
      assert !(pat <= a);
      SplitSuffix(a, b, pat, 1);
      ReplaceSplit(a[1..], b, pat, rep);
      assert (a + b)[0] == a[0] && (a + b)[1..] == a[1..] + b;
      assert [a[0]] + (ReplaceAll(a[1..], pat, rep) + ReplaceAll(b, pat, rep))
          == ([a[0]] + ReplaceAll(a[1..], pat, rep)) + ReplaceAll(b, pat, rep);
    }
  }

  lemma SplitSuffix(a: string, b: string, pat: string, n: nat)
    requires n <= |a| && NoStraddle(a, b, pat)
    ensures NoStraddle(a[n..], b, pat)
  {
    forall k | 0 <= k < |a| - n < k + |pat| ensures !(pat <= (a[n..] + b)[k..]) {
      assert (a[n..] + b)[k..] == (a + b)[k + n..];
    }
  }

  /** A boundary whose left or right neighbour cannot be part of `pat` is never straddled. */
  lemma ForeignBoundary(a: string, b: string, pat: string)
    requires b == "" || b[0] !in pat || a == "" || a[|a| - 1] !in pat
    ensures NoStraddle(a, b, pat)
  {
    forall k | 0 <= k < |a| < k + |pat| ensures !(pat <= (a + b)[k..]) {
      var t := (a + b)[k..];
      assert t[|a| - 1 - k] == a[|a| - 1];
      assert b != "" ==> t[|a| - k] == b[0];
      assert pat[|a| - k] in pat && pat[|a| - 1 - k] in pat;
    }
  }

  lemma {:induction false} ReplaceNothing(s: string, pat: string, rep: string)
    requires pat != "" && !Occurs(s, pat)
    ensures ReplaceAll(s, pat, rep) == s
    decreases |s|
  {
    if s != "" {
      assert s[0..] == s;
      OccursLater(s, pat);
      ReplaceNothing(s[1..], pat, rep);
    }
  }

  lemma OccursLater(s: string, w: string)
    requires s != ""
    ensures Occurs(s, w) <==> w <= s || Occurs(s[1..], w)
  {
    assert s[0..] == s;
    if Occurs(s[1..], w) {
      var k :| 0 <= k <= |s[1..]| && w <= s[1..][k..];
      assert s[1..][k..] == s[k + 1..];
    }
    if Occurs(s, w) && !(w <= s) {
      var k :| 0 <= k <= |s| && w <= s[k..];
      assert s[k..] == s[1..][k - 1..];
    }
  }

  /** A stretch without the first character of `pat` is passed over. */
  lemma {:induction false} ReplaceSkips(u: string, b: string, pat: string, rep: string)
    requires pat != "" && pat[0] !in u
    ensures ReplaceAll(u + b, pat, rep) == u + ReplaceAll(b, pat, rep)
    decreases |u|
  {
    if u == "" {
      assert u + b == b;
    } else {
      assert (u + b)[0] == u[0] && (u + b)[1..] == u[1..] + b;
      assert pat[0] != u[0];
      ReplaceSkips(u[1..], b, pat, rep);
      assert [u[0]] + (u[1..] + ReplaceAll(b, pat, rep)) == u + ReplaceAll(b, pat, rep);
    }
  }

  /** `w` has no character of `u`. */
  ghost predicate Foreign(w: string, u: string) {
    forall c :: c in w ==> c !in u
  }

  lemma {:induction false} OccursSkip(u: string, x: string, w: string)
    requires w != "" && Foreign(w, u)
    ensures Occurs(u + x, w) <==> Occurs(x, w)
    decreases |u|
  {
    if u == "" {
      assert u + x == x;
    } else {
      OccursLater(u + x, w);
      assert (u + x)[0] == u[0] && (u + x)[1..] == u[1..] + x;
      assert w[0] in w && u[0] in u;
      OccursSkip(u[1..], x, w);
    }
  }

  /** Rewriting text that `w` has nothing to do with changes no occurrence of `w`. */
  lemma {:induction false} OccursKept(s: string, pat: string, rep: string, w: string)
    requires pat != "" && rep != "" && w != "" && Foreign(w, pat) && Foreign(w, rep)
    ensures Occurs(ReplaceAll(s, pat, rep), w) <==> Occurs(s, w)
    decreases |s|
  {
    if s == "" {
    } else if pat <= s {
      OccursKept(s[|pat|..], pat, rep, w);
      assert s == pat + s[|pat|..];
      OccursSkip(pat, s[|pat|..], w);
      OccursSkip(rep, ReplaceAll(s[|pat|..], pat, rep), w);
    } else {
      var t := ReplaceAll(s[1..], pat, rep);
      OccursKept(s[1..], pat, rep, w);
      OccursLater(s, w);
      OccursLater([s[0]] + t, w);
      assert ([s[0]] + t)[1..] == t;
      PrefixKept(s, pat, rep, w);
    }
  }

  lemma {:induction false} PrefixKept(s: string, pat: string, rep: string, w: string)
    requires pat != "" && rep != "" && Foreign(w, pat) && Foreign(w, rep)
    ensures w <= ReplaceAll(s, pat, rep) <==> w <= s
    decreases |s|
  {
    if s == "" || w == "" {
    } else if pat <= s {
      assert w[0] in w && pat[0] in pat && rep[0] in rep;
    } else {
      var t := ReplaceAll(s[1..], pat, rep);
      PrefixKept(s[1..], pat, rep, w[1..]);
      PrefixStep(w, s);
      PrefixStep(w, [s[0]] + t);
      assert ([s[0]] + t)[1..] == t;
    }
  }

  lemma PrefixStep(w: string, s: string)
    requires w != "" && s != ""
    ensures w <= s <==> w[0] == s[0] && w[1..] <= s[1..]
  {
    if w[0] == s[0] && w[1..] <= s[1..] {
      assert w == [w[0]] + w[1..] && s == [s[0]] + s[1..];
      forall i | 0 <= i < |w| ensures w[i] == s[i] {
        if i > 0 { assert w[1..][i - 1] == s[1..][i - 1]; }
      }
    }
  }

  // ---- counting ----------------------------------------------------------------------------

  ghost function Count(s: string, c: char): nat {
    if s == "" then 0 else (if s[0] == c then 1 else 0) + Count(s[1..], c)
  }

  lemma {:induction false} CountConcat(a: string, b: string, c: char)
    ensures Count(a + b, c) == Count(a, c) + Count(b, c)
    decreases |a|
  {
    if a == "" {
      assert a + b == b;
    } else {
      assert (a + b)[0] == a[0] && (a + b)[1..] == a[1..] + b;
      CountConcat(a[1..], b, c);
    }
  }

  lemma {:induction false} CountNone(s: string, c: char)
    requires c !in s
    ensures Count(s, c) == 0
    decreases |s|
  {
    if s != "" { CountNone(s[1..], c); }
  }

  lemma {:induction false} CountSome(s: string, c: char)
    requires c in s
    ensures Count(s, c) > 0
    decreases |s|
  {
    if s[0] != c { CountSome(s[1..], c); }
  }

  /** Each replacement brings in characters that the pattern does not have. */
  lemma {:induction false} CountGrows(s: string, pat: string, rep: string, c: char)
    requires pat != "" && c !in pat && c in rep
    ensures Count(ReplaceAll(s, pat, rep), c) >= Count(s, c)
    ensures Occurs(s, pat) ==> Count(ReplaceAll(s, pat, rep), c) > Count(s, c)
    decreases |s|
  {
    if s == "" {
    } else if pat <= s {
      CountGrows(s[|pat|..], pat, rep, c);
      assert s == pat + s[|pat|..];
      CountConcat(pat, s[|pat|..], c);
      CountNone(pat, c);
      CountSome(rep, c);
      CountConcat(rep, ReplaceAll(s[|pat|..], pat, rep), c);
    } else {
      var t := ReplaceAll(s[1..], pat, rep);
      CountGrows(s[1..], pat, rep, c);
      assert ([s[0]] + t)[1..] == t;
      OccursLater(s, pat);
    }
  }

  /** First and last characters foreign to the pattern stay where they are. */
  lemma {:induction false} EndsKept(s: string, pat: string, rep: string)
    requires s != "" && pat != "" && s[0] !in pat && s[|s| - 1] !in pat
    ensures var t := ReplaceAll(s, pat, rep); t != "" && t[0] == s[0] && t[|t| - 1] == s[|s| - 1]
  {
    assert pat[0] in pat;
    assert !(pat <= s);
    if |s| > 1 { LastKept(s[1..], pat, rep); }
  }

  lemma {:induction false} LastKept(s: string, pat: string, rep: string)
    requires s != "" && pat != "" && s[|s| - 1] !in pat
    ensures var t := ReplaceAll(s, pat, rep); t != "" && t[|t| - 1] == s[|s| - 1]
    decreases |s|
  {
    if pat <= s {
      assert |pat| < |s|;
      LastKept(s[|pat|..], pat, rep);
    } else if |s| > 1 {
      LastKept(s[1..], pat, rep);
    }
  }
}
