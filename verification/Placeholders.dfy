/** The placeholders that stand for links while a message is escaped. */
module Placeholders {
  import opened TextReplace
  import opened EscapePasses

  const MARK := "#K#T#P"
  const TAIL := "#LINK"

  function Digit(d: nat): char
    requires d < 10
  {
    "0123456789"[d]
  }

  /** The decimal numeral of `n`. */
  function Decimal(n: nat): (r: string)
    ensures r != "" && forall c :: c in r ==> c in "0123456789"
  {
    if n < 10 then [Digit(n)] else Decimal(n / 10) + [Digit(n % 10)]
  }

  function Placeholder(i: nat): string {
    MARK + Decimal(i) + TAIL
  }

  lemma {:induction false} DecimalInjective(i: nat, j: nat)
    requires Decimal(i) == Decimal(j)
    ensures i == j
  {
    var a, b := Decimal(i), Decimal(j);
    assert a[|a| - 1] == Digit(i % 10) && b[|b| - 1] == Digit(j % 10);
    if i >= 10 && j >= 10 {
      assert a[..|a| - 1] == Decimal(i / 10) && b[..|b| - 1] == Decimal(j / 10);
      DecimalInjective(i / 10, j / 10);
    }
  }

  /** The characters of a placeholder, by position. */
  lemma PlaceholderShape(i: nat)
    ensures
      var p, n := Placeholder(i), |Decimal(i)|;
      && n > 0 && |p| == n + 11
      && p[0] == '#' && p[1] == 'K' && p[2] == '#' && p[3] == 'T' && p[4] == '#' && p[5] == 'P'
      && (forall k :: 6 <= k < 6 + n ==> p[k] == Decimal(i)[k - 6] && p[k] in "0123456789")
      && p[6 + n] == '#' && p[7 + n] == 'L' && p[8 + n] == 'I' && p[9 + n] == 'N' && p[10 + n] == 'K'
  {
    var p, n := Placeholder(i), |Decimal(i)|;
    forall k | 6 <= k < 6 + n ensures p[k] == Decimal(i)[k - 6] && p[k] in "0123456789" {
      assert Decimal(i)[k - 6] in Decimal(i);
    }
  }

  /** A `#` inside a placeholder is followed by `K` only at its very beginning. */
  lemma HashInside(i: nat, d: nat)
    requires 0 < d < |Placeholder(i)| && Placeholder(i)[d] == '#'
    ensures d + 1 < |Placeholder(i)| && Placeholder(i)[d + 1] != 'K'
  {
    PlaceholderShape(i);
  }

  lemma PlaceholderChars(i: nat)
    ensures forall c :: c in Placeholder(i) ==> c in "#KTPLIN0123456789"
    ensures Placeholder(i) != "" && Neutral(Placeholder(i)) && Unwritten(Placeholder(i))
  {
    hide Decimal;
    forall c | c in Placeholder(i)
      ensures c in "#KTPLIN0123456789" && c !in "<>&\"\n\r\t " && c !in "<>&\"\n\r\t ;/ltgampquonbsr"
    {
      if c in Decimal(i) { assert c in "0123456789"; }
      PlaceholderChar(c);
    }
    assert Placeholder(i)[0] == '#';
  }

  lemma PlaceholderChar(c: char)
    requires c in MARK || c in TAIL || c in "0123456789"
    ensures c in "#KTPLIN0123456789" && c !in "<>&\"\n\r\t " && c !in "<>&\"\n\r\t ;/ltgampquonbsr"
  {
  }

  /** A placeholder that starts where another one starts is that one. */
  lemma SameStart(i: nat, j: nat, rest: string)
    requires Placeholder(j) <= Placeholder(i) + rest
    ensures i == j
  {
    hide Decimal;
    PlaceholderShape(i);
    PlaceholderShape(j);
    var p, q, t := Placeholder(i), Placeholder(j), Placeholder(i) + rest;
    var n, m := |Decimal(i)|, |Decimal(j)|;
    assert forall k :: 0 <= k < |q| && k < |p| ==> q[k] == p[k];
    var least := if m < n then m else n;
    assert q[6 + least] == p[6 + least];
    assert n == m;
    forall k | 0 <= k < n ensures Decimal(i)[k] == Decimal(j)[k] {
      assert q[k + 6] == p[k + 6];
    }
    assert Decimal(i) == Decimal(j);
    DecimalInjective(i, j);
  }

  // ---- no occurrence reaches across the pieces of a message ------------------------------------

  /** What can follow a stretch of plain text: the end, a link, or a placeholder. */
  ghost predicate Follows(rest: string) {
    || rest == ""
    || rest[0] == '<'
    || (exists i: nat :: Placeholder(i) <= rest)
  }

  lemma PlainBoundary(a: string, rest: string, j: nat)
    requires Follows(rest)
    ensures NoStraddle(a, rest, Placeholder(j))
  {
    hide Decimal;
    var q := Placeholder(j);
    PlaceholderChars(j);
    if rest == "" || rest[0] == '<' {
      ForeignBoundary(a, rest, q);
    } else {
      var i: nat :| Placeholder(i) <= rest;
      PlaceholderShape(i);
      assert rest[0] == '#' && rest[1] == 'K';
      HashBoundary(a, rest, j);
    }
  }

  lemma HashBoundary(a: string, rest: string, j: nat)
    requires |rest| > 1 && rest[0] == '#' && rest[1] == 'K'
    ensures NoStraddle(a, rest, Placeholder(j))
  {
    hide Placeholder;
    var q := Placeholder(j);
    forall k | 0 <= k < |a| < k + |q| ensures !(q <= (a + rest)[k..]) {
      var t := (a + rest)[k..];
      var d := |a| - k;
      assert t[d] == '#' && t[d + 1] == 'K';
      if q[d] == '#' { HashInside(j, d); }
    }
  }

  lemma LinkBoundary(a: string, rest: string, j: nat)
    requires a != "" && a[|a| - 1] == '>'
    ensures NoStraddle(a, rest, Placeholder(j))
  {
    PlaceholderChars(j);
    ForeignBoundary(a, rest, Placeholder(j));
  }

  lemma PlaceholderBoundary(i: nat, rest: string, j: nat)
    ensures NoStraddle(Placeholder(i), rest, Placeholder(j))
  {
    hide Decimal;
    var p, q := Placeholder(i), Placeholder(j);
    forall k | 0 <= k < |p| < k + |q| ensures !(q <= (p + rest)[k..]) {
      if k == 0 {
        assert (p + rest)[0..] == p + rest;
        if q <= p + rest { SameStart(i, j, rest); }
      } else {
        var t := (p + rest)[k..];
        PlaceholderShape(j);
        assert t[0] == p[k];
        if p[k] == '#' {
          HashInside(i, k);
          assert t[1] == p[k + 1];
        }
      }
    }
  }

  /** Replacing one placeholder in another changes it only if it is the same. */
  lemma ReplaceInPlaceholder(i: nat, j: nat, link: string)
    ensures ReplaceAll(Placeholder(i), Placeholder(j), link) == if i == j then link else Placeholder(i)
  {
    hide Decimal;
    var p, q := Placeholder(i), Placeholder(j);
    PlaceholderShape(i);
    PlaceholderShape(j);
    if i == j {
      assert p[|p|..] == "";
      assert ReplaceAll(p[|p|..], q, link) == "";
    } else {
      assert !Occurs(p, q) by {
        forall k | 0 <= k <= |p| ensures !(q <= p[k..]) {
          if k == 0 {
            assert p[0..] == p == p + "";
            if q <= p { SameStart(i, j, ""); }
          } else if k < |p| {
            assert p[k..][0] == p[k];
            if p[k] == '#' { HashInside(i, k); assert p[k..][1] == p[k + 1]; }
          }
        }
      }
      ReplaceNothing(p, q, link);
    }
  }
}
