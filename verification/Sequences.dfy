/** Facts about sequences, sets and multisets that several parts of the model share. */
module Sequences {

  datatype Option<+T> = None | Some(value: T)

  ghost predicate NoDup<T>(s: seq<T>) {
    forall i, j :: 0 <= i < j < |s| ==> s[i] != s[j]
  }

  /** The elements of `s` outside `gone`, in order. */
  function Keep<T(==,!new)>(s: seq<T>, gone: set<T>): (r: seq<T>)
    ensures forall x :: x in r <==> x in s && x !in gone
    ensures |r| <= |s|
  {
    if s == [] then []
    else (if s[0] in gone then [] else [s[0]]) + Keep(s[1..], gone)
  }

  lemma {:induction false} KeepNoDup<T(!new)>(s: seq<T>, gone: set<T>)
    requires NoDup(s)
    ensures NoDup(Keep(s, gone))
  {
    if s != [] {
      KeepNoDup(s[1..], gone);
      assert s[0] !in s[1..];
    }
  }

  lemma {:induction false} KeepAll<T(!new)>(s: seq<T>, gone: set<T>)
    requires forall x :: x in s ==> x !in gone
    ensures Keep(s, gone) == s
  {
    if s != [] {
      KeepAll(s[1..], gone);
    }
  }

  lemma {:induction false} KeepNone<T(!new)>(s: seq<T>, gone: set<T>)
    requires forall x :: x in s ==> x in gone
    ensures Keep(s, gone) == []
  {
    if s != [] {
      KeepNone(s[1..], gone);
    }
  }

  lemma KeepFirst<T(!new)>(x: T, s: seq<T>, gone: set<T>)
    ensures Keep([x] + s, gone) == (if x in gone then [] else [x]) + Keep(s, gone)
  {
    assert ([x] + s)[1..] == s;
  }

  lemma KeepEmpty<T(!new)>(gone: set<T>)
    ensures Keep([], gone) == []
  {
  }

  lemma {:induction false} KeepConcat<T(!new)>(a: seq<T>, b: seq<T>, gone: set<T>)
    ensures Keep(a + b, gone) == Keep(a, gone) + Keep(b, gone)
  {
    hide Keep;
    if a == [] {
      KeepEmpty(gone);
      assert a + b == b;
    } else {
      KeepConcat(a[1..], b, gone);
      assert a == [a[0]] + a[1..] && a + b == [a[0]] + (a[1..] + b);
      KeepFirst(a[0], a[1..], gone);
      KeepFirst(a[0], a[1..] + b, gone);
    }
  }

  lemma {:induction false} KeepTwice<T(!new)>(s: seq<T>, first: set<T>, second: set<T>)
    ensures Keep(Keep(s, first), second) == Keep(s, first + second)
  {
    if s != [] {
      KeepTwice(s[1..], first, second);
      var head := if s[0] in first then [] else [s[0]];
      KeepConcat(head, Keep(s[1..], first), second);
    }
  }

  /** Removing the only occurrence of a value by position is filtering that value out. */
  lemma {:induction false} KeepOne<T(!new)>(s: seq<T>, i: nat)
    requires i < |s| && NoDup(s)
    ensures Keep(s, {s[i]}) == s[..i] + s[i + 1..]
  {
    hide Keep;
    var x, before, after := s[i], s[..i], s[i + 1..];
    assert x !in before && x !in after;
    assert s == before + ([x] + after);
    KeepConcat(before, [x] + after, {x});
    KeepFirst(x, after, {x});
    KeepAll(before, {x});
    KeepAll(after, {x});
  }

  lemma KeepSuffix<T(!new)>(s: seq<T>, i: nat, gone: set<T>)
    requires i <= |s|
    requires forall x :: x in s[..i] ==> x in gone
    requires forall x :: x in s[i..] ==> x !in gone
    ensures Keep(s, gone) == s[i..]
  {
    hide Keep;
    KeepNone(s[..i], gone);
    KeepAll(s[i..], gone);
    KeepConcat(s[..i], s[i..], gone);
    assert s == s[..i] + s[i..];
  }

  function IndexOf<T(==)>(s: seq<T>, x: T): (i: nat)
    requires x in s
    ensures i < |s| && s[i] == x && x !in s[..i]
  {
    if s[0] == x then 0 else
      var i := IndexOf(s[1..], x);
      assert s[..i + 1] == [s[0]] + s[1..][..i];
      i + 1
  }

  /** Two duplicate-free sequences with the same elements are permutations of each other. */
  lemma {:induction false} SameElementsSameMultiset<T>(a: seq<T>, b: seq<T>)
    requires NoDup(a) && NoDup(b)
    requires forall x :: x in a <==> x in b
    ensures multiset(a) == multiset(b)
  {
    forall x ensures multiset(a)[x] == multiset(b)[x] {
      NoDupCount(a, x);
      NoDupCount(b, x);
    }
  }

  lemma {:induction false} NoDupCount<T>(s: seq<T>, x: T)
    requires NoDup(s)
    ensures multiset(s)[x] == if x in s then 1 else 0
  {
    if s != [] {
      NoDupCount(s[1..], x);
      assert s == [s[0]] + s[1..];
      assert multiset(s) == multiset([s[0]]) + multiset(s[1..]);
    }
  }

  function Map<T, U>(f: T -> U, s: seq<T>): (r: seq<U>)
    ensures |r| == |s| && forall i :: 0 <= i < |s| ==> r[i] == f(s[i])
  {
    seq(|s|, i requires 0 <= i < |s| => f(s[i]))
  }

  /** Mapping a permutation gives a permutation. */
  lemma {:induction false} MapPermutation<T, U>(f: T -> U, a: seq<T>, b: seq<T>)
    requires multiset(a) == multiset(b)
    ensures multiset(Map(f, a)) == multiset(Map(f, b))
  {
    if a == [] {
      assert |multiset(a)| == 0 && |multiset(b)| == |b|;
    } else {
      assert a[0] in multiset(b);
      var i :| 0 <= i < |b| && b[i] == a[0];
      var rest := b[..i] + b[i + 1..];
      assert a == [a[0]] + a[1..];
      assert b == b[..i] + [b[i]] + b[i + 1..];
      assert multiset(a[1..]) == multiset(a) - multiset{a[0]};
      assert multiset(rest) == multiset(b) - multiset{a[0]};
      MapPermutation(f, a[1..], rest);
      MapDrop(f, a, 0);
      MapDrop(f, b, i);
    }
  }

  lemma MapDrop<T, U>(f: T -> U, s: seq<T>, i: nat)
    requires i < |s|
    ensures multiset(Map(f, s)) == multiset(Map(f, s[..i] + s[i + 1..])) + multiset{f(s[i])}
    ensures i == 0 ==> s[..i] + s[i + 1..] == s[1..]
  {
    var m := Map(f, s);
    assert Map(f, s[..i] + s[i + 1..]) == m[..i] + m[i + 1..];
    assert m == m[..i] + [m[i]] + m[i + 1..];
  }
}
