/** The model that a grouping proxy observes: a tree of items with stable identities.
    A persistent index of the original is the identity of the item it points at. */
module SourceModel {
  import opened Sequences

  type Id = nat

  /** `rows` are the top-level items, `kids` the child rows of every item and `parent` the item
      a nested item sits under.  `groups` is what the proxy's `groupsForIndex` answers for a
      top-level item.  Identities are given out in increasing order below `next`, an item before its
      children.  An item of the table that hangs nowhere is detached: it is not part of the tree. */
  datatype Source = Source(
    rows: seq<Id>, kids: map<Id, seq<Id>>, parent: map<Id, Id>, groups: map<Id, set<string>>, next: Id)

  const Empty := Source([], map[], map[], map[], 0)

  ghost predicate WellFormed(S: Source) {
    && NoDup(S.rows)
    && (forall r :: r in S.rows ==> r in S.kids && r in S.groups && r !in S.parent)
    && (forall s :: s in S.kids ==> s < S.next && NoDup(S.kids[s]))
    && (forall s, c {:trigger c in S.kids[s]} :: s in S.kids && c in S.kids[s] ==> IsChild(S, s, c))
  }

  ghost predicate IsChild(S: Source, s: Id, c: Id) {
    s < c && c in S.kids && c in S.parent && S.parent[c] == s
  }

  lemma KidFacts(S: Source, s: Id, c: Id)
    requires WellFormed(S) && s in S.kids && c in S.kids[s]
    ensures s < c < S.next && c in S.kids && c in S.parent && S.parent[c] == s
  {
    assert NoDup(S.kids[c]);
  }

  /** Every row sits in at least one group: what both subclasses of the proxy guarantee. */
  ghost predicate Grouped(S: Source) {
    forall r :: r in S.rows ==> r in S.groups && S.groups[r] != {}
  }

  /** A copy of an item with everything below it. */
  datatype Tree = Tree(id: Id, kids: seq<Tree>)

  ghost function Subtree(S: Source, s: Id): Tree
    requires WellFormed(S) && s in S.kids
    decreases S.next - s
  {
    Tree(s, seq(|S.kids[s]|, i requires 0 <= i < |S.kids[s]| =>
      var c := S.kids[s][i];
      assert c in S.kids[s] && NoDup(S.kids[c]);
      Subtree(S, c)))
  }

  // ---- what a source may do between two signals ------------------------------------------

  /** Items already in the table keep their children, except possibly the children of `changing`. */
  ghost predicate Extends(S: Source, T: Source, changing: set<Id>) {
    && (forall s :: s in S.kids ==> s in T.kids)
    && (forall s :: s in S.kids && s !in changing ==> T.kids[s] == S.kids[s])
    && (forall r :: r in S.rows ==> r in T.groups && r in S.groups && T.groups[r] == S.groups[r])
  }

  /** `T` is `S` with top-level rows `start..end` inserted, each with whatever it has below it. */
  ghost predicate InsertsRows(S: Source, T: Source, start: nat, end: nat) {
    && WellFormed(S) && WellFormed(T) && Grouped(T)
    && start <= end < |T.rows|
    && S.rows == T.rows[..start] + T.rows[end + 1..]
    && Extends(S, T, {})
  }

  /** `T` is `S` with child rows `start..end` inserted under item `p`. */
  ghost predicate InsertsChildren(S: Source, T: Source, p: Id, start: nat, end: nat) {
    && WellFormed(S) && WellFormed(T)
    && p in S.kids && p in T.kids
    && T.rows == S.rows
    && start <= end < |T.kids[p]|
    && S.kids[p] == T.kids[p][..start] + T.kids[p][end + 1..]
    && Extends(S, T, {p})
  }

  function WithoutRows(S: Source, start: nat, end: nat): (T: Source)
    requires start <= end < |S.rows|
  {
    S.(rows := S.rows[..start] + S.rows[end + 1..])
  }

  function WithoutChildren(S: Source, p: Id, start: nat, end: nat): (T: Source)
    requires p in S.kids && start <= end < |S.kids[p]|
  {
    S.(kids := S.kids[p := S.kids[p][..start] + S.kids[p][end + 1..]])
  }

  /** `T` differs from `S` only in the groups of the top-level rows `first..last`. */
  ghost predicate Regroups(S: Source, T: Source, first: nat, last: nat) {
    && WellFormed(S) && WellFormed(T) && Grouped(T)
    && T == S.(groups := T.groups)
    && (forall i :: 0 <= i < |S.rows| && !(first <= i <= last) ==>
          T.groups[S.rows[i]] == S.groups[S.rows[i]])
  }

  /** Rows that are put in anywhere are an insertion, and its range has as many places as there are rows. */
  lemma AnyInsertion(S: Source, T: Source, start: nat, added: seq<Id>)
    requires WellFormed(S) && WellFormed(T) && Grouped(T) && Extends(S, T, {})
    requires start <= |S.rows| && added != [] && T.rows == S.rows[..start] + added + S.rows[start..]
    ensures InsertsRows(S, T, start, start + |added| - 1)
    ensures T.rows[start..(start + |added| - 1) + 1] == added
  {
    assert T.rows[..start] == S.rows[..start] && T.rows[start + |added|..] == S.rows[start..];
    assert S.rows[..start] + S.rows[start..] == S.rows;
  }

  lemma AnyNestedInsertion(S: Source, T: Source, p: Id, start: nat, added: seq<Id>)
    requires WellFormed(S) && WellFormed(T) && p in S.kids && p in T.kids && T.rows == S.rows && Extends(S, T, {p})
    requires start <= |S.kids[p]| && added != [] && T.kids[p] == S.kids[p][..start] + added + S.kids[p][start..]
    ensures InsertsChildren(S, T, p, start, start + |added| - 1)
    ensures T.kids[p][start..(start + |added| - 1) + 1] == added
  {
    var was, now := S.kids[p], T.kids[p];
    assert now[..start] == was[..start] && now[start + |added|..] == was[start..];
    assert was[..start] + was[start..] == was;
  }

  /** New groups for any of the rows from `first` to `last`, both of them included, are a change of data. */
  lemma AnyRegrouping(S: Source, T: Source, first: nat, last: nat)
    requires WellFormed(S) && WellFormed(T) && Grouped(T) && T == S.(groups := T.groups)
    requires first <= last < |S.rows|
    requires forall r :: r in S.rows && r !in S.rows[first..last + 1] ==> T.groups[r] == S.groups[r]
    ensures Regroups(S, T, first, last)
  {
    forall i | 0 <= i < |S.rows| && !(first <= i <= last) ensures T.groups[S.rows[i]] == S.groups[S.rows[i]] {
      assert S.rows[i] in S.rows;
      assert S.rows[i] !in S.rows[first..last + 1];
    }
  }
}
