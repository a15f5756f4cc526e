/** The sorted list of settable presences and its one operation, the toggle. */
module PresenceList {
  import opened Presence

  /** What `==` looks at. */
  datatype Key = Key(priority: nat, message: string)

  function KeyOf(p: Presence): Key {
    Key(SortPriority(p.kind), p.message)
  }

  /** Comparison of messages in the user's language: any total preorder. */
  ghost predicate TotalPreorder(f: (string, string) -> int) {
    && (forall a, b :: f(a, b) < 0 <==> f(b, a) > 0)
    && (forall a, b, c :: f(a, b) <= 0 && f(b, c) <= 0 ==> f(a, c) <= 0)
  }

  type Collation = f: (string, string) -> int | TotalPreorder(f) witness (a: string, b: string) => 0

  /** The order of the list. */
  predicate Precedes(collate: Collation, a: Presence, b: Presence) {
    if SortPriority(a.kind) == SortPriority(b.kind) then collate(a.message, b.message) < 0
    else SortPriority(a.kind) < SortPriority(b.kind)
  }

  lemma PrecedesOrder(collate: Collation, a: Presence, b: Presence, c: Presence)
    ensures !Precedes(collate, a, a)
    ensures Precedes(collate, a, b) ==> !Precedes(collate, b, a)
    ensures !Precedes(collate, b, a) && !Precedes(collate, c, b) ==> !Precedes(collate, c, a)
    ensures Precedes(collate, a, b) && !Precedes(collate, c, b) ==> Precedes(collate, a, c)
    ensures Same(a, b) ==>
      (Precedes(collate, a, c) <==> Precedes(collate, b, c)) && (Precedes(collate, c, a) <==> Precedes(collate, c, b))
  {
    var x, y, z := a.message, b.message, c.message;
    assert collate(x, x) < 0 <==> collate(x, x) > 0;
    assert collate(x, y) < 0 <==> collate(y, x) > 0;
    assert collate(y, x) < 0 <==> collate(x, y) > 0;
    assert collate(y, z) < 0 <==> collate(z, y) > 0;
    assert collate(z, y) < 0 <==> collate(y, z) > 0;
    assert collate(x, z) < 0 <==> collate(z, x) > 0;
    assert collate(z, x) < 0 <==> collate(x, z) > 0;
    assert collate(x, y) <= 0 && collate(y, z) <= 0 ==> collate(x, z) <= 0;
    assert collate(z, x) <= 0 && collate(x, y) <= 0 ==> collate(z, y) <= 0;
    assert collate(y, z) <= 0 && collate(z, x) <= 0 ==> collate(y, x) <= 0;
  }

  ghost predicate Ordered(collate: Collation, list: seq<Presence>) {
    && (forall i, j :: 0 <= i < j < |list| ==> !Precedes(collate, list[j], list[i]))
    && (forall i, j :: 0 <= i < j < |list| ==> !Same(list[i], list[j]))
  }

  /** The more available ones come first, among equally available ones messages ascend, and no presence is
      there twice. */
  ghost predicate Arranged(collate: Collation, list: seq<Presence>) {
    && (forall i, j :: 0 <= i < j < |list| ==> SortPriority(list[i].kind) <= SortPriority(list[j].kind))
    && (forall i, j :: 0 <= i < j < |list| && SortPriority(list[i].kind) == SortPriority(list[j].kind) ==>
          collate(list[i].message, list[j].message) <= 0 && list[i].message != list[j].message)
  }

  lemma OrderedIsArranged(collate: Collation, list: seq<Presence>)
    ensures Ordered(collate, list) <==> Arranged(collate, list)
  {
    if Ordered(collate, list) {
      forall i, j | 0 <= i < j < |list| ensures PairArranged(collate, list[i], list[j]) {
        assert !Precedes(collate, list[j], list[i]) && !Same(list[i], list[j]);
        PairOrder(collate, list[i], list[j]);
      }
    }
    if Arranged(collate, list) {
      forall i, j | 0 <= i < j < |list| ensures !Precedes(collate, list[j], list[i]) && !Same(list[i], list[j]) {
        PairOrder(collate, list[i], list[j]);
      }
    }
  }

  ghost predicate PairArranged(collate: Collation, a: Presence, b: Presence) {
    && SortPriority(a.kind) <= SortPriority(b.kind)
    && (SortPriority(a.kind) == SortPriority(b.kind) ==> collate(a.message, b.message) <= 0 && a.message != b.message)
  }

  lemma PairOrder(collate: Collation, a: Presence, b: Presence)
    ensures PairArranged(collate, a, b) <==> !Precedes(collate, b, a) && !Same(a, b)
  {
    var x, y := a.message, b.message;
    assert collate(y, x) < 0 <==> collate(x, y) > 0;
  }

  /** A presence that is less available than all others goes to the end. */
  lemma ToggledToEnd(collate: Collation, list: seq<Presence>, p: Presence)
    requires forall i :: 0 <= i < |list| ==> SortPriority(list[i].kind) < SortPriority(p.kind)
    ensures Toggled(collate, list, p) == list + [p]
  {
    assert !Contains(list, p);
    var row := LowerBound(collate, list, p);
    if row < |list| { assert Precedes(collate, list[row], p); }
    assert list[..row] + [p] + list[row..] == list + [p];
  }

  predicate Contains(list: seq<Presence>, p: Presence) {
    exists i :: 0 <= i < |list| && Same(list[i], p)
  }

  /** `indexOf`; the length of the list when there is none. */
  function IndexOf(list: seq<Presence>, p: Presence): (i: nat)
    ensures i <= |list| && (i < |list| ==> Same(list[i], p))
    ensures forall k :: 0 <= k < i ==> !Same(list[k], p)
    ensures i < |list| <==> Contains(list, p)
  {
    if list == [] || Same(list[0], p) then 0 else 1 + IndexOf(list[1..], p)
  }

  /** The place `lower_bound` finds. */
  function LowerBound(collate: Collation, list: seq<Presence>, p: Presence): (row: nat)
    ensures row <= |list|
    ensures forall k :: 0 <= k < row ==> Precedes(collate, list[k], p)
    ensures row < |list| ==> !Precedes(collate, list[row], p)
  {
    if list == [] || !Precedes(collate, list[0], p) then 0 else 1 + LowerBound(collate, list[1..], p)
  }

  /** `modifyModel`: out if it is in, in if it is not. */
  function Toggled(collate: Collation, list: seq<Presence>, p: Presence): seq<Presence> {
    if Contains(list, p) then
      var row := IndexOf(list, p);
      list[..row] + list[row + 1..]
    else
      var row := LowerBound(collate, list, p);
      list[..row] + [p] + list[row..]
  }

  lemma ToggledIn(collate: Collation, list: seq<Presence>, p: Presence)
    ensures !Contains(list, p) ==> multiset(Toggled(collate, list, p)) == multiset(list) + multiset{p}
  {
    var row := LowerBound(collate, list, p);
    assert list == list[..row] + list[row..];
  }

  function Keys(list: seq<Presence>): (r: set<Key>)
    ensures forall p :: KeyOf(p) in r <==> Contains(list, p)
  {
    var r := set i | 0 <= i < |list| :: KeyOf(list[i]);
    assert forall i :: 0 <= i < |list| ==> KeyOf(list[i]) in r;
    r
  }

  /** In an ordered list, everything from the place found by `lower_bound` on stays behind. */
  lemma BehindLowerBound(collate: Collation, list: seq<Presence>, p: Presence, k: nat)
    requires Ordered(collate, list) && LowerBound(collate, list, p) <= k < |list|
    ensures !Precedes(collate, list[k], p)
  {
    var row := LowerBound(collate, list, p);
    if row < k { PrecedesOrder(collate, p, list[row], list[k]); }
  }

  lemma RemovalOrder(collate: Collation, list: seq<Presence>, row: nat)
    requires Ordered(collate, list) && row < |list|
    ensures Ordered(collate, list[..row] + list[row + 1..])
  {
    hide Precedes, Same;
    var t := list[..row] + list[row + 1..];
    forall k | 0 <= k < |t| ensures t[k] == list[if k < row then k else k + 1] { }
  }

  lemma InsertionOrder(collate: Collation, list: seq<Presence>, row: nat, p: Presence)
    requires Ordered(collate, list) && row <= |list|
    requires forall k :: 0 <= k < row ==> !Precedes(collate, p, list[k])
    requires forall k :: row <= k < |list| ==> !Precedes(collate, list[k], p)
    requires forall k :: 0 <= k < |list| ==> !Same(list[k], p) && !Same(p, list[k])
    ensures Ordered(collate, list[..row] + [p] + list[row..])
  {
    hide Precedes, Same;
    var t := list[..row] + [p] + list[row..];
    forall k | 0 <= k < |t| ensures t[k] == if k < row then list[k] else if k == row then p else list[k - 1] { }
  }

  /** The toggle keeps the list sorted and free of duplicates. */
  lemma ToggleKeepsOrder(collate: Collation, list: seq<Presence>, p: Presence)
    requires Ordered(collate, list)
    ensures Ordered(collate, Toggled(collate, list, p))
  {
    hide Precedes, LowerBound;
    if Contains(list, p) {
      RemovalOrder(collate, list, IndexOf(list, p));
    } else {
      var row := LowerBound(collate, list, p);
      forall k | row <= k < |list| ensures !Precedes(collate, list[k], p) { BehindLowerBound(collate, list, p, k); }
      forall k | 0 <= k < row ensures !Precedes(collate, p, list[k]) { PrecedesOrder(collate, list[k], p, p); }
      InsertionOrder(collate, list, row, p);
    }
  }

  lemma RemovalKeys(list: seq<Presence>, row: nat)
    requires row < |list| && forall i, j :: 0 <= i < j < |list| ==> !Same(list[i], list[j])
    ensures Keys(list[..row] + list[row + 1..]) == Keys(list) - {KeyOf(list[row])}
  {
    var t := list[..row] + list[row + 1..];
    forall k | 0 <= k < |list| && k != row
      ensures t[if k < row then k else k - 1] == list[k] && !Same(list[k], list[row]) {
      if row < k { assert !Same(list[row], list[k]); }
    }
    forall k | 0 <= k < |t| ensures t[k] == list[if k < row then k else k + 1] { }
    forall key ensures key in Keys(t) <==> key in Keys(list) && key != KeyOf(list[row]) {
      if key in Keys(t) {
        var k :| 0 <= k < |t| && KeyOf(t[k]) == key;
        assert t[k] == list[if k < row then k else k + 1];
      }
      if key in Keys(list) && key != KeyOf(list[row]) {
        var k :| 0 <= k < |list| && KeyOf(list[k]) == key;
        assert t[if k < row then k else k - 1] == list[k];
      }
    }
  }

  lemma KeysMeaning(list: seq<Presence>, key: Key)
    ensures key in Keys(list) <==> exists k :: 0 <= k < |list| && KeyOf(list[k]) == key
  {
  }

  lemma KeysConcat(a: seq<Presence>, b: seq<Presence>)
    ensures Keys(a + b) == Keys(a) + Keys(b)
  {
    hide Keys, Contains, KeyOf;
    var t := a + b;
    forall key ensures key in Keys(t) <==> key in Keys(a) + Keys(b) {
      KeysMeaning(a, key);
      KeysMeaning(b, key);
      KeysMeaning(t, key);
      if k :| 0 <= k < |a| && KeyOf(a[k]) == key { assert t[k] == a[k]; }
      if k :| 0 <= k < |b| && KeyOf(b[k]) == key { assert t[|a| + k] == b[k]; }
      if k :| 0 <= k < |t| && KeyOf(t[k]) == key { assert t[k] == if k < |a| then a[k] else b[k - |a|]; }
    }
  }

  lemma InsertionKeys(list: seq<Presence>, row: nat, p: Presence)
    requires row <= |list|
    ensures Keys(list[..row] + [p] + list[row..]) == Keys(list) + {KeyOf(p)}
  {
    hide Keys, Contains, KeyOf;
    KeysConcat(list[..row] + [p], list[row..]);
    KeysConcat(list[..row], [p]);
    KeysConcat(list[..row], list[row..]);
    assert list == list[..row] + list[row..];
    KeysOfOne(p);
  }

  lemma KeysOfOne(p: Presence)
    ensures Keys([p]) == {KeyOf(p)}
  {
    forall key ensures key in Keys([p]) <==> key == KeyOf(p) {
      KeysMeaning([p], key);
      assert [p][0] == p;
    }
  }

  /** On the set of presences it is the exclusive or. */
  lemma ToggleKeys(collate: Collation, list: seq<Presence>, p: Presence)
    requires Ordered(collate, list)
    ensures Keys(Toggled(collate, list, p)) == if Contains(list, p) then Keys(list) - {KeyOf(p)}
      else Keys(list) + {KeyOf(p)}
  {
    hide Keys;
    if Contains(list, p) {
      RemovalKeys(list, IndexOf(list, p));
    } else {
      InsertionKeys(list, LowerBound(collate, list, p), p);
    }
  }

  /** Adding and removing again restores the very list. */
  lemma AddThenRemove(collate: Collation, list: seq<Presence>, p: Presence)
    requires !Contains(list, p)
    ensures Toggled(collate, Toggled(collate, list, p), p) == list
  {
    var row := LowerBound(collate, list, p);
    var t := list[..row] + [p] + list[row..];
    assert t[row] == p;
    assert Contains(t, p);
    var at := IndexOf(t, p);
    assert forall k :: 0 <= k < row ==> t[k] == list[k];
    assert at == row;
  }

  /** Removing and adding again restores the set, and the list exactly when the presence was the first
      of those that the language does not tell apart. */
  lemma RemoveThenAdd(collate: Collation, list: seq<Presence>, row: nat)
    requires Ordered(collate, list) && row < |list|
    ensures
      var p := list[row];
      var t := Toggled(collate, Toggled(collate, list, p), p);
      && Keys(t) == Keys(list)
      && (t == list <==> row == 0 || Precedes(collate, list[row - 1], p))
  {
    hide Keys, Precedes, Ordered, Contains, KeyOf;
    var p := list[row];
    OnlyPlace(collate, list, row);
    var without := list[..row] + list[row + 1..];
    ToggleKeys(collate, list, p);
    ToggleKeepsOrder(collate, list, p);
    assert KeyOf(p) in Keys(list) && KeyOf(p) !in Keys(without);
    ToggleKeys(collate, without, p);
    assert Keys(list) - {KeyOf(p)} + {KeyOf(p)} == Keys(list);
    PlaceAfterRemoval(collate, list, row);
  }

  lemma OnlyPlace(collate: Collation, list: seq<Presence>, row: nat)
    requires Ordered(collate, list) && row < |list|
    ensures Contains(list, list[row]) && IndexOf(list, list[row]) == row
  {
    assert Same(list[row], list[row]);
    var at := IndexOf(list, list[row]);
    assert forall k :: 0 <= k < row ==> !Same(list[k], list[row]);
  }

  lemma PlaceAfterRemoval(collate: Collation, list: seq<Presence>, row: nat)
    requires Ordered(collate, list) && row < |list|
    ensures
      var p, without := list[row], list[..row] + list[row + 1..];
      var back := LowerBound(collate, without, p);
      without[..back] + [p] + without[back..] == list <==> row == 0 || Precedes(collate, list[row - 1], p)
  {
    var p, without := list[row], list[..row] + list[row + 1..];
    var back := LowerBound(collate, without, p);
    var t := without[..back] + [p] + without[back..];
    if row < |without| { assert without[row] == list[row + 1]; PrecedesOrder(collate, p, list[row + 1], p); }
    assert forall k :: 0 <= k < back ==> Precedes(collate, without[k], p);
    assert back <= row;
    if back < row {
      assert t[back] == p && list[back] == without[back];
      assert !Same(list[back], list[row]);
      PrecedesOrder(collate, p, list[back], list[row - 1]);
      assert row - 1 > back ==> !Precedes(collate, list[row - 1], list[back]);
      assert !Precedes(collate, list[row - 1], p);
    } else {
      assert t == list;
      if row > 0 { assert without[row - 1] == list[row - 1]; }
    }
  }
}
