/** The invariant of the grouping proxy across its slots. */
module GroupingSlots {
  import opened Sequences
  import opened SourceModel
  import opened NodeStore
  import opened GroupingInvariant
  import opened GroupingSteps
  import opened GroupingEdits

  /** A cached group set is either still empty or the groups the row is shown in. */
  ghost predicate CacheFits(S: Source, cache: map<Id, set<string>>) {
    forall r :: r in cache ==> r in S.rows && r in S.groups && (cache[r] == {} || cache[r] == S.groups[r])
  }

  /** `S` and `T` describe the same items; they may differ in rows and groups. */
  ghost predicate SameItems(S: Source, T: Source) {
    S.kids == T.kids && S.next == T.next && S.parent == T.parent
  }

  lemma PlantedFor(S: Source, T: Source, A: Store, B: Store, root: Node, par: Node, s: Id)
    requires SameItems(S, T) && Planted(S, A, B, root, par, s)
    ensures Planted(T, A, B, root, par, s)
  {
    forall m | m in B && m !in A ensures NewNode(T, A, B, root, s, m) {
      assert NewNode(S, A, B, root, s, m);
    }
  }

  lemma CopiedBelowFor(S: Source, T: Source, N: Store, n: Node)
    requires SameItems(S, T) && AllCopied(S, N)
    ensures CopiedBelow(T, N, n)
  {
    forall m | m in Below(N, {n}) ensures Copied(T, N, m) { assert Copied(S, N, m); }
  }

  lemma CopiedForGroups(S: Source, N: Store, r: Id, groups: set<string>)
    requires AllCopied(S, N)
    ensures AllCopied(SetGroups(S, r, groups), N)
  {
    forall n | n in N ensures Copied(SetGroups(S, r, groups), N, n) { assert Copied(S, N, n); }
  }

  lemma UniqueGroups(st: State)
    requires Sound(st)
    ensures forall n, m ::
      (n in st.nodes && m in st.nodes && st.nodes[n].GroupItem? && st.nodes[m].GroupItem? &&
       st.nodes[n].group == st.nodes[m].group) ==> n == m
  {
  }

  lemma SetGroupsSame(S: Source, r: Id)
    requires r in S.groups
    ensures SetGroups(S, r, S.groups[r]) == S
  {
    assert S.groups[r := S.groups[r]] == S.groups;
  }

  lemma SetGroupsTwice(S: Source, r: Id, first: set<string>, second: set<string>)
    ensures SetGroups(SetGroups(S, r, first), r, second) == SetGroups(S, r, second)
  {
  }

  /** A null entry breaks the group index. */
  lemma NullEntry(N: Store, rows: seq<Node>, groupMap: map<string, Option<Node>>, g: string)
    requires g in groupMap && groupMap[g] == None
    ensures !GroupsIndexed(N, rows, groupMap)
  {
  }

  // ---- a new, still empty group ---------------------------------------------------------

  lemma NewGroupSound(st: State, g: string)
    requires Sound(st) && g !in st.groupMap
    ensures Sound(State(st.nodes[st.next := GroupItem(g, false, [])], st.next + 1, st.rows + [st.next],
                        st.proxyMap, st.groupMap[g := Some(st.next)]))
  {
    var N, n := st.nodes, st.next;
    var B := N[n := GroupItem(g, false, [])];
    NewGroupLinked(N, n, g);
    NewGroupIndexed(N, st.proxyMap, n, g);
    NewGroupGroupsIndexed(N, st.rows, st.groupMap, n, g);
  }

  lemma NewGroupLinked(N: Store, n: Node, g: string)
    requires Linked(N, n)
    ensures Linked(N[n := GroupItem(g, false, [])], n + 1)
  {
    var B := N[n := GroupItem(g, false, [])];
    forall m, c | m in B && c in B[m].kids ensures IsKid(B, m, c) { assert IsKid(N, m, c); }
  }

  lemma NewGroupGroupsIndexed(N: Store, rows: seq<Node>, groupMap: map<string, Option<Node>>, n: Node, g: string)
    requires GroupsIndexed(N, rows, groupMap) && n !in N && g !in groupMap
    ensures GroupsIndexed(N[n := GroupItem(g, false, [])], rows + [n], groupMap[g := Some(n)])
  {
    assert n !in rows;
  }

  lemma NewGroupIndexed(N: Store, proxyMap: map<Id, set<Node>>, n: Node, g: string)
    requires Indexed(N, proxyMap) && n !in N
    ensures Indexed(N[n := GroupItem(g, false, [])], proxyMap)
  {
    var B := N[n := GroupItem(g, false, [])];
    forall s, m ensures m in Find(proxyMap, s) <==> m in B && B[m].ProxyItem? && B[m].src == s {
      assert m in Find(proxyMap, s) <==> m in N && N[m].ProxyItem? && N[m].src == s;
    }
  }

  lemma NewGroupMirrors(S: Source, N: Store, next: Node, g: string)
    requires Linked(N, next) && AllCopied(S, N) && Placed(S, N) && NoneEmpty(N, {})
    ensures
      var B := N[next := GroupItem(g, false, [])];
      AllCopied(S, B) && Placed(S, B) && NoneEmpty(B, {next}) && Forced(B) == Forced(N)
  {
    var B := N[next := GroupItem(g, false, [])];
    assert next !in N;
    forall n | n in B ensures Copied(S, B, n) {
      if n in N { assert Copied(S, N, n); }
    }
    forall n, r, h ensures InGroup(B, n, r, h) <==> InGroup(N, n, r, h) {
      if n in N && N[n].ProxyItem? { assert N[n].parent in N; }
    }
    SamePlaced(S, S, N, B);
    assert forall n :: n in N ==> B[n] == N[n];
  }

  // ---- marking a group --------------------------------------------------------------------

  function Mark(item: Item, forced: bool): (r: Item)
    requires item.GroupItem?
    ensures r.GroupItem? && r.group == item.group && r.kids == item.kids && r.forced == forced
  {
    item.(forced := forced)
  }

  lemma MarkMirrors(S: Source, st: State, p: Node, forced: bool, exempt: set<Node>)
    requires WellFormed(S) && Sound(st) && AllCopied(S, st.nodes) && Placed(S, st.nodes) && NoneEmpty(st.nodes, exempt)
    requires p in st.nodes && st.nodes[p].GroupItem?
    requires forced ==> exempt <= {p}
    ensures
      var B := st.nodes[p := Mark(st.nodes[p], forced)];
      && Sound(st.(nodes := B)) && AllCopied(S, B) && Placed(S, B)
      && NoneEmpty(B, if forced then {} else exempt + {p})
      && Forced(B) == if forced then Forced(st.nodes) + {st.nodes[p].group}
                      else Forced(st.nodes) - {st.nodes[p].group}
  {
    var N := st.nodes;
    var B := N[p := Mark(N[p], forced)];
    MarkLinked(N, st.next, p, forced);
    MarkIndexed(st, p, forced);
    forall n | n in B ensures Copied(S, B, n) { assert Copied(S, N, n); }
    forall n, r, h ensures InGroup(B, n, r, h) <==> InGroup(N, n, r, h) { }
    SamePlaced(S, S, N, B);
    MarkForced(st, p, forced);
  }

  lemma MarkLinked(N: Store, next: Node, p: Node, forced: bool)
    requires Linked(N, next) && p in N && N[p].GroupItem?
    ensures Linked(N[p := Mark(N[p], forced)], next)
  {
    var B := N[p := Mark(N[p], forced)];
    forall m, c | m in B && c in B[m].kids ensures IsKid(B, m, c) {
      assert c in N[m].kids && IsKid(N, m, c);
    }
  }

  lemma MarkIndexed(st: State, p: Node, forced: bool)
    requires Sound(st) && p in st.nodes && st.nodes[p].GroupItem?
    ensures Indexed(st.nodes[p := Mark(st.nodes[p], forced)], st.proxyMap)
    ensures GroupsIndexed(st.nodes[p := Mark(st.nodes[p], forced)], st.rows, st.groupMap)
  {
    var N := st.nodes;
    var B := N[p := Mark(N[p], forced)];
    forall s, m ensures m in Find(st.proxyMap, s) <==> m in B && B[m].ProxyItem? && B[m].src == s {
      assert m in Find(st.proxyMap, s) <==> m in N && N[m].ProxyItem? && N[m].src == s;
    }
  }

  lemma MarkForced(st: State, p: Node, forced: bool)
    requires Sound(st) && p in st.nodes && st.nodes[p].GroupItem?
    ensures Forced(st.nodes[p := Mark(st.nodes[p], forced)]) ==
      if forced then Forced(st.nodes) + {st.nodes[p].group} else Forced(st.nodes) - {st.nodes[p].group}
  {
    var N := st.nodes;
    var B := N[p := Mark(N[p], forced)];
    forall g ensures g in Forced(B) <==>
      if g == N[p].group then forced else g in Forced(N)
    {
      if g in Forced(B) {
        var n :| n in B && B[n].GroupItem? && B[n].forced && B[n].group == g;
        assert n in N && N[n].group == g;
        if g == N[p].group { assert n == p; }
      }
      if g == N[p].group && forced { assert B[p].group == g; }
      if g != N[p].group && g in Forced(N) {
        var n :| n in N && N[n].GroupItem? && N[n].forced && N[n].group == g;
        assert B[n] == N[n];
      }
    }
  }

  lemma FilledGroup(N: Store, p: Node)
    requires NoneEmpty(N, {p}) && p in N && N[p].kids != []
    ensures NoneEmpty(N, {})
  {
  }

  /** An empty unforced group goes. */
  lemma EmptyGroupLeaves(S: Source, st: State, p: Node)
    requires WellFormed(S) && Sound(st) && AllCopied(S, st.nodes) && Placed(S, st.nodes) && NoneEmpty(st.nodes, {p})
    requires p in st.nodes && st.nodes[p].GroupItem? && st.nodes[p].kids == [] && !st.nodes[p].forced
    ensures Mirrors(S, State(st.nodes - {p}, st.next, Keep(st.rows, {p}), st.proxyMap,
                             st.groupMap - {st.nodes[p].group}))
    ensures Forced(st.nodes - {p}) == Forced(st.nodes)
  {
    hide Keep;
    var N: Store := st.nodes;
    var B: Store := N - {p};
    GroupLeaves(N, st.next, st.rows, st.proxyMap, st.groupMap, p);
    forall n | n in B ensures Copied(S, B, n) {
      assert Copied(S, N, n);
    }
    forall n: Node, r, h ensures InGroup(B, n, r, h) <==> InGroup(N, n, r, h) {
      if InGroup(N, n, r, h) { assert n in N[N[n].parent].kids; }
    }
    SamePlaced(S, S, N, B);
  }

  // ---- rows without groups ------------------------------------------------------------------

  /** Rows that are in no group, and groups of other items, make no difference. */
  lemma RowsWithoutGroups(S: Source, T: Source, st: State)
    requires Mirrors(S, st) && WellFormed(T) && SameItems(S, T)
    requires forall r :: r in S.rows && S.groups[r] != {} ==> r in T.rows && T.groups[r] == S.groups[r]
    requires forall r :: r in T.rows && T.groups[r] != {} ==> r in S.rows && T.groups[r] == S.groups[r]
    ensures Mirrors(T, st)
  {
    forall n | n in st.nodes ensures Copied(T, st.nodes, n) { assert Copied(S, st.nodes, n); }
  }

  /** More items in the table make no difference as long as the rows stay. */
  lemma MoreItems(S: Source, T: Source, st: State)
    requires Mirrors(S, st) && WellFormed(T) && Extends(S, T, {}) && T.rows == S.rows
    ensures Mirrors(T, st)
  {
    forall n | n in st.nodes ensures Copied(T, st.nodes, n) { assert Copied(S, st.nodes, n); }
  }

  // ---- one more child for all proxies of an item -----------------------------------------------

  /** `F` is `S` with `c` as the new last child of `p`; `T` is the source as it is, which may order
      the children of `p` differently. */
  ghost predicate CanGraft(S: Source, F: Source, T: Source, p: Id, c: Id) {
    && WellFormed(S) && WellFormed(F) && WellFormed(T)
    && p in S.kids && F == S.(kids := S.kids[p := S.kids[p] + [c]])
    && S.kids.Keys == T.kids.Keys
    && (forall s :: s in S.kids && s != p ==> S.kids[s] == T.kids[s])
    && p < c && c in T.kids
  }

  /** The proxies in `todo` still lack their new child. */
  ghost predicate Grafting(S: Source, F: Source, N: Store, todo: set<Node>) {
    forall n :: n in N ==> Copied(if n in todo then S else F, N, n)
  }

  lemma GraftStart(S: Source, F: Source, T: Source, p: Id, c: Id, N: Store, todo: set<Node>)
    requires CanGraft(S, F, T, p, c) && AllCopied(S, N)
    requires forall n :: n in N && N[n].ProxyItem? && N[n].src == p ==> n in todo
    ensures Grafting(S, F, N, todo)
  {
    forall n | n in N ensures Copied(if n in todo then S else F, N, n) { assert Copied(S, N, n); }
  }

  lemma GraftStep(S: Source, F: Source, T: Source, p: Id, c: Id, A: Store, B: Store, root: Node, m: Node,
                  todo: set<Node>)
    requires CanGraft(S, F, T, p, c) && Grafting(S, F, A, todo)
    requires m in todo && m in A && A[m].ProxyItem? && A[m].src == p
    requires Planted(T, A, B, root, m, c)
    requires forall n :: n in todo ==> n in A
    ensures Grafting(S, F, B, todo - {m})
  {
    forall n | n in B ensures Copied(if n in todo - {m} then S else F, B, n) {
      if n !in A {
        GraftNew(S, F, T, p, c, A, B, root, m, n);
      } else if n == m {
        assert Copied(S, A, m);
        assert B[m].kids == A[m].kids + [root];
        assert SameKids(B, B[m].kids, F.kids[p]);
      } else {
        assert Copied(if n in todo then S else F, A, n);
      }
    }
  }

  lemma GraftNew(S: Source, F: Source, T: Source, p: Id, c: Id, A: Store, B: Store, root: Node, m: Node, n: Node)
    requires CanGraft(S, F, T, p, c) && Planted(T, A, B, root, m, c) && n in B && n !in A
    ensures Copied(F, B, n)
  {
    assert NewNode(T, A, B, root, c, n);
    assert T.kids[c][..|T.kids[c]|] == T.kids[c];
    assert F.kids[B[n].src] == T.kids[B[n].src];
  }

  lemma GraftPlaced(T: Source, S: Source, A: Store, next: Node, B: Store, root: Node, m: Node, c: Id)
    requires Placed(S, A) && NoneEmpty(A, {}) && Linked(A, next)
    requires m in A && A[m].ProxyItem? && Planted(T, A, B, root, m, c)
    ensures Placed(S, B) && NoneEmpty(B, {}) && Forced(B) == Forced(A)
  {
    forall n | n in B && n !in A ensures B[n].ProxyItem? && !(B[n].parent in B && B[B[n].parent].GroupItem?) {
      assert NewNode(T, A, B, root, c, n);
      if n != root && B[n].parent in B { assert NewNode(T, A, B, root, c, B[n].parent); }
    }
    forall n, r, h ensures InGroup(B, n, r, h) <==> InGroup(A, n, r, h) {
      if n in A && A[n].ProxyItem? { assert A[n].parent in A; }
    }
    SamePlaced(S, S, A, B);
    forall n | n in A && A[n].GroupItem? ensures B[n] == A[n] { }
  }

  // ---- the sources between the rounds of the slots ------------------------------------------------

  /** Inserted rows `start..end` of `T` that come before place `i` are there already. */
  function InsertedUpTo(T: Source, i: nat, end: nat): Source
    requires i <= end + 1 <= |T.rows|
  {
    T.(rows := T.rows[..i] + T.rows[end + 1..])
  }

  lemma InsertStart(S: Source, T: Source, st: State, start: nat, end: nat)
    requires Mirrors(S, st) && InsertsRows(S, T, start, end)
    ensures Mirrors(InsertedUpTo(T, start, end), st)
  {
    hide Sound, AllCopied, Placed, NoneEmpty;
    var U := InsertedUpTo(T, start, end);
    MoreItems(S, U, st);
    assert T.(rows := S.rows) == U;
  }

  /** The next row is added to the rows before it is added to any group. */
  lemma InsertRound(T: Source, st: State, i: nat, end: nat)
    requires WellFormed(T) && i <= end < |T.rows|
    requires Mirrors(InsertedUpTo(T, i, end), st)
    ensures
      var r := T.rows[i];
      var W := SetGroups(InsertedUpTo(T, i + 1, end), r, {});
      && r in T.groups
      && r in W.rows && Mirrors(W, st) && SameItems(W, T)
      && SetGroups(W, r, {} + T.groups[r]) == InsertedUpTo(T, i + 1, end)
  {
    hide Sound, AllCopied, Placed, NoneEmpty;
    var r := T.rows[i];
    var S := InsertedUpTo(T, i, end);
    var U := InsertedUpTo(T, i + 1, end);
    var W := SetGroups(U, r, {});
    assert T.rows[..i + 1] == T.rows[..i] + [r];
    assert U.rows[i] == r;
    InsertedWellFormed(T, i + 1, end);
    assert WellFormed(W);
    assert r !in S.rows;
    RowsWithoutGroups(S, W, st);
    assert {} + T.groups[r] == T.groups[r];
    assert T.groups[r := {}][r := T.groups[r]] == T.groups;
  }

  lemma InsertedWellFormed(T: Source, i: nat, end: nat)
    requires WellFormed(T) && i <= end + 1 <= |T.rows|
    ensures WellFormed(InsertedUpTo(T, i, end))
  {
    var U := InsertedUpTo(T, i, end);
    forall r | r in U.rows ensures r in T.rows { }
  }

  /** Rows `start..` of `S` that come before place `i` are gone already. */
  function RemovedUpTo(S: Source, start: nat, i: nat): Source
    requires start <= i <= |S.rows|
  {
    S.(rows := S.rows[..start] + S.rows[i..])
  }

  /** All proxies of a row together name all its groups. */
  lemma AllNames(S: Source, N: Store, next: Node, r: Id, items: set<Node>)
    requires WellFormed(S) && Linked(N, next) && AllCopied(S, N) && Placed(S, N) && r in S.rows
    requires forall n :: n in items <==> n in N && N[n].ProxyItem? && N[n].src == r
    ensures Names(N, items) == S.groups[r]
  {
    forall g | g in S.groups[r] ensures g in Names(N, items) {
      var n :| InGroup(N, n, r, g);
      assert n in items;
    }
    forall g | g in Names(N, items) ensures g in S.groups[r] {
      var n :| n in items && n in N && N[n].ProxyItem? && N[n].parent in N && N[N[n].parent].GroupItem?
        && N[N[n].parent].group == g;
      assert InGroup(N, n, r, g);
    }
  }

  lemma RemovedFacts(S: Source, start: nat, end: nat, i: nat)
    requires start <= end < |S.rows| && start <= i <= end + 1
    ensures
      var T := RemovedUpTo(S, start, i);
      && SameItems(T, S) && T.groups == S.groups
      && (i == start ==> T == S) && (i <= end ==> S.rows[i] in T.rows && (WellFormed(S) ==> S.rows[i] in T.groups))
      && (i == end + 1 ==> T == WithoutRows(S, start, end))
  {
    if i == start {
      assert S.rows[..start] + S.rows[start..] == S.rows;
    }
    if i <= end {
      assert RemovedUpTo(S, start, i).rows[start] == S.rows[i];
    }
  }

  /** The proxies the index gives for a row are all there are. */
  lemma RowItems(S: Source, st: State, r: Id)
    requires Mirrors(S, st) && r in S.rows
    ensures
      var items := Find(st.proxyMap, r);
      && r in S.groups && Names(st.nodes, items) == S.groups[r]
      && forall n :: n in items ==> n in st.nodes && st.nodes[n].ProxyItem? && st.nodes[n].src == r
  {
    hide Linked, GroupsIndexed, AllCopied, Placed, NoneEmpty, Names;
    AllNames(S, st.nodes, st.next, r, Find(st.proxyMap, r));
  }

  /** Whatever has a proxy is a row or a child of some item. */
  lemma ProxyPlace(T: Source, st: State, n: Node)
    requires Mirrors(T, st) && n in st.nodes && st.nodes[n].ProxyItem?
    ensures st.nodes[n].src in T.rows || exists q :: q in T.kids && st.nodes[n].src in T.kids[q]
  {
    hide WellFormed, GroupsIndexed, NoneEmpty;
    var m := st.nodes[n].parent;
    assert m in st.nodes && n in st.nodes[m].kids;
    if st.nodes[m].GroupItem? {
      assert InGroup(st.nodes, n, st.nodes[n].src, st.nodes[m].group);
    } else {
      KidIsCopied(T, st.nodes, m, n);
    }
  }

  /** An item that hangs nowhere in the source has no proxies. */
  lemma Nowhere(T: Source, st: State, c: Id)
    requires Mirrors(T, st) && c !in T.rows
    requires forall q :: q in T.kids ==> c !in T.kids[q]
    ensures Find(st.proxyMap, c) == {}
  {
    hide WellFormed, GroupsIndexed, NoneEmpty, Linked, AllCopied, Placed;
    forall n | n in Find(st.proxyMap, c) ensures false { ProxyPlace(T, st, n); }
  }

  lemma RemovedChildUnshown(S: Source, T: Source, st: State, p: Id, start: nat, end: nat, c: Id)
    requires WellFormed(S) && p in S.kids && start <= end < |S.kids[p]| && c in S.kids[p][start..end + 1]
    requires Mirrors(T, st) && T.rows == S.rows && T.kids.Keys == S.kids.Keys
    requires forall q :: q in S.kids && q != p ==> T.kids[q] == S.kids[q]
    requires T.kids[p] == S.kids[p][..start] + S.kids[p][end + 1..]
    ensures Find(st.proxyMap, c) == {}
  {
    hide Mirrors;
    var items := S.kids[p];
    var k :| start <= k <= end && items[k] == c;
    assert c in items;
    KidFacts(S, p, c);
    forall q | q in T.kids ensures c !in T.kids[q] {
      if q == p {
        assert c !in items[..start] && c !in items[end + 1..];
      } else if c in S.kids[q] {
        KidFacts(S, q, c);
      }
    }
    Nowhere(T, st, c);
  }

  lemma RemovedRowUnshown(S: Source, T: Source, st: State, start: nat, end: nat, r: Id)
    requires WellFormed(S) && start <= end < |S.rows| && r in S.rows[start..end + 1]
    requires Mirrors(T, st) && T.kids == S.kids && T.rows == S.rows[..start] + S.rows[end + 1..]
    ensures Find(st.proxyMap, r) == {}
  {
    hide Mirrors;
    var k :| start <= k <= end && S.rows[k] == r;
    assert r !in S.rows[..start] && r !in S.rows[end + 1..];
    forall q | q in T.kids ensures r !in T.kids[q] {
      if r in S.kids[q] { KidFacts(S, q, r); }
    }
    Nowhere(T, st, r);
  }

  /** A row that is about to be inserted has no proxies yet. */
  lemma NewRowUnshown(S: Source, T: Source, st: State, start: nat, end: nat, r: Id)
    requires Mirrors(S, st) && InsertsRows(S, T, start, end) && r in T.rows[start..end + 1]
    ensures Find(st.proxyMap, r) == {}
  {
    hide Mirrors;
    var k :| start <= k <= end && T.rows[k] == r;
    assert r !in T.rows[..start] && r !in T.rows[end + 1..];
    forall q | q in S.kids ensures r !in S.kids[q] {
      if r in T.kids[q] { KidFacts(T, q, r); }
    }
    Nowhere(S, st, r);
  }

  lemma NewChildUnshown(S: Source, T: Source, st: State, p: Id, start: nat, end: nat, c: Id)
    requires Mirrors(S, st) && InsertsChildren(S, T, p, start, end) && c in T.kids[p][start..end + 1]
    ensures Find(st.proxyMap, c) == {}
  {
    hide Mirrors;
    var items := T.kids[p];
    var k :| start <= k <= end && items[k] == c;
    assert c in items;
    KidFacts(T, p, c);
    assert c !in items[..start] && c !in items[end + 1..];
    forall q | q in S.kids ensures c !in S.kids[q] {
      if q != p && c in T.kids[q] { KidFacts(T, q, c); }
    }
    Nowhere(S, st, c);
  }

  /** Below each proxy of an item are the proxies of its children, in order. */
  lemma KidsShown(T: Source, st: State, p: Id, n: Node)
    requires Mirrors(T, st) && n in Find(st.proxyMap, p)
    ensures n in st.nodes && p in T.kids && SameKids(st.nodes, st.nodes[n].kids, T.kids[p])
  {
    assert Copied(T, st.nodes, n);
  }

  lemma AllKidsShown(T: Source, st: State, p: Id)
    requires Mirrors(T, st)
    ensures forall n :: n in Find(st.proxyMap, p) ==>
      n in st.nodes && p in T.kids && SameKids(st.nodes, st.nodes[n].kids, T.kids[p])
  {
    hide Mirrors, SameKids, Find;
    forall n | n in Find(st.proxyMap, p)
      ensures n in st.nodes && p in T.kids && SameKids(st.nodes, st.nodes[n].kids, T.kids[p])
    {
      KidsShown(T, st, p, n);
    }
  }

  lemma AllRowItems(S: Source, st: State)
    requires Mirrors(S, st)
    ensures forall r :: r in S.rows ==> r in S.groups && Names(st.nodes, Find(st.proxyMap, r)) == S.groups[r]
  {
    hide Mirrors, Names, Find;
    forall r | r in S.rows ensures r in S.groups && Names(st.nodes, Find(st.proxyMap, r)) == S.groups[r] {
      RowItems(S, st, r);
    }
  }

  lemma AfterTopRemoval(S: Source, st: State, start: nat, end: nat)
    requires WellFormed(S) && start <= end < |S.rows| && Mirrors(WithoutRows(S, start, end), st)
    ensures forall r :: r in S.rows[start..end + 1] ==> Find(st.proxyMap, r) == {}
    ensures forall r :: r in S.rows[..start] + S.rows[end + 1..] ==>
      r in S.groups && Names(st.nodes, Find(st.proxyMap, r)) == S.groups[r]
  {
    hide Mirrors, Names, Find, WellFormed;
    AllRowItems(WithoutRows(S, start, end), st);
    forall r | r in S.rows[start..end + 1] ensures Find(st.proxyMap, r) == {} {
      RemovedRowUnshown(S, WithoutRows(S, start, end), st, start, end, r);
    }
  }

  lemma AfterChildRemoval(S: Source, st: State, p: Id, start: nat, end: nat)
    requires WellFormed(S) && p in S.kids && start <= end < |S.kids[p]|
    requires Mirrors(WithoutChildren(S, p, start, end), st)
    ensures forall c :: c in S.kids[p][start..end + 1] ==> Find(st.proxyMap, c) == {}
    ensures forall n :: n in Find(st.proxyMap, p) ==>
      n in st.nodes && SameKids(st.nodes, st.nodes[n].kids, S.kids[p][..start] + S.kids[p][end + 1..])
  {
    hide Mirrors, SameKids, Find, WellFormed;
    AllKidsShown(WithoutChildren(S, p, start, end), st, p);
    forall c | c in S.kids[p][start..end + 1] ensures Find(st.proxyMap, c) == {} {
      RemovedChildUnshown(S, WithoutChildren(S, p, start, end), st, p, start, end, c);
    }
  }

  lemma BeforeTopInsertion(S: Source, T: Source, st: State, start: nat, end: nat)
    requires Mirrors(S, st) && InsertsRows(S, T, start, end)
    ensures forall r :: r in T.rows[start..end + 1] ==> Find(st.proxyMap, r) == {}
  {
    hide Mirrors, Find;
    forall r | r in T.rows[start..end + 1] ensures Find(st.proxyMap, r) == {} {
      NewRowUnshown(S, T, st, start, end, r);
    }
  }

  lemma BeforeChildInsertion(S: Source, T: Source, st: State, p: Id, start: nat, end: nat)
    requires Mirrors(S, st) && InsertsChildren(S, T, p, start, end)
    ensures forall c :: c in T.kids[p][start..end + 1] ==> Find(st.proxyMap, c) == {}
  {
    hide Mirrors, Find, Extends;
    forall c | c in T.kids[p][start..end + 1] ensures Find(st.proxyMap, c) == {} {
      NewChildUnshown(S, T, st, p, start, end, c);
    }
  }

  lemma RowHasGroups(S: Source, st: State, r: Id)
    requires Mirrors(S, st) && r in S.rows
    ensures r in S.groups
  {
  }

  lemma RemoveRound(S: Source, st: State, start: nat, i: nat)
    requires WellFormed(S) && start <= i < |S.rows|
    requires Mirrors(SetGroups(RemovedUpTo(S, start, i), S.rows[i], {}), st)
    ensures Mirrors(RemovedUpTo(S, start, i + 1), st)
  {
    hide Sound, AllCopied, Placed, NoneEmpty;
    var r := S.rows[i];
    var W := SetGroups(RemovedUpTo(S, start, i), r, {});
    var U := RemovedUpTo(S, start, i + 1);
    assert S.rows[i..] == [r] + S.rows[i + 1..];
    RemovedWellFormed(S, start, i + 1);
    forall q | q in U.rows ensures q != r && q in W.rows { }
    RowsWithoutGroups(W, U, st);
  }

  lemma RemovedWellFormed(S: Source, start: nat, i: nat)
    requires WellFormed(S) && start <= i <= |S.rows|
    ensures WellFormed(RemovedUpTo(S, start, i))
  {
    var U := RemovedUpTo(S, start, i);
    forall r | r in U.rows ensures r in S.rows { }
  }

  /** The children of `p` are `items`, whatever they are in `T`. */
  function WithKids(T: Source, p: Id, items: seq<Id>): Source {
    T.(kids := T.kids[p := items])
  }

  lemma WithKidsWellFormed(T: Source, p: Id, items: seq<Id>)
    requires WellFormed(T) && p in T.kids && NoDup(items) && forall c :: c in items ==> c in T.kids[p]
    ensures WellFormed(WithKids(T, p, items))
  {
    var U := WithKids(T, p, items);
    forall s, c | s in U.kids && c in U.kids[s] ensures IsChild(U, s, c) {
      assert c in T.kids[s] && IsChild(T, s, c);
    }
  }

  lemma ShedRound(S: Source, st: State, p: Id, start: nat, i: nat, items: set<Node>)
    requires WellFormed(S) && p in S.kids && start <= i < |S.kids[p]|
    requires Mirrors(WithKids(S, p, S.kids[p][..start] + S.kids[p][i..]), st)
    requires items == Find(st.proxyMap, S.kids[p][i])
    ensures forall n :: n in items ==>
      n in st.nodes && st.nodes[n].ProxyItem? && st.nodes[n].src == S.kids[p][i] && CopiedBelow(S, st.nodes, n)
    ensures
      var T := WithKids(S, p, S.kids[p][..start] + S.kids[p][i + 1..]);
      var M := Cut(st.nodes, Gone(st.nodes, items));
      && WellFormed(T) && AllCopied(T, M) && Placed(T, M) && NoneEmpty(M, {})
      && Forced(M) == Forced(st.nodes)
  {
    hide Forced, Gone, Cut, Keep, CopiedBelow, Placed, NoneEmpty, Copied;
    var U := WithKids(S, p, S.kids[p][..start] + S.kids[p][i..]);
    var T := WithKids(S, p, S.kids[p][..start] + S.kids[p][i + 1..]);
    ShedSource(S, p, start, i);
    ShedItems(U, st, p, start, items);
    hide WellFormed, Linked, AllCopied, Indexed, GroupsIndexed, WithKids;
    ShedCopied(U, st.nodes, st.next, p, start, items);
    ShedPlaced(U, st.nodes, st.next, p, start, items);
    forall n | n in items ensures CopiedBelow(S, st.nodes, n) {
      CopiedBelowLater(S, U, st.nodes, st.next, p, n);
    }
  }

  lemma ShedSource(S: Source, p: Id, start: nat, i: nat)
    requires WellFormed(S) && p in S.kids && start <= i < |S.kids[p]|
    ensures
      var U := WithKids(S, p, S.kids[p][..start] + S.kids[p][i..]);
      var T := WithKids(S, p, S.kids[p][..start] + S.kids[p][i + 1..]);
      && U.kids.Keys == S.kids.Keys && (forall s :: s in S.kids && s != p ==> S.kids[s] == U.kids[s])
      && start < |U.kids[p]| && U.kids[p][start] == S.kids[p][i] && p < S.kids[p][i]
      && Shed(U, p, start) == T && WellFormed(T)
  {
    var U := WithKids(S, p, S.kids[p][..start] + S.kids[p][i..]);
    var T := WithKids(S, p, S.kids[p][..start] + S.kids[p][i + 1..]);
    KidFacts(S, p, S.kids[p][i]);
    hide IsChild;
    ShedSlice(S.kids[p], start, i);
    assert S.kids[p := U.kids[p]][p := T.kids[p]] == T.kids;
    forall d | d in T.kids[p] ensures d in S.kids[p] { }
    WithKidsWellFormed(S, p, T.kids[p]);
  }

  lemma ShedItems(U: Source, st: State, p: Id, start: nat, items: set<Node>)
    requires Mirrors(U, st) && p in U.kids && start < |U.kids[p]| && items == Find(st.proxyMap, U.kids[p][start])
    ensures CanShed(U, st.nodes, st.next, p, start, items)
    ensures forall n :: n in items ==> n in st.nodes && st.nodes[n].ProxyItem? && st.nodes[n].src == U.kids[p][start]
  {
    hide WellFormed, Linked, GroupsIndexed, AllCopied, Placed, NoneEmpty;
  }

  lemma ShedSlice(s: seq<Id>, start: nat, i: nat)
    requires start <= i < |s| && NoDup(s)
    ensures var u := s[..start] + s[i..]; u[..start] + u[start + 1..] == s[..start] + s[i + 1..]
    ensures NoDup(s[..start] + s[i + 1..])
  {
  }

  /** Below a proxy of a child of `p`, it does not matter what children `p` has. */
  lemma CopiedBelowLater(S: Source, U: Source, N: Store, next: Node, p: Id, n: Node)
    requires WellFormed(S) && WellFormed(U) && p in S.kids && S.kids.Keys == U.kids.Keys
    requires forall s :: s in S.kids && s != p ==> S.kids[s] == U.kids[s]
    requires Linked(N, next) && AllCopied(U, N)
    requires n in N && N[n].ProxyItem? && p < N[n].src
    ensures CopiedBelow(S, N, n)
  {
    assert CopiedBelow(U, N, n);
    forall m | m in Below(N, {n}) ensures Copied(S, N, m) {
      SourcesGrow(U, N, next, n, m);
      assert Copied(U, N, m);
    }
  }

  // ---- children inserted elsewhere than at the end ------------------------------------------------

  /** Proxies get new children at the end.  That mirrors the source exactly when the children of the
      source came at the end too, or nothing shows the parent. */
  lemma AppendedOnly(S: Source, T: Source, st: State, p: Id, start: nat, end: nat)
    requires InsertsChildren(S, T, p, start, end)
    requires Mirrors(WithKids(T, p, S.kids[p] + T.kids[p][start..end + 1]), st)
    ensures Mirrors(T, st) <==> Find(st.proxyMap, p) == {} || start == |S.kids[p]|
  {
    hide Sound, Placed, NoneEmpty, AllCopied, NoDup;
    var F := WithKids(T, p, S.kids[p] + T.kids[p][start..end + 1]);
    if Find(st.proxyMap, p) == {} {
      Unshown(F, T, st, p);
    } else if start == |S.kids[p]| {
      assert F.kids[p] == T.kids[p];
      assert T.kids[p := T.kids[p]] == T.kids;
    } else {
      assert F.kids[p][start] == T.kids[p][end + 1];
      Distinct(T.kids[p], start, end + 1);
      var n :| n in Find(st.proxyMap, p);
      OneOrder(F, T, st, p, n);
    }
  }

  lemma Distinct(s: seq<Id>, i: nat, j: nat)
    requires NoDup(s) && i < j < |s|
    ensures s[i] != s[j]
  {
  }

  lemma Unshown(F: Source, T: Source, st: State, p: Id)
    requires Mirrors(F, st) && WellFormed(T) && Find(st.proxyMap, p) == {}
    requires p in T.kids && p in F.kids && F == WithKids(T, p, F.kids[p])
    ensures Mirrors(T, st)
  {
    hide Linked, GroupsIndexed, NoneEmpty;
    forall n | n in st.nodes ensures Copied(T, st.nodes, n) {
      assert Copied(F, st.nodes, n);
      assert n !in Find(st.proxyMap, p);
    }
  }

  /** A proxy of `p` fixes the order of the children of `p`. */
  lemma OneOrder(F: Source, T: Source, st: State, p: Id, n: Node)
    requires Mirrors(F, st) && n in Find(st.proxyMap, p)
    requires p in F.kids && p in T.kids && F.kids[p] != T.kids[p]
    ensures !Mirrors(T, st)
  {
    hide Linked, GroupsIndexed, NoneEmpty, Placed;
    if AllCopied(T, st.nodes) {
      assert Copied(F, st.nodes, n) && Copied(T, st.nodes, n);
      SameKidsOnce(st.nodes, st.nodes[n].kids, F.kids[p], T.kids[p]);
    }
  }

  lemma SameKidsOnce(N: Store, kids: seq<Node>, a: seq<Id>, b: seq<Id>)
    requires SameKids(N, kids, a) && SameKids(N, kids, b)
    ensures a == b
  {
    forall i | 0 <= i < |a| ensures a[i] == b[i] {
      assert N[kids[i]].src == a[i] && N[kids[i]].src == b[i];
    }
  }

  // ---- the rounds of an insertion under an item ------------------------------------------------

  lemma GraftsStart(S: Source, T: Source, st: State, p: Id, start: nat, end: nat)
    requires Mirrors(S, st) && InsertsChildren(S, T, p, start, end)
    ensures Mirrors(WithKids(T, p, S.kids[p] + T.kids[p][start..start]), st)
  {
    hide Sound, AllCopied, Placed, NoneEmpty;
    assert S.kids[p] + T.kids[p][start..start] == S.kids[p];
    var U := WithKids(T, p, S.kids[p]);
    assert NoDup(S.kids[p]);
    WithKidsWellFormed(T, p, S.kids[p]);
    MoreItems(S, U, st);
  }

  lemma GraftsRound(S: Source, T: Source, p: Id, start: nat, end: nat, i: nat)
    requires InsertsChildren(S, T, p, start, end) && start <= i <= end
    ensures CanGraft(WithKids(T, p, S.kids[p] + T.kids[p][start..i]),
                     WithKids(T, p, S.kids[p] + T.kids[p][start..i + 1]), T, p, T.kids[p][i])
  {
    var first, all := S.kids[p], T.kids[p];
    var U, F := WithKids(T, p, first + all[start..i]), WithKids(T, p, first + all[start..i + 1]);
    assert all[i] in all;
    InsertOrder(first, all, start, end, i);
    InsertOrder(first, all, start, end, i + 1);
    WithKidsWellFormed(T, p, first + all[start..i]);
    WithKidsWellFormed(T, p, first + all[start..i + 1]);
    assert first + all[start..i + 1] == (first + all[start..i]) + [all[i]];
    assert F.kids == U.kids[p := U.kids[p] + [all[i]]];
  }

  lemma InsertOrder(first: seq<Id>, all: seq<Id>, start: nat, end: nat, i: nat)
    requires start <= end < |all| && start <= i <= end + 1
    requires NoDup(all) && first == all[..start] + all[end + 1..]
    ensures NoDup(first + all[start..i])
    ensures forall c :: c in first + all[start..i] ==> c in all
  {
    var u := first + all[start..i];
    forall k | 0 <= k < |u|
      ensures u[k] == all[if k < start then k else if k < |first| then k + (end + 1 - start) else k - |first| + start]
    {
    }
  }

  lemma GraftKeepsParents(T: Source, A: Store, B: Store, root: Node, m: Node, c: Id, p: Id,
                          before: map<Id, set<Node>>, after: map<Id, set<Node>>, parents: set<Node>)
    requires Planted(T, A, B, root, m, c) && p < c
    requires Indexed(B, after)
    requires forall n :: n in parents <==> n in A && A[n].ProxyItem? && A[n].src == p
    ensures Find(after, p) == parents
  {
    forall n ensures n in Find(after, p) <==> n in parents {
      assert n in Find(after, p) <==> n in B && B[n].ProxyItem? && B[n].src == p;
      if n in B && n !in A { assert NewNode(T, A, B, root, c, n); }
    }
  }

  lemma GraftEnd(S: Source, F: Source, N: Store)
    requires Grafting(S, F, N, {})
    ensures AllCopied(F, N)
  {
    forall n | n in N ensures Copied(F, N, n) {
      assert Copied(if n in {} then S else F, N, n);
    }
  }

  // ---- regrouping a row --------------------------------------------------------------------------

  /** Of the proxies in `seen`, those in `removed` sit in groups the row has left; `remaining` are the
      groups of `groups` that none of `seen` sits in. */
  ghost predicate Sorted(N: Store, groups: set<string>, seen: set<Node>, removed: set<Node>, remaining: set<string>) {
    && removed <= seen
    && remaining == groups - Names(N, seen)
    && Names(N, removed) == Names(N, seen) - groups
  }

  lemma SortProxy(S: Source, N: Store, next: Node, r: Id, groups: set<string>,
                  seen: set<Node>, removed: set<Node>, remaining: set<string>, n: Node)
    requires WellFormed(S) && Linked(N, next) && AllCopied(S, N) && Placed(S, N) && r in S.rows
    requires Sorted(N, groups, seen, removed, remaining)
    requires n !in seen && forall m :: m in seen + {n} ==> m in N && N[m].ProxyItem? && N[m].src == r
    ensures N[n].parent in N && N[N[n].parent].GroupItem?
    ensures
      var g := N[N[n].parent].group;
      && (g in remaining ==> Sorted(N, groups, seen + {n}, removed, remaining - {g}))
      && (g !in remaining ==> Sorted(N, groups, seen + {n}, removed + {n}, remaining))
  {
    hide Linked, AllCopied, WellFormed;
    assert n in seen + {n};
    RowInGroup(S, N, next, r, n);
    var g := N[N[n].parent].group;
    NamesOne(N, seen, n);
    NamesOne(N, removed, n);
    forall m | m in seen ensures N[m].parent in N && N[N[m].parent].GroupItem? && N[N[m].parent].group != g {
      assert m in seen + {n};
      RowInGroup(S, N, next, r, m);
    }
  }

  lemma NamesOne(N: Store, items: set<Node>, n: Node)
    requires n in N && N[n].ProxyItem? && N[n].parent in N && N[N[n].parent].GroupItem?
    ensures Names(N, items + {n}) == Names(N, items) + {N[N[n].parent].group}
  {
    var g := N[N[n].parent].group;
    forall h | h in Names(N, items) ensures h in Names(N, items + {n}) {
      var m :| m in items && m in N && N[m].ProxyItem? && N[m].parent in N && N[N[m].parent].GroupItem?
        && N[N[m].parent].group == h;
      assert m in items + {n};
    }
    assert n in items + {n};
  }

  lemma SortNothing(N: Store, groups: set<string>)
    ensures Sorted(N, groups, {}, {}, groups)
  {
  }

  /** Sources that agree on the groups of their rows mirror the same states. */
  lemma SameOnRows(S: Source, T: Source, st: State, cache: map<Id, set<string>>)
    requires Mirrors(S, st) && WellFormed(T) && T == S.(groups := T.groups)
    requires forall r :: r in S.rows ==> T.groups[r] == S.groups[r]
    requires CacheFits(S, cache)
    ensures Mirrors(T, st) && CacheFits(T, cache)
  {
    hide Sound, AllCopied, Placed, NoneEmpty;
    RowsWithoutGroups(S, T, st);
  }

  /** Rows before place `i` of the changed range already have their new groups. */
  ghost predicate RegroupedUpTo(S: Source, T: Source, shown: Source, first: nat, i: nat) {
    && shown == T.(groups := shown.groups) && WellFormed(shown)
    && (forall r :: r in T.rows ==> r in S.groups && r in T.groups)
    && forall k :: 0 <= k < |T.rows| ==>
         shown.groups[T.rows[k]] == (if first <= k < i then T.groups[T.rows[k]] else S.groups[T.rows[k]])
  }

  lemma RegroupStart(S: Source, T: Source, first: nat, last: nat)
    requires Regroups(S, T, first, last)
    ensures RegroupedUpTo(S, T, S, first, first)
  {
  }

  /** The round at place `i` can run, and it brings the row at `i` up to date. */
  lemma RegroupReady(S: Source, T: Source, shown: Source, first: nat, last: nat, i: nat)
    requires Regroups(S, T, first, last) && first <= i < |T.rows|
    requires RegroupedUpTo(S, T, shown, first, i)
    ensures SameItems(shown, T) && T.rows[i] in shown.rows && T.rows[i] in T.groups && T.groups[T.rows[i]] != {}
    ensures RegroupedUpTo(S, T, SetGroups(shown, T.rows[i], T.groups[T.rows[i]]), first, i + 1)
  {
    var W := SetGroups(shown, T.rows[i], T.groups[T.rows[i]]);
    forall k | 0 <= k < |T.rows| && k != i ensures T.rows[k] != T.rows[i] { }
  }

  lemma RegroupEnd(S: Source, T: Source, shown: Source, st: State, cache: map<Id, set<string>>, first: nat, last: nat,
                   i: nat)
    requires Regroups(S, T, first, last) && RegroupedUpTo(S, T, shown, first, i)
    requires first <= i && (i <= last + 1 || i == first) && !(i <= last && i < |T.rows|)
    requires Mirrors(shown, st) && CacheFits(shown, cache)
    ensures Mirrors(T, st) && CacheFits(T, cache)
  {
    hide Mirrors;
    forall r | r in shown.rows ensures T.groups[r] == shown.groups[r] {
      var k :| 0 <= k < |T.rows| && T.rows[k] == r;
    }
    SameOnRows(shown, T, st, cache);
  }

  // ---- filling an empty tree ----------------------------------------------------------------------

  lemma EmptyState(st: State)
    requires st.nodes == map[] && st.rows == [] && st.proxyMap == map[] && st.groupMap == map[]
    ensures Mirrors(Empty, st) && Forced(st.nodes) == {}
  {
  }

  lemma EmptyRows(S: Source, st: State)
    requires Mirrors(Empty, st) && WellFormed(S) && S.rows == []
    ensures Mirrors(S, st)
  {
    MoreItems(Empty, S, st);
  }

  lemma EmptyCache(cache: map<Id, set<string>>)
    requires CacheFits(Empty, cache)
    ensures cache == map[]
  {
    assert cache.Keys == {};
  }

  lemma MirrorsWellFormed(S: Source, st: State)
    requires Mirrors(S, st)
    ensures WellFormed(S)
  {
  }

  /** Whether the cached groups were right or not known yet, the new ones can take their place. */
  lemma CacheRegroups(S: Source, cache: map<Id, set<string>>, r: Id, groups: set<string>)
    requires CacheFits(S, cache) && WellFormed(S) && r in S.rows
    ensures CacheFits(SetGroups(S, r, groups), cache[r := groups])
    ensures r in S.groups && (r in cache && cache[r] != {} ==> cache[r] == S.groups[r])
  {
  }

  lemma CacheForgets(S: Source, cache: map<Id, set<string>>, r: Id)
    requires CacheFits(S, cache)
    ensures CacheFits(S, cache - {r})
  {
  }

  lemma CacheAfterRemoval(S: Source, start: nat, i: nat, cache: map<Id, set<string>>)
    requires WellFormed(S) && start <= i < |S.rows|
    requires CacheFits(RemovedUpTo(S, start, i), cache) && S.rows[i] !in cache
    ensures CacheFits(RemovedUpTo(S, start, i + 1), cache)
  {
    assert S.rows[i..] == [S.rows[i]] + S.rows[i + 1..];
  }

  lemma KidKnown(S: Source, p: Id, i: nat)
    requires WellFormed(S) && p in S.kids && i < |S.kids[p]|
    ensures S.kids[p][i] in S.kids
  {
    assert S.kids[p][i] in S.kids[p];
  }

  /** Leaving the old groups and joining the new ones gives the row its new set of groups. */
  lemma RegroupSets(S: Source, N: Store, r: Id, groups: set<string>, all: set<Node>, removed: set<Node>,
                    remaining: set<string>)
    requires Sorted(N, groups, all, removed, remaining) && r in S.groups
    requires Names(N, all) == S.groups[r]
    ensures
      var W := SetGroups(S, r, S.groups[r] - Names(N, removed));
      && remaining !! W.groups[r]
      && SetGroups(W, r, W.groups[r] + remaining) == SetGroups(S, r, groups)
  {
    assert S.groups[r] - (S.groups[r] - groups) + (groups - S.groups[r]) == groups;
    SetGroupsTwice(S, r, S.groups[r] - Names(N, removed), groups);
  }
}
