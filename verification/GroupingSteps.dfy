/** How each edit of the proxy tree moves the source that the tree mirrors. */
module GroupingSteps {
  import opened Sequences
  import opened SourceModel
  import opened NodeStore
  import opened GroupingInvariant

  function SetGroups(S: Source, r: Id, groups: set<string>): Source {
    S.(groups := S.groups[r := groups])
  }

  /** The names of the groups that hold the proxies of `items`. */
  ghost function Names(N: Store, items: set<Node>): set<string> {
    set n | n in items && n in N && N[n].ProxyItem? && N[n].parent in N && N[N[n].parent].GroupItem?
      :: N[N[n].parent].group
  }

  // ---- a row enters one more group ---------------------------------------------------------

  /** What an addition under the group item `p` relies on. */
  ghost predicate CanJoin(S: Source, A: Store, next: Node, r: Id, p: Node) {
    && WellFormed(S) && Linked(A, next)
    && (forall n, m :: n in A && m in A && A[n].GroupItem? && A[m].GroupItem? && A[n].group == A[m].group ==> n == m)
    && AllCopied(S, A) && Placed(S, A) && NoneEmpty(A, {p})
    && p in A && A[p].GroupItem?
    && r in S.rows && A[p].group !in S.groups[r]
  }

  lemma JoinCopied(S: Source, A: Store, next: Node, B: Store, r: Id, p: Node, root: Node)
    requires CanJoin(S, A, next, r, p) && Planted(S, A, B, root, p, r)
    ensures AllCopied(SetGroups(S, r, S.groups[r] + {A[p].group}), B)
  {
    PlantedCopied(S, A, next, B, root, p, r);
  }

  /** Planting under a group keeps every copy complete. */
  lemma PlantedCopied(S: Source, A: Store, next: Node, B: Store, root: Node, p: Node, s: Id)
    requires Linked(A, next) && AllCopied(S, A) && Planted(S, A, B, root, p, s) && A[p].GroupItem?
    ensures AllCopied(S, B)
  {
    forall m | m in B ensures Copied(S, B, m) {
      if m in A {
        assert Copied(S, A, m);
        if m != p { forall c | c in A[m].kids ensures c != p && B[c] == A[c] { } }
      } else {
        assert NewNode(S, A, B, root, s, m);
        assert S.kids[s][..|S.kids[s]|] == S.kids[s];
      }
    }
  }

  lemma JoinPlaced(S: Source, A: Store, next: Node, B: Store, r: Id, p: Node, root: Node)
    requires CanJoin(S, A, next, r, p) && Planted(S, A, B, root, p, r)
    ensures Placed(SetGroups(S, r, S.groups[r] + {A[p].group}), B)
  {
    forall n, q, g ensures InGroup(B, n, q, g) <==> InGroup(A, n, q, g) || (n == root && q == r && g == A[p].group) {
      JoinInGroup(S, A, next, B, r, p, root, n, q, g);
    }
    PlacedPlus(S, A, B, r, A[p].group, root);
  }

  /** One more proxy in a group its row was not in. */
  lemma PlacedPlus(S: Source, A: Store, B: Store, r: Id, h: string, root: Node)
    requires Placed(S, A) && r in S.rows && r in S.groups && h !in S.groups[r]
    requires forall n, q, g :: InGroup(B, n, q, g) <==> InGroup(A, n, q, g) || (n == root && q == r && g == h)
    ensures Placed(SetGroups(S, r, S.groups[r] + {h}), B)
  {
    var T := SetGroups(S, r, S.groups[r] + {h});
    assert forall n :: !InGroup(A, n, r, h);
    forall q, g | q in T.rows && q in T.groups && g in T.groups[q] ensures exists n :: InGroup(B, n, q, g) {
      if q == r && g == h {
        assert InGroup(B, root, q, g);
      } else {
        assert g in S.groups[q];
        var n :| InGroup(A, n, q, g);
        assert InGroup(B, n, q, g);
      }
    }
  }

  lemma JoinInGroup(S: Source, A: Store, next: Node, B: Store, r: Id, p: Node, root: Node, n: Node, q: Id, g: string)
    requires Linked(A, next) && p in A && A[p].GroupItem? && Planted(S, A, B, root, p, r)
    ensures InGroup(B, n, q, g) <==> InGroup(A, n, q, g) || (n == root && q == r && g == A[p].group)
  {
    if n in A {
      if A[n].ProxyItem? {
        assert n != p && B[n] == A[n];
        var parent := A[n].parent;
        assert parent in A && parent in B;
        assert B[parent].GroupItem? == A[parent].GroupItem?;
      }
    } else if n in B {
      assert NewNode(S, A, B, root, r, n);
      if n != root && B[n].parent in B {
        assert NewNode(S, A, B, root, r, B[n].parent);
      }
    }
  }

  lemma JoinNoneEmpty(S: Source, A: Store, B: Store, r: Id, p: Node, root: Node)
    requires NoneEmpty(A, {p}) && p in A && A[p].GroupItem? && Planted(S, A, B, root, p, r)
    ensures NoneEmpty(B, {})
    ensures Forced(B) == Forced(A)
  {
    forall n | n in B && n !in A ensures B[n].ProxyItem? { assert NewNode(S, A, B, root, r, n); }
    forall n | n in B && B[n].GroupItem?
      ensures n in A && A[n].GroupItem? && A[n].group == B[n].group && A[n].forced == B[n].forced
      ensures B[n].forced || B[n].kids != []
    {
    }
  }

  // ---- a row leaves some groups --------------------------------------------------------------

  /** `items` are proxies of the top-level row `r`. */
  ghost predicate CanLeave(S: Source, N: Store, next: Node, r: Id, items: set<Node>) {
    && WellFormed(S) && Linked(N, next) && AllCopied(S, N) && Placed(S, N) && NoneEmpty(N, {})
    && r in S.rows
    && (forall n :: n in items ==> n in N && N[n].ProxyItem? && N[n].src == r)
  }

  /** The proxies of a row sit directly in groups. */
  lemma RowInGroup(S: Source, N: Store, next: Node, r: Id, n: Node)
    requires WellFormed(S) && Linked(N, next) && AllCopied(S, N) && r in S.rows
    requires n in N && N[n].ProxyItem? && N[n].src == r
    ensures N[n].parent in N && N[N[n].parent].GroupItem? && InGroup(N, n, r, N[N[n].parent].group)
  {
    var p := N[n].parent;
    assert p in N && n in N[p].kids;
    if N[p].ProxyItem? {
      KidIsCopied(S, N, p, n);
    }
  }

  /** A child of a proxy stands for a child of its source item. */
  lemma KidIsCopied(S: Source, N: Store, p: Node, n: Node)
    requires WellFormed(S) && AllCopied(S, N)
    requires p in N && N[p].ProxyItem? && n in N[p].kids
    ensures n in N && N[n].ProxyItem? && N[p].src in S.kids && N[n].src in S.kids[N[p].src]
    ensures N[n].src in S.parent && S.parent[N[n].src] == N[p].src && N[p].src < N[n].src
  {
    assert Copied(S, N, p);
    var i :| 0 <= i < |N[p].kids| && N[p].kids[i] == n;
    assert N[n].src == S.kids[N[p].src][i];
    KidFacts(S, N[p].src, N[n].src);
  }

  lemma LeaveCopied(S: Source, N: Store, next: Node, r: Id, items: set<Node>)
    requires CanLeave(S, N, next, r, items)
    ensures AllCopied(S, Cut(N, Gone(N, items)))
  {
    var G := Gone(N, items);
    var M := Cut(N, G);
    GoneClosed(N, next, items);
    forall m | m in M ensures Copied(S, M, m) {
      assert Copied(S, N, m);
      if N[m].ProxyItem? {
        forall c | c in N[m].kids ensures c !in G { LeaveKeepsKids(S, N, next, r, items, m, c); }
        KeepAll(N[m].kids, G);
      }
    }
  }

  lemma LeaveKeepsKids(S: Source, N: Store, next: Node, r: Id, items: set<Node>, m: Node, c: Node)
    requires CanLeave(S, N, next, r, items)
    requires m in N && N[m].ProxyItem? && m !in Gone(N, items) && c in N[m].kids
    ensures c !in Gone(N, items)
  {
    assert c in N && N[c].ProxyItem? && N[c].parent == m;
    if c in Below(N, items) {
      var a :| a in items && Above(N, a, c);
      if a == c { RowInGroup(S, N, next, r, c); }
    }
  }

  lemma LeavePlaced(S: Source, N: Store, next: Node, r: Id, items: set<Node>)
    requires CanLeave(S, N, next, r, items)
    ensures Placed(SetGroups(S, r, S.groups[r] - Names(N, items)), Cut(N, Gone(N, items)))
  {
    var M := Cut(N, Gone(N, items));
    var T := SetGroups(S, r, S.groups[r] - Names(N, items));
    forall n, q, g ensures InGroup(M, n, q, g) <==> InGroup(N, n, q, g) && n !in items {
      LeaveInGroup(S, N, next, r, items, n, q, g);
    }
    forall n, q, g | InGroup(M, n, q, g) ensures q in T.rows && q in T.groups && g in T.groups[q] {
      assert InGroup(N, n, q, g);
      if q == r && g in Names(N, items) {
        var m :| m in items && m in N && N[m].ProxyItem? && N[m].parent in N && N[N[m].parent].GroupItem?
          && N[N[m].parent].group == g;
        assert InGroup(N, m, r, g);
      }
    }
    forall q, g | q in T.rows && q in T.groups && g in T.groups[q] ensures exists n :: InGroup(M, n, q, g) {
      assert g in S.groups[q];
      var n :| InGroup(N, n, q, g);
      assert InGroup(M, n, q, g);
    }
  }

  lemma LeaveInGroup(S: Source, N: Store, next: Node, r: Id, items: set<Node>, n: Node, q: Id, g: string)
    requires CanLeave(S, N, next, r, items)
    ensures InGroup(Cut(N, Gone(N, items)), n, q, g) <==> InGroup(N, n, q, g) && n !in items
  {
    var G := Gone(N, items);
    GoneClosed(N, next, items);
    if n in N && N[n].ProxyItem? && N[N[n].parent].GroupItem? {
      GroupKidsGone(N, next, items, N[n].parent);
    }
  }

  lemma LeaveNoneEmpty(S: Source, N: Store, next: Node, r: Id, items: set<Node>)
    requires CanLeave(S, N, next, r, items)
    ensures NoneEmpty(Cut(N, Gone(N, items)), {})
    ensures Forced(Cut(N, Gone(N, items))) == Forced(N)
  {
    var G := Gone(N, items);
    var M := Cut(N, G);
    forall p | p in N && N[p].GroupItem?
      ensures N[p].forced ==> p in M
      ensures p in M && !M[p].forced ==> M[p].kids != []
    {
      GroupKidsGone(N, next, items, p);
      if p in M && !N[p].forced {
        assert N[p].kids != [];
        var c :| c in N[p].kids && c !in items;
        assert c in M[p].kids;
      }
    }
  }

  // ---- an item loses a child ------------------------------------------------------------------

  /** The proxies of the nested item `c` are about to go; `j` is its place under its parent. */
  ghost predicate CanShed(S: Source, N: Store, next: Node, p: Id, j: nat, items: set<Node>) {
    && WellFormed(S) && Linked(N, next) && AllCopied(S, N) && Placed(S, N)
    && p in S.kids && j < |S.kids[p]|
    && (forall n :: n in items <==> n in N && N[n].ProxyItem? && N[n].src == S.kids[p][j])
  }

  function Shed(S: Source, p: Id, j: nat): Source
    requires p in S.kids && j < |S.kids[p]|
  {
    S.(kids := S.kids[p := S.kids[p][..j] + S.kids[p][j + 1..]])
  }

  lemma ShedParents(S: Source, N: Store, next: Node, p: Id, j: nat, items: set<Node>, n: Node)
    requires CanShed(S, N, next, p, j, items) && n in items
    ensures N[n].parent in N && N[N[n].parent].ProxyItem? && N[N[n].parent].src == p
  {
    var c := S.kids[p][j];
    KidFacts(S, p, c);
    var m := N[n].parent;
    assert m in N && n in N[m].kids;
    if N[m].GroupItem? {
      assert InGroup(N, n, c, N[m].group);
    } else {
      KidIsCopied(S, N, m, n);
    }
  }

  lemma ShedTakesNoGroup(S: Source, N: Store, next: Node, p: Id, j: nat, items: set<Node>)
    requires CanShed(S, N, next, p, j, items)
    ensures Emptied(N, items) == {}
  {
    forall q | q in Emptied(N, items) ensures false {
      var n := N[q].kids[0];
      assert n in N[q].kids;
      ShedParents(S, N, next, p, j, items, n);
    }
  }

  /** Which children of a remaining proxy go: only the proxy of the lost child. */
  lemma ShedKids(S: Source, N: Store, next: Node, p: Id, j: nat, items: set<Node>, m: Node, c: Node)
    requires CanShed(S, N, next, p, j, items)
    requires m in N && m !in Gone(N, items) && c in N[m].kids
    ensures c in Gone(N, items) <==> c in items
  {
    assert c in N && N[c].ProxyItem? && N[c].parent == m;
    if c in items { SelfBelow(N, items); }
    assert forall a :: a in items && a != c && Above(N, a, c) ==> Above(N, a, m);
  }

  lemma ShedCopied(S: Source, N: Store, next: Node, p: Id, j: nat, items: set<Node>)
    requires CanShed(S, N, next, p, j, items)
    ensures AllCopied(Shed(S, p, j), Cut(N, Gone(N, items)))
  {
    var T, M := Shed(S, p, j), Cut(N, Gone(N, items));
    forall m | m in M ensures Copied(T, M, m) {
      assert Copied(S, N, m);
      if N[m].ProxyItem? { ShedCopiedAt(S, N, next, p, j, items, m); }
    }
  }

  lemma ShedCopiedAt(S: Source, N: Store, next: Node, p: Id, j: nat, items: set<Node>, m: Node)
    requires CanShed(S, N, next, p, j, items)
    requires m in N && m !in Gone(N, items) && N[m].ProxyItem?
    ensures Copied(Shed(S, p, j), Cut(N, Gone(N, items)), m)
  {
    hide Keep;
    var G, kids := Gone(N, items), N[m].kids;
    assert Copied(S, N, m);
    forall c | c in kids ensures c in G <==> c in items { ShedKids(S, N, next, p, j, items, m, c); }
    KeepSame(kids, G, items);
    if N[m].src == p {
      assert NoDup(S.kids[p]);
      ShedOneKid(S, N, p, j, items, m);
    } else {
      ShedNoKid(S, N, next, p, j, items, m);
    }
    TrimmedCopied(Shed(S, p, j), N, G, m);
  }

  lemma ShedNoKid(S: Source, N: Store, next: Node, p: Id, j: nat, items: set<Node>, m: Node)
    requires CanShed(S, N, next, p, j, items)
    requires m in N && N[m].ProxyItem? && N[m].src != p
    ensures Keep(N[m].kids, items) == N[m].kids
  {
    forall c | c in N[m].kids ensures c !in items {
      if c in items { ShedParents(S, N, next, p, j, items, c); }
    }
    KeepAll(N[m].kids, items);
  }

  lemma TrimmedCopied(T: Source, N: Store, G: set<Node>, m: Node)
    requires m in N && m !in G && N[m].ProxyItem? && N[m].src in T.kids
    requires SameKids(N, Keep(N[m].kids, G), T.kids[N[m].src])
    ensures Copied(T, Cut(N, G), m)
  {
    var kept := Keep(N[m].kids, G);
    forall i | 0 <= i < |kept| ensures kept[i] in Cut(N, G) {
      assert kept[i] in kept;
    }
  }

  /** A proxy of the parent keeps its children in order, without the lost one. */
  lemma ShedOneKid(S: Source, N: Store, p: Id, j: nat, items: set<Node>, m: Node)
    requires p in S.kids && j < |S.kids[p]| && NoDup(S.kids[p])
    requires m in N && NoDup(N[m].kids) && SameKids(N, N[m].kids, S.kids[p])
    requires forall n :: n in items <==> n in N && N[n].ProxyItem? && N[n].src == S.kids[p][j]
    ensures Keep(N[m].kids, items) == N[m].kids[..j] + N[m].kids[j + 1..]
    ensures SameKids(N, Keep(N[m].kids, items), S.kids[p][..j] + S.kids[p][j + 1..])
  {
    var kids := N[m].kids;
    forall c | c in kids ensures c in items <==> c in {kids[j]} {
      var i :| 0 <= i < |kids| && kids[i] == c;
      assert N[c].src == S.kids[p][i];
    }
    KeepSame(kids, items, {kids[j]});
    KeepOne(kids, j);
    SameKidsDrop(N, kids, S.kids[p], j);
  }

  lemma SameKidsDrop(N: Store, kids: seq<Node>, items: seq<Id>, j: nat)
    requires SameKids(N, kids, items) && j < |items|
    ensures SameKids(N, kids[..j] + kids[j + 1..], items[..j] + items[j + 1..])
  {
  }

  lemma {:induction false} KeepSame<T(!new)>(s: seq<T>, A: set<T>, B: set<T>)
    requires forall x :: x in s ==> (x in A <==> x in B)
    ensures Keep(s, A) == Keep(s, B)
  {
    if s != [] { KeepSame(s[1..], A, B); }
  }

  lemma ShedPlaced(S: Source, N: Store, next: Node, p: Id, j: nat, items: set<Node>)
    requires CanShed(S, N, next, p, j, items) && NoneEmpty(N, {})
    ensures Placed(Shed(S, p, j), Cut(N, Gone(N, items)))
    ensures NoneEmpty(Cut(N, Gone(N, items)), {})
    ensures Forced(Cut(N, Gone(N, items))) == Forced(N)
  {
    hide Keep, Below, Emptied, Placed, Copied, NoneEmpty;
    var G := Gone(N, items);
    GoneClosed(N, next, items);
    var M := Cut(N, G);
    ShedKeepsGroups(S, N, next, p, j, items);
    forall n, q, g ensures InGroup(M, n, q, g) <==> InGroup(N, n, q, g) {
      SameInGroup(N, next, G, n, q, g);
    }
    SamePlaced(S, Shed(S, p, j), N, M);
    SameGroupItems(N, G);
  }

  lemma SameInGroup(N: Store, next: Node, G: set<Node>, n: Node, q: Id, g: string)
    requires Linked(N, next) && ClosedDown(N, G)
    requires forall p :: p in N && N[p].GroupItem? ==>
      p !in G && forall c :: c in N[p].kids ==> c !in G
    ensures InGroup(Cut(N, G), n, q, g) <==> InGroup(N, n, q, g)
  {
    if InGroup(N, n, q, g) { assert n in N[N[n].parent].kids; }
  }

  lemma SamePlaced(S: Source, T: Source, N: Store, M: Store)
    requires Placed(S, N) && T.rows == S.rows && T.groups == S.groups
    requires forall n, q, g :: InGroup(M, n, q, g) <==> InGroup(N, n, q, g)
    ensures Placed(T, M)
  {
  }

  lemma SameGroupItems(N: Store, G: set<Node>)
    requires NoneEmpty(N, {})
    requires forall q :: q in N && N[q].GroupItem? ==> q !in G && Cut(N, G)[q] == N[q]
    ensures NoneEmpty(Cut(N, G), {}) && Forced(Cut(N, G)) == Forced(N)
  {
  }

  lemma ShedKeepsGroups(S: Source, N: Store, next: Node, p: Id, j: nat, items: set<Node>)
    requires CanShed(S, N, next, p, j, items)
    ensures forall q :: q in N && N[q].GroupItem? ==>
      q !in Gone(N, items) && Cut(N, Gone(N, items))[q] == N[q] && forall c :: c in N[q].kids ==> c !in Gone(N, items)
  {
    hide Keep;
    var G := Gone(N, items);
    ShedTakesNoGroup(S, N, next, p, j, items);
    forall q | q in N && N[q].GroupItem?
      ensures q !in G && Cut(N, G)[q] == N[q] && forall c :: c in N[q].kids ==> c !in G
    {
      GroupKidsGone(N, next, items, q);
      forall c | c in N[q].kids ensures c !in items {
        if c in items { ShedParents(S, N, next, p, j, items, c); }
      }
      KeepAll(N[q].kids, G);
    }
  }
}
