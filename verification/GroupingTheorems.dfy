/** What a mirrored source means for the tree that is shown. */
module GroupingTheorems {
  import opened Sequences
  import opened SourceModel
  import opened NodeStore
  import opened GroupingInvariant
  import opened GroupingSteps
  import opened GroupingSlots

  // ---- the tree shown is the tree rebuilt ------------------------------------------------------

  /** The subtree at node `n`, read off the store. */
  ghost function Drawn(N: Store, next: Node, n: Node): Tree
    requires Linked(N, next) && n in N && N[n].ProxyItem?
    decreases next - n
  {
    Tree(N[n].src, seq(|N[n].kids|, i requires 0 <= i < |N[n].kids| =>
      var c := N[n].kids[i];
      assert c in N[n].kids && IsKid(N, n, c);
      Drawn(N, next, c)))
  }

  ghost function DrawnAll(N: Store, next: Node, kids: seq<Node>): (r: seq<Tree>)
    requires Linked(N, next) && forall c :: c in kids ==> c in N && N[c].ProxyItem?
    ensures |r| == |kids| && forall i :: 0 <= i < |kids| ==> r[i] == Drawn(N, next, kids[i])
  {
    seq(|kids|, i requires 0 <= i < |kids| => assert kids[i] in kids; Drawn(N, next, kids[i]))
  }

  /** What the model shows: per group name, the subtrees below its header. */
  ghost function Display(st: State): map<string, multiset<Tree>>
    requires Sound(st)
  {
    map g | g in st.groupMap ::
      var kids := st.nodes[st.groupMap[g].value].kids;
      assert forall c :: c in kids ==> IsKid(st.nodes, st.groupMap[g].value, c);
      multiset(DrawnAll(st.nodes, st.next, kids))
  }

  ghost function InRows(S: Source, rows: seq<Id>, g: string): seq<Id>
    requires forall r :: r in rows ==> r in S.groups
  {
    if rows == [] then []
    else (if g in S.groups[rows[0]] then [rows[0]] else []) + InRows(S, rows[1..], g)
  }

  ghost function GroupsOf(S: Source): set<string>
    requires WellFormed(S)
  {
    set r, g | r in S.rows && g in S.groups[r] :: g
  }

  ghost function Subtrees(S: Source, items: seq<Id>): (r: seq<Tree>)
    requires WellFormed(S) && forall s :: s in items ==> s in S.kids
    ensures |r| == |items| && forall i :: 0 <= i < |items| ==> r[i] == Subtree(S, items[i])
  {
    seq(|items|, i requires 0 <= i < |items| => assert items[i] in items; Subtree(S, items[i]))
  }

  /** The tree built from scratch: the forced groups and the groups of the rows, each with one copy
      of every row that is in it. */
  ghost function Rebuilt(S: Source, forced: set<string>): map<string, multiset<Tree>>
    requires WellFormed(S)
  {
    map g | g in forced + GroupsOf(S) ::
      InRowsFacts(S, S.rows, g);
      multiset(Subtrees(S, InRows(S, S.rows, g)))
  }

  lemma {:induction false} InRowsFacts(S: Source, rows: seq<Id>, g: string)
    requires forall r :: r in rows ==> r in S.groups
    ensures forall r :: r in InRows(S, rows, g) <==> r in rows && g in S.groups[r]
    ensures NoDup(rows) ==> NoDup(InRows(S, rows, g))
  {
    if rows != [] {
      InRowsFacts(S, rows[1..], g);
      assert NoDup(rows) ==> NoDup(rows[1..]) && rows[0] !in rows[1..];
    }
  }

  /** Every subtree shown is a copy of the subtree of its source item. */
  lemma {:induction false} DrawnIsSubtree(S: Source, st: State, n: Node)
    requires Mirrors(S, st) && n in st.nodes && st.nodes[n].ProxyItem?
    ensures st.nodes[n].src in S.kids
    ensures Drawn(st.nodes, st.next, n) == Subtree(S, st.nodes[n].src)
    decreases st.next - n
  {
    hide Placed, NoneEmpty, Indexed, GroupsIndexed;
    var N := st.nodes;
    assert Copied(S, N, n);
    var items := S.kids[N[n].src];
    forall i | 0 <= i < |N[n].kids|
      ensures N[n].kids[i] in N && N[N[n].kids[i]].ProxyItem? && items[i] in S.kids
      ensures Drawn(N, st.next, N[n].kids[i]) == Subtree(S, items[i])
    {
      assert N[n].kids[i] in N[n].kids && IsKid(N, n, N[n].kids[i]);
      DrawnIsSubtree(S, st, N[n].kids[i]);
    }
    assert Drawn(N, st.next, n).kids == Subtree(S, N[n].src).kids;
  }

  /** The incremental tree is the rebuilt tree. */
  lemma DisplayIsRebuilt(S: Source, st: State)
    requires Mirrors(S, st)
    ensures Display(st) == Rebuilt(S, Forced(st.nodes))
  {
    hide DrawnAll, Subtrees, InRows, Copied;
    ShownGroups(S, st);
    forall g | g in st.groupMap ensures Display(st)[g] == Rebuilt(S, Forced(st.nodes))[g] {
      GroupContents(S, st, g);
    }
  }

  /** The groups shown are the forced ones and those some row is in. */
  lemma ShownGroups(S: Source, st: State)
    requires Mirrors(S, st)
    ensures st.groupMap.Keys == Forced(st.nodes) + GroupsOf(S)
  {
    hide GroupsOf, Forced;
    forall g | g in st.groupMap ensures g in Forced(st.nodes) + GroupsOf(S) { ShownReason(S, st, g); }
    forall g | g in Forced(st.nodes) + GroupsOf(S) ensures g in st.groupMap { ReasonShown(S, st, g); }
  }

  lemma ShownReason(S: Source, st: State, g: string)
    requires Mirrors(S, st) && g in st.groupMap
    ensures g in Forced(st.nodes) || g in GroupsOf(S)
  {
    hide Copied, NoDup;
    var N, p := st.nodes, st.groupMap[g].value;
    if !N[p].forced {
      var n := N[p].kids[0];
      assert n in N[p].kids && IsKid(N, p, n);
      assert InGroup(N, n, N[n].src, g);
    }
  }

  lemma ReasonShown(S: Source, st: State, g: string)
    requires Mirrors(S, st) && (g in Forced(st.nodes) || g in GroupsOf(S))
    ensures g in st.groupMap
  {
    hide Copied, NoDup, AllCopied;
    if g in GroupsOf(S) {
      var r :| r in S.rows && g in S.groups[r];
      var n :| InGroup(st.nodes, n, r, g);
    }
  }

  lemma GroupContents(S: Source, st: State, g: string)
    requires Mirrors(S, st) && g in st.groupMap
    requires st.groupMap.Keys == Forced(st.nodes) + GroupsOf(S)
    ensures Display(st)[g] == Rebuilt(S, Forced(st.nodes))[g]
  {
    hide Copied, Forced, GroupsOf;
    var N, p := st.nodes, st.groupMap[g].value;
    var kids, items := N[p].kids, InRows(S, S.rows, g);
    InRowsFacts(S, S.rows, g);
    forall i | 0 <= i < |kids| ensures IsKid(N, p, kids[i]) { assert kids[i] in kids; }
    var srcs: seq<Id> := seq(|kids|, i requires 0 <= i < |kids| => N[kids[i]].src);
    GroupSources(S, st, g, srcs);
    SameElementsSameMultiset(srcs, items);
    forall i | 0 <= i < |kids| ensures srcs[i] in S.kids && Drawn(N, st.next, kids[i]) == Subtree(S, srcs[i]) {
      assert IsKid(N, p, kids[i]);
      DrawnIsSubtree(S, st, kids[i]);
    }
    assert DrawnAll(N, st.next, kids) == Subtrees(S, srcs);
    SubtreesOfPermutation(S, srcs, items);
  }

  /** The proxies in a group stand for exactly the rows that are in it, each once. */
  lemma GroupSources(S: Source, st: State, g: string, srcs: seq<Id>)
    requires Mirrors(S, st) && g in st.groupMap
    requires
      var kids := st.nodes[st.groupMap[g].value].kids;
      && |srcs| == |kids|
      && forall i :: 0 <= i < |kids| ==>
        kids[i] in st.nodes && st.nodes[kids[i]].ProxyItem? && srcs[i] == st.nodes[kids[i]].src
    ensures NoDup(srcs)
    ensures forall r :: r in srcs <==> r in S.rows && g in S.groups[r]
  {
    hide Copied;
    var N, p := st.nodes, st.groupMap[g].value;
    var kids := N[p].kids;
    forall i | 0 <= i < |kids| ensures InGroup(N, kids[i], srcs[i], g) {
      assert kids[i] in kids && IsKid(N, p, kids[i]);
    }
    forall r | r in S.rows && g in S.groups[r] ensures r in srcs {
      var n :| InGroup(N, n, r, g);
      assert N[n].parent == p && n in kids;
      var i :| 0 <= i < |kids| && kids[i] == n;
      assert srcs[i] == r;
    }
    forall i, j | 0 <= i < j < |srcs| ensures srcs[i] != srcs[j] {
      assert kids[i] != kids[j];
      assert InGroup(N, kids[i], srcs[i], g) && InGroup(N, kids[j], srcs[j], g);
    }
  }

  lemma {:induction false} SubtreesOfPermutation(S: Source, a: seq<Id>, b: seq<Id>)
    requires WellFormed(S) && (forall s :: s in a ==> s in S.kids) && (forall s :: s in b ==> s in S.kids)
    requires multiset(a) == multiset(b)
    ensures multiset(Subtrees(S, a)) == multiset(Subtrees(S, b))
  {
    var copy := (s: Id) => if s in S.kids then Subtree(S, s) else Tree(s, []);
    assert Subtrees(S, a) == Map(copy, a);
    assert Subtrees(S, b) == Map(copy, b);
    MapPermutation(copy, a, b);
  }

  /** Two states that mirror the same source with the same forced groups show the same tree, however
      they came about: incrementally or by a reset. */
  lemma HistoryDoesNotMatter(S: Source, st: State, other: State)
    requires Mirrors(S, st) && Mirrors(S, other) && Forced(st.nodes) == Forced(other.nodes)
    ensures Display(st) == Display(other)
  {
    hide Mirrors, Display, Forced;
    DisplayIsRebuilt(S, st);
    DisplayIsRebuilt(S, other);
  }

  // ---- one proxy per group of the top-level ancestor -----------------------------------------------

  /** `s` is the row `r` or an item below it. */
  ghost predicate Under(S: Source, r: Id, s: Id)
    decreases s
  {
    || r == s
    || (s in S.parent && S.parent[s] < s && S.parent[s] in S.kids && s in S.kids[S.parent[s]]
      && Under(S, r, S.parent[s]))
  }

  /** The name of the group that node `n` is in, at whatever depth. */
  ghost function GroupOf(N: Store, n: Node): string
    decreases n
  {
    if n !in N then ""
    else match N[n]
      case GroupItem(group, _, _) => group
      case ProxyItem(_, parent, _) => if parent < n then GroupOf(N, parent) else ""
  }

  /** An item has one proxy in each group of its top-level ancestor, and no other proxies. */
  lemma {:induction false} OneProxyPerGroup(S: Source, st: State, r: Id, s: Id)
    requires Mirrors(S, st) && r in S.rows && Under(S, r, s)
    ensures forall n :: n in Find(st.proxyMap, s) ==> GroupOf(st.nodes, n) in S.groups[r]
    ensures forall g :: g in S.groups[r] ==> exists n :: n in Find(st.proxyMap, s) && GroupOf(st.nodes, n) == g
    ensures r in S.groups
    ensures forall n, m ::
      (n in Find(st.proxyMap, s) && m in Find(st.proxyMap, s) && GroupOf(st.nodes, n) == GroupOf(st.nodes, m)) ==>
        n == m
    decreases s
  {
    hide Copied, GroupsIndexed, NoneEmpty;
    if r == s {
      OneProxyOfRow(S, st, r);
    } else {
      var p := S.parent[s];
      OneProxyPerGroup(S, st, r, p);
      ProxiesOfChild(S, st, p, s);
    }
  }

  lemma OneProxyOfRow(S: Source, st: State, r: Id)
    requires Mirrors(S, st) && r in S.rows
    ensures forall n :: n in Find(st.proxyMap, r) ==> GroupOf(st.nodes, n) in S.groups[r]
    ensures forall g :: g in S.groups[r] ==> exists n :: n in Find(st.proxyMap, r) && GroupOf(st.nodes, n) == g
    ensures forall n, m ::
      (n in Find(st.proxyMap, r) && m in Find(st.proxyMap, r) && GroupOf(st.nodes, n) == GroupOf(st.nodes, m)) ==>
        n == m
  {
    hide NoneEmpty, GroupsIndexed, AllCopied;
    var N := st.nodes;
    forall n | n in Find(st.proxyMap, r) ensures InGroup(N, n, r, GroupOf(N, n)) {
      RowInGroup(S, N, st.next, r, n);
      assert n in N[N[n].parent].kids && IsKid(N, N[n].parent, n);
    }
    forall g | g in S.groups[r] ensures exists n :: n in Find(st.proxyMap, r) && GroupOf(N, n) == g {
      var n :| InGroup(N, n, r, g);
      assert n in N[N[n].parent].kids && IsKid(N, N[n].parent, n);
      assert n in Find(st.proxyMap, r);
    }
  }

  /** The proxies of a child correspond to the proxies of its parent, group by group. */
  lemma ProxiesOfChild(S: Source, st: State, p: Id, s: Id)
    requires Mirrors(S, st) && p in S.kids && s in S.kids[p]
    ensures forall n :: n in Find(st.proxyMap, s) ==>
      exists m :: m in Find(st.proxyMap, p) && IsKid(st.nodes, m, n) && GroupOf(st.nodes, n) == GroupOf(st.nodes, m)
    ensures forall m :: m in Find(st.proxyMap, p) ==>
      exists n :: n in Find(st.proxyMap, s) && IsKid(st.nodes, m, n) && GroupOf(st.nodes, n) == GroupOf(st.nodes, m)
    ensures forall m, n, k ::
      (n in Find(st.proxyMap, s) && k in Find(st.proxyMap, s) && IsKid(st.nodes, m, n) && IsKid(st.nodes, m, k)) ==>
        n == k
  {
    hide NoneEmpty, GroupsIndexed, AllCopied, Placed, WellFormed;
    forall n | n in Find(st.proxyMap, s)
      ensures exists m ::
        m in Find(st.proxyMap, p) && IsKid(st.nodes, m, n) && GroupOf(st.nodes, n) == GroupOf(st.nodes, m)
    {
      ParentProxy(S, st, p, s, n);
    }
    forall m | m in Find(st.proxyMap, p)
      ensures exists n ::
        n in Find(st.proxyMap, s) && IsKid(st.nodes, m, n) && GroupOf(st.nodes, n) == GroupOf(st.nodes, m)
    {
      ChildProxy(S, st, p, s, m);
    }
    forall m, n, k | n in Find(st.proxyMap, s) && k in Find(st.proxyMap, s) && IsKid(st.nodes, m, n)
      && IsKid(st.nodes, m, k)
      ensures n == k
    {
      OneChildProxy(S, st, s, m, n, k);
    }
  }

  lemma ParentProxy(S: Source, st: State, p: Id, s: Id, n: Node)
    requires Mirrors(S, st) && p in S.kids && s in S.kids[p] && n in Find(st.proxyMap, s)
    ensures
      var m := st.nodes[n].parent;
      m in Find(st.proxyMap, p) && IsKid(st.nodes, m, n) && GroupOf(st.nodes, n) == GroupOf(st.nodes, m)
  {
    hide NoneEmpty, GroupsIndexed, AllCopied;
    var N, m := st.nodes, st.nodes[n].parent;
    KidFacts(S, p, s);
    assert n in N[m].kids && IsKid(N, m, n);
    if N[m].ProxyItem? {
      KidIsCopied(S, N, m, n);
    } else {
      assert s !in S.rows;
      InGroupIsRow(S, N, n, s, N[m].group);
    }
  }

  lemma InGroupIsRow(S: Source, N: Store, n: Node, s: Id, g: string)
    requires Placed(S, N)
    ensures InGroup(N, n, s, g) ==> s in S.rows
  {
  }

  lemma ChildProxy(S: Source, st: State, p: Id, s: Id, m: Node)
    requires Mirrors(S, st) && p in S.kids && s in S.kids[p] && m in Find(st.proxyMap, p)
    ensures exists n ::
      n in Find(st.proxyMap, s) && IsKid(st.nodes, m, n) && GroupOf(st.nodes, n) == GroupOf(st.nodes, m)
  {
    hide NoneEmpty, GroupsIndexed, Placed, WellFormed;
    var N := st.nodes;
    assert Copied(S, N, m);
    var i :| 0 <= i < |S.kids[p]| && S.kids[p][i] == s;
    var n := N[m].kids[i];
    assert n in N[m].kids && IsKid(N, m, n);
    assert n in Find(st.proxyMap, s);
  }

  lemma OneChildProxy(S: Source, st: State, s: Id, m: Node, n: Node, k: Node)
    requires Mirrors(S, st) && n in Find(st.proxyMap, s) && k in Find(st.proxyMap, s)
    requires IsKid(st.nodes, m, n) && IsKid(st.nodes, m, k)
    ensures n == k
  {
    hide NoneEmpty, GroupsIndexed, Placed;
    var N := st.nodes;
    assert n in N[m].kids && k in N[m].kids;
    if N[m].ProxyItem? {
      assert Copied(S, N, m);
      assert NoDup(S.kids[N[m].src]);
      var i :| 0 <= i < |N[m].kids| && N[m].kids[i] == n;
      var j :| 0 <= j < |N[m].kids| && N[m].kids[j] == k;
      assert S.kids[N[m].src][i] == s == S.kids[N[m].src][j];
    } else {
      OneInGroup(S, st, s, m, n, k);
    }
  }

  lemma OneInGroup(S: Source, st: State, s: Id, m: Node, n: Node, k: Node)
    requires Placed(S, st.nodes) && m in st.nodes && st.nodes[m].GroupItem?
    requires IsKid(st.nodes, m, n) && IsKid(st.nodes, m, k) && st.nodes[n].src == s == st.nodes[k].src
    ensures n == k
  {
    assert InGroup(st.nodes, n, s, st.nodes[m].group) && InGroup(st.nodes, k, s, st.nodes[m].group);
  }

  /** So an item has as many proxies as its top-level ancestor has groups. */
  lemma ProxyCount(S: Source, st: State, r: Id, s: Id)
    requires Mirrors(S, st) && r in S.rows && Under(S, r, s)
    ensures |Find(st.proxyMap, s)| == |S.groups[r]|
  {
    hide Mirrors, Find;
    OneProxyPerGroup(S, st, r, s);
    Bijection(Find(st.proxyMap, s), S.groups[r], (n: Node) => GroupOf(st.nodes, n));
  }

  lemma {:induction false} Bijection(A: set<Node>, B: set<string>, f: Node -> string)
    requires forall n :: n in A ==> f(n) in B
    requires forall g :: g in B ==> exists n :: n in A && f(n) == g
    requires forall n, m :: n in A && m in A && f(n) == f(m) ==> n == m
    ensures |A| == |B|
  {
    if A == {} {
      assert B == {} by { assert forall g :: g in B ==> exists n :: n in A && f(n) == g; }
    } else {
      var n :| n in A;
      Bijection(A - {n}, B - {f(n)}, f);
    }
  }

  /** No proxy of a removed item is left: whatever has a proxy is in the tree of the source. */
  lemma {:induction false} ProxiesAreAttached(S: Source, st: State, n: Node)
    requires Mirrors(S, st) && n in st.nodes && st.nodes[n].ProxyItem?
    ensures exists r :: r in S.rows && Under(S, r, st.nodes[n].src)
    decreases n
  {
    hide NoneEmpty, GroupsIndexed, AllCopied, Indexed;
    var N, m, s := st.nodes, st.nodes[n].parent, st.nodes[n].src;
    assert n in N[m].kids && IsKid(N, m, n);
    if N[m].GroupItem? {
      assert InGroup(N, n, s, N[m].group);
      assert Under(S, s, s);
    } else {
      KidIsCopied(S, N, m, n);
      ProxiesAreAttached(S, st, m);
      var r :| r in S.rows && Under(S, r, N[m].src);
      assert Under(S, r, s);
    }
  }

  /** The early-out of a data change: a cached group set that is not empty is the set of groups that
      hold the proxies of the row. */
  lemma CachedGroupsAreShown(S: Source, st: State, cache: map<Id, set<string>>, r: Id)
    requires Mirrors(S, st) && CacheFits(S, cache) && r in cache && cache[r] != {}
    ensures cache[r] == set n | n in Find(st.proxyMap, r) :: GroupOf(st.nodes, n)
  {
    hide Mirrors;
    assert r in S.rows;
    RowGroups(S, st, r);
  }

  lemma RowGroups(S: Source, st: State, r: Id)
    requires Mirrors(S, st) && r in S.rows
    ensures S.groups[r] == set n | n in Find(st.proxyMap, r) :: GroupOf(st.nodes, n)
  {
    hide Mirrors, Find;
    assert Under(S, r, r);
    OneProxyPerGroup(S, st, r, r);
    var shown := set n | n in Find(st.proxyMap, r) :: GroupOf(st.nodes, n);
    forall g ensures g in S.groups[r] <==> g in shown { }
  }
}
