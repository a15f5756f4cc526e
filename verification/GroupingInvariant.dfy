/** What ties the proxy tree and its indexes to the source, and how one edit moves that tie. */
module GroupingInvariant {
  import opened Sequences
  import opened SourceModel
  import opened NodeStore

  /** The data of the proxy model: the items, the next unused item, the order of the group rows,
      and the two indexes.  An entry of the group index can be null. */
  datatype State = State(
    nodes: Store, next: Node, rows: seq<Node>,
    proxyMap: map<Id, set<Node>>, groupMap: map<string, Option<Node>>)

  function Find(index: map<Id, set<Node>>, s: Id): set<Node> {
    if s in index then index[s] else {}
  }

  /** The proxy index holds exactly the live proxies of every source item. */
  ghost predicate Indexed(N: Store, proxyMap: map<Id, set<Node>>) {
    forall s, n :: n in Find(proxyMap, s) <==> n in N && N[n].ProxyItem? && N[n].src == s
  }

  /** The group index holds exactly one live group item per name, and these are the rows. */
  ghost predicate GroupsIndexed(N: Store, rows: seq<Node>, groupMap: map<string, Option<Node>>) {
    && NoDup(rows)
    && (forall n :: n in rows <==> n in N && N[n].GroupItem?)
    && (forall g :: g in groupMap ==>
          groupMap[g].Some? && groupMap[g].value in N &&
          N[groupMap[g].value].GroupItem? && N[groupMap[g].value].group == g)
    && (forall n :: n in N && N[n].GroupItem? ==>
          N[n].group in groupMap && groupMap[N[n].group] == Some(n))
  }

  /** The children of node `n` are proxies of the children of its source item, in order. */
  ghost predicate Copied(S: Source, N: Store, n: Node)
    requires n in N
  {
    N[n].ProxyItem? ==>
      && N[n].src in S.kids
      && SameKids(N, N[n].kids, S.kids[N[n].src])
  }

  ghost predicate SameKids(N: Store, kids: seq<Node>, items: seq<Id>) {
    && |kids| == |items|
    && forall i :: 0 <= i < |kids| ==> kids[i] in N && N[kids[i]].ProxyItem? && N[kids[i]].src == items[i]
  }

  ghost predicate AllCopied(S: Source, N: Store) {
    forall n :: n in N ==> Copied(S, N, n)
  }

  /** Node `n` is a proxy of row `r` directly under the group named `g`. */
  ghost predicate InGroup(N: Store, n: Node, r: Id, g: string) {
    && n in N && N[n].ProxyItem? && N[n].src == r
    && N[n].parent in N && N[N[n].parent].GroupItem? && N[N[n].parent].group == g
  }

  /** Every row has one proxy in each of its groups, and nothing else sits in a group. */
  ghost predicate Placed(S: Source, N: Store) {
    && (forall n, r, g :: InGroup(N, n, r, g) ==> r in S.rows && r in S.groups && g in S.groups[r])
    && (forall r, g :: r in S.rows && r in S.groups && g in S.groups[r] ==> exists n :: InGroup(N, n, r, g))
    && (forall n, m, r, g :: InGroup(N, n, r, g) && InGroup(N, m, r, g) ==> n == m)
  }

  /** An unforced group is there because something is in it; `exempt` may still be empty. */
  ghost predicate NoneEmpty(N: Store, exempt: set<Node>) {
    forall n :: n in N && N[n].GroupItem? && n !in exempt ==> N[n].forced || N[n].kids != []
  }

  /** The state is well linked and indexed, whatever the source. */
  ghost predicate Sound(st: State) {
    && Linked(st.nodes, st.next)
    && Indexed(st.nodes, st.proxyMap)
    && GroupsIndexed(st.nodes, st.rows, st.groupMap)
  }

  ghost predicate Mirrors(S: Source, st: State) {
    && WellFormed(S)
    && Sound(st)
    && AllCopied(S, st.nodes)
    && Placed(S, st.nodes)
    && NoneEmpty(st.nodes, {})
  }

  /** The group names marked as forced. */
  ghost function Forced(N: Store): set<string> {
    set n | n in N && N[n].GroupItem? && N[n].forced :: N[n].group
  }

  // ---- planting a copy of a source item ---------------------------------------------------

  function Grow(item: Item, c: Node): (r: Item)
    ensures r.kids == item.kids + [c]
    ensures r.ProxyItem? == item.ProxyItem?
    ensures item.ProxyItem? ==> r.src == item.src && r.parent == item.parent
    ensures item.GroupItem? ==> r.group == item.group && r.forced == item.forced
  {
    match item
    case GroupItem(group, forced, kids) => GroupItem(group, forced, kids + [c])
    case ProxyItem(src, parent, kids) => ProxyItem(src, parent, kids + [c])
  }

  /** `B` is `A` with a new last child `root` of `par`: a proxy of `s` that so far has copies of the
      first `k` children of `s`, each complete. */
  ghost predicate PlantedUpTo(
    S: Source, A: Store, B: Store, root: Node, par: Node, s: Id, k: nat)
  {
    && s in S.kids && k <= |S.kids[s]|
    && par in A && root !in A && root in B
    && (forall m :: m in A ==> m in B)
    && (forall m :: m in A && m != par ==> B[m] == A[m])
    && B[par] == Grow(A[par], root)
    && B[root].ProxyItem? && B[root].src == s && B[root].parent == par
    && SameKids(B, B[root].kids, S.kids[s][..k])
    && (forall m :: m in B && m !in A ==> NewNode(S, A, B, root, s, m))
  }

  ghost predicate NewNode(S: Source, A: Store, B: Store, root: Node, s: Id, m: Node)
    requires m in B
  {
    && root <= m && B[m].ProxyItem? && B[m].src in S.kids && s <= B[m].src
    && (m != root ==> s < B[m].src && B[m].parent !in A && Copied(S, B, m))
  }

  ghost predicate Planted(S: Source, A: Store, B: Store, root: Node, par: Node, s: Id) {
    && s in S.kids
    && PlantedUpTo(S, A, B, root, par, s, |S.kids[s]|)
  }

  /** `N` with a childless proxy `root` of `s` appended to `par`. */
  function WithRoot(N: Store, root: Node, par: Node, s: Id): (B: Store)
    requires par in N && root !in N
    ensures forall m :: m in B <==> m in N || m == root
    ensures B[root] == ProxyItem(s, par, [])
    ensures B[par] == Grow(N[par], root)
    ensures forall m :: m in N && m != par ==> B[m] == N[m]
  {
    N[root := ProxyItem(s, par, [])][par := Grow(N[par], root)]
  }

  lemma RootLinked(N: Store, next: Node, par: Node, s: Id)
    requires Linked(N, next) && par in N
    ensures Linked(WithRoot(N, next, par, s), next + 1)
  {
    var B := WithRoot(N, next, par, s);
    RootKidsLinked(N, next, par, s);
    RootParentsLinked(N, next, par, s);
    forall n | n in B ensures n < next + 1 && NoDup(B[n].kids) {
      if n == par { assert next !in N[par].kids; }
    }
  }

  lemma RootKidsLinked(N: Store, next: Node, par: Node, s: Id)
    requires KidsLinked(N) && par in N && forall n :: n in N ==> n < next
    ensures KidsLinked(WithRoot(N, next, par, s))
  {
    var B := WithRoot(N, next, par, s);
    forall n, c | n in B && c in B[n].kids ensures IsKid(B, n, c) {
      if n == par && c == next {
      } else {
        assert n in N && c in N[n].kids;
        assert c in N;
      }
    }
  }

  lemma RootParentsLinked(N: Store, next: Node, par: Node, s: Id)
    requires ParentsLinked(N) && par in N && next !in N
    ensures ParentsLinked(WithRoot(N, next, par, s))
  {
    var B := WithRoot(N, next, par, s);
    forall n | n in B && B[n].ProxyItem?
      ensures B[n].parent in B && n in B[B[n].parent].kids
    {
      if n != next { assert n in N; }
    }
  }

  lemma RootIndexed(N: Store, proxyMap: map<Id, set<Node>>, root: Node, par: Node, s: Id)
    requires Indexed(N, proxyMap) && par in N && root !in N
    ensures Indexed(WithRoot(N, root, par, s), proxyMap[s := Find(proxyMap, s) + {root}])
  {
    var B, index := WithRoot(N, root, par, s), proxyMap[s := Find(proxyMap, s) + {root}];
    forall t, n
      ensures n in Find(index, t) <==> n in B && B[n].ProxyItem? && B[n].src == t
    {
      assert n in Find(proxyMap, t) <==> n in N && N[n].ProxyItem? && N[n].src == t;
      assert n in Find(index, t) <==> n in Find(proxyMap, t) || (t == s && n == root);
    }
  }

  lemma RootGroupsIndexed(N: Store, rows: seq<Node>, groupMap: map<string, Option<Node>>, root: Node, par: Node, s: Id)
    requires GroupsIndexed(N, rows, groupMap) && par in N && root !in N
    ensures GroupsIndexed(WithRoot(N, root, par, s), rows, groupMap)
  {
  }

  lemma PlantRoot(S: Source, N: Store, root: Node, par: Node, s: Id)
    requires par in N && root !in N && s in S.kids
    ensures PlantedUpTo(S, N, WithRoot(N, root, par, s), root, par, s, 0)
  {
  }

  lemma PlantedRoot(S: Source, A: Store, B: Store, root: Node, par: Node, s: Id, k: nat)
    requires PlantedUpTo(S, A, B, root, par, s, k)
    ensures root in B && s in S.kids && k <= |S.kids[s]|
  {
  }

  lemma PlantStep(S: Source, A: Store, B: Store, C: Store, root: Node, par: Node, s: Id, k: nat, kid: Node)
    requires WellFormed(S)
    requires PlantedUpTo(S, A, B, root, par, s, k) && k < |S.kids[s]|
    requires Planted(S, B, C, kid, root, S.kids[s][k])
    requires Linked(B, kid)
    ensures PlantedUpTo(S, A, C, root, par, s, k + 1)
  {
    hide Keep;
    var items := S.kids[s];
    KidFacts(S, s, items[k]);
    assert IsKid(B, par, root) && root < kid;
    assert C[root].kids == B[root].kids + [kid];
    assert items[..k + 1] == items[..k] + [items[k]];
    assert C[kid].src == items[k];
    assert SameKids(C, C[root].kids, items[..k + 1]);
    forall m | m in C && m !in A ensures NewNode(S, A, C, root, s, m) {
      if m in B {
        assert NewNode(S, A, B, root, s, m);
        if m != root { assert C[m] == B[m]; }
      } else {
        assert NewNode(S, B, C, kid, items[k], m);
      }
    }
  }

  // ---- removing proxies with everything below them ----------------------------------------

  /** The unforced groups that hold something, and nothing besides `items`. */
  ghost function Emptied(N: Store, items: set<Node>): (r: set<Node>)
    ensures r <= N.Keys
  {
    set p | p in N && N[p].GroupItem? && !N[p].forced && N[p].kids != [] && (forall c :: c in N[p].kids ==> c in items)
  }

  /** What leaves the tree with `items`: all that is below them, and the groups they leave empty. */
  ghost function Gone(N: Store, items: set<Node>): set<Node> {
    Below(N, items) + Emptied(N, items)
  }

  /** The whole subtree at `n` copies the source. */
  ghost predicate CopiedBelow(S: Source, N: Store, n: Node) {
    forall m :: m in Below(N, {n}) ==> Copied(S, N, m)
  }

  lemma SelfBelow(N: Store, items: set<Node>)
    ensures forall n :: n in items && n in N ==> n in Below(N, items)
  {
    forall n | n in items && n in N ensures n in Below(N, items) { assert Above(N, n, n); }
  }

  lemma GoneClosed(N: Store, next: Node, items: set<Node>)
    requires Linked(N, next)
    ensures ClosedDown(N, Gone(N, items))
  {
    BelowIsClosed(N, next, items);
    SelfBelow(N, items);
  }

  /** Below a proxy there are only proxies, of later source items. */
  lemma {:induction false} SourcesGrow(S: Source, N: Store, next: Node, n: Node, m: Node)
    requires WellFormed(S) && Linked(N, next) && CopiedBelow(S, N, n)
    requires n in N && N[n].ProxyItem? && m in N && Above(N, n, m)
    ensures N[m].ProxyItem? && N[n].src <= N[m].src && (m != n ==> N[n].src < N[m].src)
    decreases m
  {
    if m != n {
      var p := N[m].parent;
      SourcesGrow(S, N, next, n, p);
      assert n in {n} && p in Below(N, {n});
      assert Copied(S, N, p);
      var i :| 0 <= i < |N[p].kids| && N[p].kids[i] == m;
      var above, here := N[p].src, N[m].src;
      assert here == S.kids[above][i];
      KidFacts(S, above, here);
    }
  }

  /** Two proxies of the same item have nothing in common below them. */
  lemma SubtreesApart(S: Source, N: Store, next: Node, x: Node, y: Node)
    requires WellFormed(S) && Linked(N, next) && CopiedBelow(S, N, x) && CopiedBelow(S, N, y)
    requires x in N && y in N && N[x].ProxyItem? && N[y].ProxyItem? && N[x].src == N[y].src && x != y
    ensures Below(N, {x}) !! Below(N, {y})
  {
    forall m | m in Below(N, {x}) && m in Below(N, {y}) ensures false {
      if x < y {
        AboveChain(N, x, y, m);
        SourcesGrow(S, N, next, x, y);
      } else {
        AboveChain(N, y, x, m);
        SourcesGrow(S, N, next, y, x);
      }
    }
  }

  /** A subtree that a cut does not meet stays as it was. */
  lemma Untouched(N: Store, next: Node, R: set<Node>, n: Node)
    requires Linked(N, next) && ClosedDown(N, R) && n in N && Below(N, {n}) !! R
    ensures Below(Cut(N, R), {n}) == Below(N, {n})
    ensures forall m :: m in Below(N, {n}) ==> m in Cut(N, R) && Cut(N, R)[m] == N[m]
  {
    BelowAfterCut(N, next, R, n);
    forall m | m in Below(N, {n}) ensures m in Cut(N, R) && Cut(N, R)[m] == N[m] {
      BelowIsClosed(N, next, {n});
      KeepAll(N[m].kids, R);
    }
  }

  lemma CopiedBelowSurvives(S: Source, N: Store, next: Node, R: set<Node>, n: Node)
    requires Linked(N, next) && ClosedDown(N, R) && n in N && Below(N, {n}) !! R
    requires CopiedBelow(S, N, n)
    ensures CopiedBelow(S, Cut(N, R), n)
  {
    var M := Cut(N, R);
    Untouched(N, next, R, n);
    BelowIsClosed(N, next, {n});
    forall m | m in Below(M, {n}) ensures Copied(S, M, m) {
      assert Copied(S, N, m);
      if N[m].ProxyItem? {
        var items := S.kids[N[m].src];
        forall i | 0 <= i < |M[m].kids|
          ensures M[m].kids[i] in M && M[M[m].kids[i]].ProxyItem? && M[M[m].kids[i]].src == items[i]
        {
          assert N[m].kids[i] in Below(N, {n});
        }
      }
    }
  }

  /** Removing one more proxy of the same item adds exactly what that proxy takes with it. */
  lemma GoneStep(S: Source, N: Store, next: Node, items: set<Node>, x: Node, s: Id)
    requires WellFormed(S) && Linked(N, next)
    requires forall n :: n in items + {x} ==> n in N && N[n].ProxyItem? && N[n].src == s && CopiedBelow(S, N, n)
    requires x !in items
    ensures x in Cut(N, Gone(N, items)) && Below(N, {x}) !! Gone(N, items)
    ensures Gone(N, items + {x}) == Gone(N, items) + Gone(Cut(N, Gone(N, items)), {x})
  {
    GoneApart(S, N, next, items, x, s);
    assert x in items + {x};
    GoneSplit(N, next, items, x);
  }

  lemma GoneSplit(N: Store, next: Node, items: set<Node>, x: Node)
    requires Linked(N, next)
    requires forall n :: n in items + {x} ==> n in N && N[n].ProxyItem?
    requires x in N && Below(N, {x}) !! Gone(N, items)
    ensures x in Cut(N, Gone(N, items))
    ensures Gone(N, items + {x}) == Gone(N, items) + Gone(Cut(N, Gone(N, items)), {x})
  {
    var G := Gone(N, items);
    GoneClosed(N, next, items);
    assert x in Below(N, {x}) by { SelfBelow(N, {x}); assert x in {x}; }
    BelowAfterCut(N, next, G, x);
    BelowUnion(N, items, {x});
    EmptiedStep(N, next, items, x);
  }

  lemma GoneApart(S: Source, N: Store, next: Node, items: set<Node>, x: Node, s: Id)
    requires WellFormed(S) && Linked(N, next)
    requires forall n :: n in items + {x} ==> n in N && N[n].ProxyItem? && N[n].src == s && CopiedBelow(S, N, n)
    requires x !in items
    ensures Below(N, {x}) !! Gone(N, items)
  {
    forall m | m in Below(N, {x}) && m in Gone(N, items) ensures false {
      assert x in items + {x};
      SourcesGrow(S, N, next, x, m);
      var a :| a in items && Above(N, a, m);
      assert a in items + {x} && a in {a};
      assert m in Below(N, {a});
      SubtreesApart(S, N, next, x, a);
    }
  }

  lemma EmptiedStep(N: Store, next: Node, items: set<Node>, x: Node)
    requires Linked(N, next)
    requires forall n :: n in items + {x} ==> n in N && N[n].ProxyItem?
    requires x !in Gone(N, items)
    ensures Emptied(N, items + {x}) == Emptied(N, items) + Emptied(Cut(N, Gone(N, items)), {x})
  {
    var G := Gone(N, items);
    var M := Cut(N, G);
    forall p | p in N && N[p].GroupItem?
      ensures p in Emptied(N, items + {x}) <==> p in Emptied(N, items) || p in Emptied(M, {x})
    {
      GroupKidsGone(N, next, items, p);
    }
  }

  /** Of the children of a group, a removal takes the removed items themselves. */
  lemma GroupKidsGone(N: Store, next: Node, items: set<Node>, p: Node)
    requires Linked(N, next) && p in N && N[p].GroupItem?
    requires forall n :: n in items ==> n in N && N[n].ProxyItem?
    ensures p in Gone(N, items) <==> p in Emptied(N, items)
    ensures forall c :: c in N[p].kids ==> (c in Gone(N, items) <==> c in items)
  {
    forall c | c in N[p].kids ensures c in Gone(N, items) <==> c in items {
      KidOfGroup(N, next, items, p, c);
    }
    assert p !in Below(N, items);
  }

  lemma KidOfGroup(N: Store, next: Node, items: set<Node>, p: Node, c: Node)
    requires Linked(N, next) && p in N && N[p].GroupItem? && c in N[p].kids
    requires forall n :: n in items ==> n in N && N[n].ProxyItem?
    ensures c in Below(N, items) <==> c in items
  {
    assert c in N && N[c].parent == p;
    if c in items { assert Above(N, c, c); }
    if c in Below(N, items) {
      var a :| a in items && Above(N, a, c);
      assert a == c || Above(N, a, p);
    }
  }
}
