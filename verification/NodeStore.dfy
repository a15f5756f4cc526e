/** The items of the proxy model.  They are entries of a store, so that links between them
    (parent, children, the entries of the indexes) are visible values and may be shared. */
module NodeStore {
  import opened Sequences
  import opened SourceModel

  type Node = nat

  datatype Item =
    | GroupItem(group: string, forced: bool, kids: seq<Node>)
    | ProxyItem(src: Id, parent: Node, kids: seq<Node>)

  type Store = map<Node, Item>

  /** Parent and child links mirror each other; a child is always younger than its parent. */
  ghost predicate Linked(N: Store, next: Node) {
    && (forall n :: n in N ==> n < next && NoDup(N[n].kids))
    && KidsLinked(N)
    && ParentsLinked(N)
  }

  ghost predicate KidsLinked(N: Store) {
    forall n, c {:trigger c in N[n].kids} :: n in N && c in N[n].kids ==> IsKid(N, n, c)
  }

  ghost predicate IsKid(N: Store, n: Node, c: Node) {
    n < c && c in N && N[c].ProxyItem? && N[c].parent == n
  }

  ghost predicate ParentsLinked(N: Store) {
    forall n :: n in N && N[n].ProxyItem? ==> N[n].parent in N && n in N[N[n].parent].kids
  }

  /** `a` is `m` or one of the nodes above `m`. */
  ghost predicate Above(N: Store, a: Node, m: Node)
    decreases m
  {
    || a == m
    || (m in N && N[m].ProxyItem? && N[m].parent < m && Above(N, a, N[m].parent))
  }

  /** The nodes at or below one of `tops`. */
  ghost function Below(N: Store, tops: set<Node>): (r: set<Node>)
    ensures r <= N.Keys
  {
    set m | m in N && exists a :: a in tops && Above(N, a, m)
  }

  /** An item whose child list loses the nodes of `R`. */
  function Trim(item: Item, R: set<Node>): (r: Item)
    ensures r.kids == Keep(item.kids, R)
    ensures r.ProxyItem? == item.ProxyItem?
    ensures item.ProxyItem? ==> r.src == item.src && r.parent == item.parent
    ensures item.GroupItem? ==> r.group == item.group && r.forced == item.forced
  {
    match item
    case GroupItem(group, forced, kids) => GroupItem(group, forced, Keep(kids, R))
    case ProxyItem(src, parent, kids) => ProxyItem(src, parent, Keep(kids, R))
  }

  /** The store without the nodes of `R`, which also leave their parents' child lists. */
  ghost function Cut(N: Store, R: set<Node>): (r: Store)
    ensures forall m :: m in r <==> m in N && m !in R
    ensures forall m :: m in r ==> r[m] == Trim(N[m], R)
  {
    map m | m in N && m !in R :: Trim(N[m], R)
  }

  /** No child of a removed node is left behind. */
  ghost predicate ClosedDown(N: Store, R: set<Node>) {
    forall n, c :: n in N && n in R && c in N[n].kids ==> c in R
  }

  lemma {:induction false} AboveIsOlder(N: Store, a: Node, m: Node)
    requires Above(N, a, m)
    ensures a <= m
    decreases m
  {
    if a != m { AboveIsOlder(N, a, N[m].parent); }
  }

  /** The nodes above a node form a chain. */
  lemma {:induction false} AboveChain(N: Store, a: Node, b: Node, m: Node)
    requires Above(N, a, m) && Above(N, b, m) && a <= b
    ensures Above(N, a, b)
    decreases m
  {
    if b != m {
      if a == m {
        AboveIsOlder(N, b, m);
      } else {
        AboveChain(N, a, b, N[m].parent);
      }
    }
  }

  lemma {:induction false} AboveThroughKid(N: Store, next: Node, a: Node, m: Node)
    requires Linked(N, next) && m in N && a in N
    ensures Above(N, a, m) <==> a == m || exists c :: c in N[a].kids && Above(N, c, m)
    decreases m
  {
    if a != m {
      if Above(N, a, m) {
        var p := N[m].parent;
        AboveThroughKid(N, next, a, p);
        if a == p {
          assert m in N[a].kids && Above(N, m, m);
        } else {
          var c :| c in N[a].kids && Above(N, c, p);
          assert Above(N, c, m);
        }
      }
      if c :| c in N[a].kids && Above(N, c, m) {
        AboveTrans(N, a, c, m);
      }
    }
  }

  lemma {:induction false} AboveTrans(N: Store, a: Node, c: Node, m: Node)
    requires c in N && N[c].ProxyItem? && N[c].parent == a && a < c
    requires Above(N, c, m)
    ensures Above(N, a, m)
    decreases m
  {
    if c != m {
      AboveTrans(N, a, c, N[m].parent);
    } else {
      assert Above(N, a, a);
    }
  }

  lemma {:induction false} SiblingsApart(N: Store, next: Node, n: Node, c: Node, d: Node, m: Node)
    requires Linked(N, next) && n in N && c in N[n].kids && d in N[n].kids && c != d
    requires Above(N, c, m)
    ensures !Above(N, d, m)
  {
    if Above(N, d, m) {
      assert N[c].parent == n && N[d].parent == n && n < c && n < d;
      if c < d { AboveChain(N, c, d, m); AboveIsOlder(N, c, n); }
      else { AboveChain(N, d, c, m); AboveIsOlder(N, d, n); }
    }
  }

  lemma BelowIsClosed(N: Store, next: Node, tops: set<Node>)
    requires Linked(N, next)
    ensures ClosedDown(N, Below(N, tops))
  {
    var R := Below(N, tops);
    forall n, c | n in N && n in R && c in N[n].kids ensures c in R {
      var a :| a in tops && Above(N, a, n);
      assert Above(N, a, c);
    }
  }

  lemma CutLinked(N: Store, next: Node, R: set<Node>)
    requires Linked(N, next) && ClosedDown(N, R)
    ensures Linked(Cut(N, R), next)
  {
    var M := Cut(N, R);
    forall n | n in M ensures n < next && NoDup(M[n].kids) { KeepNoDup(N[n].kids, R); }
    assert KidsLinked(M) by { CutKidsLinked(N, R); }
    assert ParentsLinked(M) by { CutParentsLinked(N, R); }
  }

  lemma CutKidsLinked(N: Store, R: set<Node>)
    requires KidsLinked(N)
    ensures KidsLinked(Cut(N, R))
  {
    var M := Cut(N, R);
    forall n, c | n in M && c in M[n].kids ensures IsKid(M, n, c) {
      assert n in N && c in N[n].kids && c !in R;
    }
  }

  lemma CutParentsLinked(N: Store, R: set<Node>)
    requires ParentsLinked(N) && ClosedDown(N, R)
    ensures ParentsLinked(Cut(N, R))
  {
    var M := Cut(N, R);
    forall n | n in M && M[n].ProxyItem?
      ensures M[n].parent in M && n in M[M[n].parent].kids
    {
      var p := N[n].parent;
      assert n in N && p in N && n in N[p].kids && p !in R;
    }
  }

  lemma {:induction false} CutAbove(N: Store, next: Node, R: set<Node>, a: Node, m: Node)
    requires Linked(N, next) && ClosedDown(N, R)
    requires m in N && m !in R
    ensures Above(Cut(N, R), a, m) <==> Above(N, a, m)
    decreases m
  {
    if a != m && N[m].ProxyItem? {
      CutAbove(N, next, R, a, N[m].parent);
    }
  }

  lemma TrimTwice(item: Item, A: set<Node>, B: set<Node>)
    ensures Trim(Trim(item, A), B) == Trim(item, A + B)
  {
    KeepTwice(item.kids, A, B);
  }

  lemma CutTwice(N: Store, A: set<Node>, B: set<Node>)
    ensures Cut(Cut(N, A), B) == Cut(N, A + B)
  {
    var l, r := Cut(Cut(N, A), B), Cut(N, A + B);
    assert l.Keys == r.Keys;
    forall m | m in l ensures l[m] == r[m] { TrimTwice(N[m], A, B); }
  }

  lemma CutNothing(N: Store)
    ensures Cut(N, {}) == N
  {
    forall m | m in N ensures Cut(N, {})[m] == N[m] { KeepAll(N[m].kids, {}); }
  }

  /** Below a node: the node itself and what is below its children. */
  lemma BelowOne(N: Store, next: Node, n: Node)
    requires Linked(N, next) && n in N
    ensures Below(N, {n}) == {n} + Below(N, set c | c in N[n].kids)
  {
    forall m | m in N
      ensures Above(N, n, m) <==> m == n || exists c :: c in N[n].kids && Above(N, c, m)
    {
      AboveThroughKid(N, next, n, m);
    }
    forall m | m in N
      ensures m in Below(N, {n}) <==> m in {n} + Below(N, set c | c in N[n].kids)
    {
      if m in Below(N, {n}) { assert Above(N, n, m); }
      if m == n { assert n in {n} && Above(N, n, m); }
      if Above(N, n, m) { assert n in {n}; }
    }
  }

  lemma BelowUnion(N: Store, A: set<Node>, B: set<Node>)
    ensures Below(N, A + B) == Below(N, A) + Below(N, B)
  {
  }

  /** Cutting away other subtrees does not change what is below a remaining node. */
  lemma BelowAfterCut(N: Store, next: Node, R: set<Node>, n: Node)
    requires Linked(N, next) && ClosedDown(N, R)
    requires n in N && Below(N, {n}) !! R
    ensures Below(Cut(N, R), {n}) == Below(N, {n})
  {
    forall m | m in N && m !in R
      ensures Above(Cut(N, R), n, m) <==> Above(N, n, m)
    {
      CutAbove(N, next, R, n, m);
    }
  }
}
