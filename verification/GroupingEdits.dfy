/** The single edits inside the slots of the grouping proxy, and what each does to the store. */
module GroupingEdits {
  import opened Sequences
  import opened SourceModel
  import opened NodeStore
  import opened GroupingInvariant
  import opened GroupingSteps

  ghost function First(kids: seq<Node>, i: nat): set<Node>
    requires i <= |kids|
  {
    set c | c in kids[..i]
  }

  lemma GoneNothing(N: Store)
    ensures Gone(N, {}) == {} && Cut(N, Gone(N, {})) == N
  {
    forall p | p in N && N[p].kids != [] ensures p !in Emptied(N, {}) {
      assert N[p].kids[0] in N[p].kids;
    }
    CutNothing(N);
  }

  /** Among the proxies of item `s` to remove, the next one after those in `done`. */
  lemma NextRemoval(S: Source, N: Store, next: Node, done: set<Node>, proxy: Node, s: Id)
    requires WellFormed(S) && Linked(N, next) && proxy !in done
    requires forall n :: n in done + {proxy} ==> n in N && N[n].ProxyItem? && N[n].src == s && CopiedBelow(S, N, n)
    ensures
      var M := Cut(N, Gone(N, done));
      && proxy in M && M[proxy].ProxyItem? && M[proxy].src == s
      && CopiedBelow(S, M, proxy)
      && Cut(M, Gone(M, {proxy})) == Cut(N, Gone(N, done + {proxy}))
  {
    hide Keep, NoDup, KidsLinked, ParentsLinked, Below, Gone, Cut, CopiedBelow, Trim;
    assert proxy in done + {proxy};
    GoneStep(S, N, next, done, proxy, s);
    GoneClosed(N, next, done);
    CopiedBelowSurvives(S, N, next, Gone(N, done), proxy);
    CutTwice(N, Gone(N, done), Gone(Cut(N, Gone(N, done)), {proxy}));
  }

  lemma BelowNothing(N: Store)
    ensures forall kids: seq<Node> :: Below(N, First(kids, 0)) == {}
    ensures Cut(N, {}) == N
  {
    CutNothing(N);
  }

  lemma SelfCopied(S: Source, N: Store, n: Node)
    requires n in N && N[n].ProxyItem? && CopiedBelow(S, N, n)
    ensures Copied(S, N, n)
    ensures N[n].src in S.kids && |N[n].kids| == |S.kids[N[n].src]|
  {
    SelfBelow(N, {n});
    assert n in {n};
  }

  /** The child at place `i` of `proxy`, when the ones before it are gone with all below them: it is
      the first child, it can be removed, and its removal takes nothing but what is below it. */
  lemma KidRemoval(S: Source, N: Store, next: Node, proxy: Node, i: nat)
    requires WellFormed(S) && Linked(N, next)
    requires proxy in N && N[proxy].ProxyItem? && CopiedBelow(S, N, proxy)
    requires i < |N[proxy].kids|
    ensures
      var K := N[proxy].kids;
      var M := Cut(N, Below(N, First(K, i)));
      && proxy in M && M[proxy].kids != [] && M[proxy].kids[0] == K[i]
      && N[proxy].src in S.kids && |K| == |S.kids[N[proxy].src]|
      && S.kids[N[proxy].src][i] in S.kids && N[proxy].src < S.kids[N[proxy].src][i] < S.next
      && K[i] in M && M[K[i]].ProxyItem? && M[K[i]].src == S.kids[N[proxy].src][i]
      && CopiedBelow(S, M, K[i])
      && Cut(M, Gone(M, {K[i]})) == Cut(N, Below(N, First(K, i + 1)))
  {
    hide Keep;
    var K := N[proxy].kids;
    var R := Below(N, First(K, i));
    var M := Cut(N, R);
    SelfCopied(S, N, proxy);
    assert S.kids[N[proxy].src][i] in S.kids[N[proxy].src];
    KidFacts(S, N[proxy].src, S.kids[N[proxy].src][i]);
    BelowIsClosed(N, next, First(K, i));
    KidApart(N, next, proxy, i);
    KidKeepsPlace(N, next, proxy, i);
    KidCopiedBelow(S, N, next, proxy, K[i]);
    CopiedBelowSurvives(S, N, next, R, K[i]);
    KidTakesOnlyItself(N, next, proxy, i);
  }

  lemma KidNotAbove(N: Store, next: Node, n: Node, kid: Node)
    requires Linked(N, next) && n in N && kid in N[n].kids
    ensures !Above(N, kid, n)
  {
    if Above(N, kid, n) { AboveIsOlder(N, kid, n); }
  }

  lemma KidApart(N: Store, next: Node, proxy: Node, i: nat)
    requires Linked(N, next) && proxy in N && i < |N[proxy].kids|
    ensures Below(N, {N[proxy].kids[i]}) !! Below(N, First(N[proxy].kids, i))
    ensures N[proxy].kids[i] in Below(N, {N[proxy].kids[i]})
    ensures proxy !in Below(N, First(N[proxy].kids, i))
  {
    var K := N[proxy].kids;
    forall m | m in Below(N, {K[i]}) && m in Below(N, First(K, i)) ensures false {
      var a :| a in First(K, i) && Above(N, a, m);
      SiblingsApart(N, next, proxy, K[i], a, m);
    }
    SelfBelow(N, {K[i]});
    assert K[i] in {K[i]} && K[i] in K;
    forall a | a in First(K, i) ensures !Above(N, a, proxy) { KidNotAbove(N, next, proxy, a); }
  }

  lemma KidKeepsPlace(N: Store, next: Node, proxy: Node, i: nat)
    requires Linked(N, next) && proxy in N && i < |N[proxy].kids|
    ensures Keep(N[proxy].kids, Below(N, First(N[proxy].kids, i))) == N[proxy].kids[i..]
  {
    var K := N[proxy].kids;
    SelfBelow(N, First(K, i));
    forall c | c in K[..i] ensures c in Below(N, First(K, i)) {
      assert c in K && c in N;
    }
    forall c | c in K[i..] ensures c !in Below(N, First(K, i)) { LaterKid(N, next, proxy, i, c); }
    KeepSuffix(K, i, Below(N, First(K, i)));
  }

  lemma LaterKid(N: Store, next: Node, proxy: Node, i: nat, c: Node)
    requires Linked(N, next) && proxy in N && i <= |N[proxy].kids| && c in N[proxy].kids[i..]
    ensures c !in Below(N, First(N[proxy].kids, i))
  {
    forall a | a in First(N[proxy].kids, i) ensures !Above(N, a, c) {
      assert Above(N, c, c) && a in N[proxy].kids && c in N[proxy].kids && a != c;
      SiblingsApart(N, next, proxy, c, a, c);
    }
  }

  lemma KidCopiedBelow(S: Source, N: Store, next: Node, proxy: Node, kid: Node)
    requires Linked(N, next) && proxy in N && kid in N[proxy].kids && CopiedBelow(S, N, proxy)
    ensures CopiedBelow(S, N, kid)
  {
    forall m | m in Below(N, {kid}) ensures Copied(S, N, m) {
      AboveTrans(N, proxy, kid, m);
      assert proxy in {proxy};
    }
  }

  lemma FirstMore(kids: seq<Node>, i: nat)
    requires i < |kids|
    ensures First(kids, i + 1) == First(kids, i) + {kids[i]}
  {
  }

  lemma KidKind(N: Store, next: Node, proxy: Node, kid: Node)
    requires Linked(N, next) && proxy in N && N[proxy].ProxyItem? && kid in N[proxy].kids
    ensures kid in N && N[kid].ProxyItem? && N[kid].parent == proxy
  {
  }

  lemma KidTakesOnlyItself(N: Store, next: Node, proxy: Node, i: nat)
    requires Linked(N, next) && proxy in N && N[proxy].ProxyItem? && i < |N[proxy].kids|
    ensures
      var K := N[proxy].kids;
      var M := Cut(N, Below(N, First(K, i)));
      Cut(M, Gone(M, {K[i]})) == Cut(N, Below(N, First(K, i + 1)))
  {
    hide Keep, Below, Cut, Gone, ClosedDown;
    var K := N[proxy].kids;
    assert K[i] in K;
    KidKind(N, next, proxy, K[i]);
    BelowIsClosed(N, next, First(K, i));
    KidApart(N, next, proxy, i);
    FirstMore(K, i);
    BelowUnion(N, First(K, i), {K[i]});
    hide Linked, First;
    TakeNested(N, next, Below(N, First(K, i)), K[i]);
  }

  lemma TakeNested(N: Store, next: Node, R: set<Node>, kid: Node)
    requires Linked(N, next) && ClosedDown(N, R) && Below(N, {kid}) !! R
    requires kid in N && kid !in R && N[kid].ProxyItem? && N[N[kid].parent].ProxyItem? && N[kid].parent !in R
    ensures Cut(Cut(N, R), Gone(Cut(N, R), {kid})) == Cut(N, R + Below(N, {kid}))
  {
    hide Keep, Below, NoDup, Cut, Trim, Emptied;
    var M := Cut(N, R);
    BelowAfterCut(N, next, R, kid);
    CutLinked(N, next, R);
    ChildlessGroups(M, next, kid);
    assert Gone(M, {kid}) == Below(N, {kid});
    CutTwice(N, R, Below(N, {kid}));
  }

  /** A removal of one nested proxy empties no group. */
  lemma ChildlessGroups(M: Store, next: Node, kid: Node)
    requires Linked(M, next) && kid in M && M[kid].ProxyItem? && M[M[kid].parent].ProxyItem?
    ensures Emptied(M, {kid}) == {}
  {
    forall p | p in M && M[p].GroupItem? && M[p].kids != [] ensures M[p].kids[0] != kid && M[p].kids[0] in M[p].kids {
      assert M[p].kids[0] in M[p].kids;
    }
  }

  function DropKid(item: Item, row: nat): (r: Item)
    requires row < |item.kids|
    ensures r.kids == item.kids[..row] + item.kids[row + 1..]
    ensures r.ProxyItem? == item.ProxyItem?
    ensures item.ProxyItem? ==> r.src == item.src && r.parent == item.parent
    ensures item.GroupItem? ==> r.group == item.group && r.forced == item.forced
  {
    match item
    case GroupItem(group, forced, kids) => GroupItem(group, forced, kids[..row] + kids[row + 1..])
    case ProxyItem(src, parent, kids) => ProxyItem(src, parent, kids[..row] + kids[row + 1..])
  }

  /** Deletes the child at place `row` of item `p`. */
  function RemoveRow(N: Store, p: Node, row: nat): Store
    requires p in N && row < |N[p].kids|
  {
    (N - {N[p].kids[row]})[p := DropKid(N[p], row)]
  }

  lemma RemoveRowCuts(N: Store, next: Node, p: Node, row: nat)
    requires Linked(N, next) && p in N && row < |N[p].kids|
    ensures RemoveRow(N, p, row) == Cut(N, {N[p].kids[row]})
  {
    hide Keep;
    var c := N[p].kids[row];
    var M, C := RemoveRow(N, p, row), Cut(N, {c});
    assert c in N[p].kids && p < c;
    forall m | m in N && m != c ensures m in M && M[m] == Trim(N[m], {c}) {
      if m == p {
        KeepOne(N[p].kids, row);
      } else {
        OneParent(N, next, p, m, c);
        KeepAll(N[m].kids, {c});
      }
    }
  }

  lemma OneParent(N: Store, next: Node, p: Node, m: Node, c: Node)
    requires Linked(N, next) && p in N && m in N && c in N[p].kids && m != p
    ensures c !in N[m].kids
  {
  }

  lemma ParentNotBelow(N: Store, next: Node, n: Node)
    requires Linked(N, next) && n in N
    ensures n !in Below(N, First(N[n].kids, |N[n].kids|))
  {
    forall a | a in N[n].kids ensures !Above(N, a, n) { KidNotAbove(N, next, n, a); }
  }

  lemma ParentStays(N: Store, next: Node, proxy: Node)
    requires Linked(N, next) && proxy in N && N[proxy].ProxyItem?
    ensures N[proxy].parent !in Below(N, First(N[proxy].kids, |N[proxy].kids|))
  {
    var p := N[proxy].parent;
    forall a | a in N[proxy].kids ensures !Above(N, a, p) {
      if Above(N, a, p) { AboveIsOlder(N, a, p); }
      assert p < proxy < a by { assert proxy in N[p].kids; }
    }
  }

  /** When all children of `proxy` are gone, deleting its row completes the removal of its subtree. */
  lemma LastRowCuts(N: Store, next: Node, proxy: Node)
    requires Linked(N, next) && proxy in N && N[proxy].ProxyItem?
    ensures
      var M := Cut(N, Below(N, First(N[proxy].kids, |N[proxy].kids|)));
      && Linked(M, next) && proxy in M && M[proxy].kids == []
      && M[proxy].ProxyItem? && M[proxy].src == N[proxy].src && M[proxy].parent == N[proxy].parent
      && M[proxy].parent in M && proxy in M[M[proxy].parent].kids
      && Cut(M, {proxy}) == Cut(N, Below(N, {proxy}))
  {
    hide Keep, Below, NoDup, Cut, Trim;
    var K := N[proxy].kids;
    var tops := First(K, |K|);
    assert proxy in N[N[proxy].parent].kids;
    KidNotAbove(N, next, N[proxy].parent, proxy);
    ParentStays(N, next, proxy);
    var R := Below(N, tops);
    BelowIsClosed(N, next, tops);
    CutLinked(N, next, R);
    SelfBelow(N, tops);
    ParentNotBelow(N, next, proxy);
    forall c | c in K ensures c in R { assert c in N; }
    KeepNone(K, R);
    LastCut(N, next, proxy);
  }

  lemma LastCut(N: Store, next: Node, proxy: Node)
    requires Linked(N, next) && proxy in N
    ensures Cut(Cut(N, Below(N, First(N[proxy].kids, |N[proxy].kids|))), {proxy}) == Cut(N, Below(N, {proxy}))
  {
    hide Keep, Below, NoDup, Cut, Linked;
    var K := N[proxy].kids;
    var tops := First(K, |K|);
    assert K[..|K|] == K;
    assert tops == set c | c in K;
    CutTwice(N, Below(N, tops), {proxy});
    BelowOne(N, next, proxy);
    assert Below(N, tops) + {proxy} == Below(N, {proxy});
  }

  lemma ProxyLeavesIndex(N: Store, proxyMap: map<Id, set<Node>>, proxy: Node)
    requires Indexed(N, proxyMap) && proxy in N && N[proxy].ProxyItem?
    ensures Indexed(Cut(N, {proxy}), proxyMap[N[proxy].src := Find(proxyMap, N[proxy].src) - {proxy}])
  {
    var s := N[proxy].src;
    var M, index := Cut(N, {proxy}), proxyMap[s := Find(proxyMap, s) - {proxy}];
    forall t, n ensures n in Find(index, t) <==> n in M && M[n].ProxyItem? && M[n].src == t {
      assert n in Find(proxyMap, t) <==> n in N && N[n].ProxyItem? && N[n].src == t;
      assert n in Find(index, t) <==> n in Find(proxyMap, t) && n != proxy;
    }
  }

  lemma ProxyKeepsGroups(N: Store, rows: seq<Node>, groupMap: map<string, Option<Node>>, proxy: Node)
    requires GroupsIndexed(N, rows, groupMap) && proxy in N && N[proxy].ProxyItem?
    ensures GroupsIndexed(Cut(N, {proxy}), rows, groupMap)
  {
  }

  /** After the subtree of `proxy` has gone, its parent is an empty unforced group exactly when that
      group leaves too. */
  lemma ParentLeaves(N: Store, next: Node, proxy: Node)
    requires Linked(N, next) && proxy in N && N[proxy].ProxyItem?
    ensures
      var X, p := Cut(N, Below(N, {proxy})), N[proxy].parent;
      && Linked(X, next) && p in X
      && X[p].GroupItem? == N[p].GroupItem?
      && Gone(N, {proxy}) ==
           if X[p].GroupItem? && !X[p].forced && X[p].kids == [] then Below(N, {proxy}) + {p} else Below(N, {proxy})
  {
    hide Keep;
    var R, p := Below(N, {proxy}), N[proxy].parent;
    BelowIsClosed(N, next, {proxy});
    CutLinked(N, next, R);
    assert p !in R by { KidNotAbove(N, next, p, proxy); }
    assert Cut(N, R)[p] == Trim(N[p], R);
    forall q | q in N && N[q].GroupItem?
      ensures q in Emptied(N, {proxy}) <==> q == p && !N[q].forced && Keep(N[q].kids, R) == []
    {
      EmptiedParent(N, next, proxy, q);
    }
    assert forall q :: q in Emptied(N, {proxy}) ==> q in N && N[q].GroupItem?;
  }

  lemma EmptiedParent(N: Store, next: Node, proxy: Node, q: Node)
    requires Linked(N, next) && proxy in N && N[proxy].ProxyItem? && q in N && N[q].GroupItem?
    ensures q in Emptied(N, {proxy}) <==>
      q == N[proxy].parent && !N[q].forced && Keep(N[q].kids, Below(N, {proxy})) == []
  {
    forall c | c in N[q].kids ensures c in Below(N, {proxy}) <==> c == proxy {
      KidOfGroup(N, next, {proxy}, q, c);
    }
    assert proxy in N[q].kids <==> q == N[proxy].parent;
    OnlyOne(N[q].kids, Below(N, {proxy}), proxy);
  }

  /** Only `x` of `s` goes: nothing is left exactly when nothing but `x` was there. */
  lemma OnlyOne(s: seq<Node>, gone: set<Node>, x: Node)
    requires forall c :: c in s ==> (c in gone <==> c == x)
    ensures s != [] && (forall c :: c in s ==> c in {x}) <==> x in s && Keep(s, gone) == []
  {
    var kept := Keep(s, gone);
    assert kept != [] ==> kept[0] in kept;
    assert s != [] ==> s[0] in s;
  }

  /** An empty group can be taken out of the rows and both indexes. */
  lemma GroupLeaves(N: Store, next: Node, rows: seq<Node>, proxyMap: map<Id, set<Node>>,
                    groupMap: map<string, Option<Node>>, p: Node)
    requires Sound(State(N, next, rows, proxyMap, groupMap))
    requires p in N && N[p].GroupItem? && N[p].kids == []
    ensures N - {p} == Cut(N, {p})
    ensures Sound(State(N - {p}, next, Keep(rows, {p}), proxyMap, groupMap - {N[p].group}))
  {
    hide Keep;
    GroupLeavesTree(N, next, p);
    GroupLeavesIndex(N, rows, groupMap, p);
    assert Indexed(N - {p}, proxyMap);
  }

  lemma GroupLeavesTree(N: Store, next: Node, p: Node)
    requires Linked(N, next) && p in N && N[p].GroupItem? && N[p].kids == []
    ensures N - {p} == Cut(N, {p}) && Linked(N - {p}, next)
  {
    hide Keep;
    forall m | m in N ensures Trim(N[m], {p}) == N[m] {
      assert p !in N[m].kids;
      KeepAll(N[m].kids, {p});
    }
    assert ClosedDown(N, {p});
    CutLinked(N, next, {p});
    assert N - {p} == Cut(N, {p});
  }

  lemma GroupLeavesIndex(N: Store, rows: seq<Node>, groupMap: map<string, Option<Node>>, p: Node)
    requires GroupsIndexed(N, rows, groupMap) && p in N && N[p].GroupItem?
    ensures GroupsIndexed(N - {p}, Keep(rows, {p}), groupMap - {N[p].group})
  {
    KeepNoDup(rows, {p});
  }
}
