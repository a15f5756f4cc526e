/** The grouping proxy model: its slots change the tree and its indexes in place. */
module GroupingProxy {
  import opened Sequences
  import opened SourceModel
  import opened NodeStore
  import opened GroupingInvariant
  import opened GroupingSteps
  import opened GroupingEdits
  import opened GroupingSlots

  class AbstractGroupingProxyModel {
    var source: Source
    var nodes: Store
    var next: Node
    var rows: seq<Node>
    var proxyMap: map<Id, set<Node>>
    var groupMap: map<string, Option<Node>>
    var groupCache: map<Id, set<string>>
    var loaded: bool

    ghost function Now(): State
      reads this
    {
      State(nodes, next, rows, proxyMap, groupMap)
    }

    // ---- recursive edits ------------------------------------------------------------------

    method AddProxyNode(s: Id, par: Node)
      requires WellFormed(source) && Sound(Now())
      requires par in nodes && s in source.kids
      modifies `nodes, `next, `proxyMap
      ensures Sound(Now()) && old(next) < next
      ensures Planted(source, old(nodes), nodes, old(next), par, s)
      decreases source.next - s
    {
      hide Keep, KidsLinked, ParentsLinked, NoDup, Indexed, GroupsIndexed, PlantedUpTo, WithRoot;
      ghost var A := nodes;
      var root := next;
      RootLinked(nodes, root, par, s);
      RootIndexed(nodes, proxyMap, root, par, s);
      RootGroupsIndexed(nodes, rows, groupMap, root, par, s);
      PlantRoot(source, nodes, root, par, s);
      proxyMap := proxyMap[s := Find(proxyMap, s) + {root}];
      nodes := WithRoot(nodes, root, par, s);
      next := next + 1;

      var i := 0;
      while i < |source.kids[s]|
        invariant i <= |source.kids[s]|
        invariant Sound(Now()) && root < next
        invariant PlantedUpTo(source, A, nodes, root, par, s, i)
      {
        var child := source.kids[s][i];
        assert child in source.kids[s];
        KidFacts(source, s, child);
        PlantedRoot(source, A, nodes, root, par, s, i);
        ghost var B, kid := nodes, next;
        AddProxyNode(child, root);
        PlantStep(source, A, B, nodes, root, par, s, i, kid);
        i := i + 1;
      }
    }

    method RemoveProxyNodes(s: Id, removedItems: set<Node>)
      requires WellFormed(source) && Sound(Now()) && s in source.kids
      requires forall n :: n in removedItems ==>
        n in nodes && nodes[n].ProxyItem? && nodes[n].src == s && CopiedBelow(source, nodes, n)
      modifies `nodes, `rows, `proxyMap, `groupMap
      ensures Sound(Now())
      ensures nodes == Cut(old(nodes), Gone(old(nodes), removedItems))
      decreases source.next - s, 2
    {
      hide Keep, WellFormed, Linked, Indexed, GroupsIndexed, Below, Gone, Cut, Trim, CopiedBelow, Copied, RemoveRow,
           IndexOf;
      ghost var N := nodes;
      ghost var done: set<Node> := {};
      var todo := removedItems;
      GoneNothing(N);
      while todo != {}
        invariant done !! todo && done + todo == removedItems
        invariant Sound(Now()) && nodes == Cut(N, Gone(N, done))
        decreases |todo|
      {
        var proxy :| proxy in todo;
        NextRemoval(source, N, next, done, proxy, s);
        RemoveProxy(s, proxy);
        done := done + {proxy};
        todo := todo - {proxy};
      }
      assert done == removedItems;
    }

    /** The loop over the children of a proxy that is being removed: always its first child, because
        the ones before are gone. */
    method RemoveKids(s: Id, proxy: Node)
      requires WellFormed(source) && Sound(Now()) && s in source.kids
      requires proxy in nodes && nodes[proxy].ProxyItem? && nodes[proxy].src == s
      requires CopiedBelow(source, nodes, proxy)
      modifies `nodes, `rows, `proxyMap, `groupMap
      ensures Sound(Now())
      ensures nodes == Cut(old(nodes), Below(old(nodes), First(old(nodes)[proxy].kids, |old(nodes)[proxy].kids|)))
      decreases source.next - s, 0
    {
      hide Keep, WellFormed, Linked, Indexed, GroupsIndexed, Below, Gone, Cut, Trim, CopiedBelow, Copied;
      ghost var N, K := nodes, nodes[proxy].kids;
      SelfCopied(source, N, proxy);
      BelowNothing(N);
      var i := 0;
      while i < |source.kids[s]|
        invariant i <= |source.kids[s]| == |K|
        invariant Sound(Now())
        invariant nodes == Cut(N, Below(N, First(K, i)))
      {
        KidRemoval(source, N, next, proxy, i);
        var kid := nodes[proxy].kids[0];
        RemoveProxyNodes(source.kids[s][i], {kid});
        i := i + 1;
      }
    }

    /** One round of the loop over the proxies to remove. */
    method RemoveProxy(s: Id, proxy: Node)
      requires WellFormed(source) && Sound(Now()) && s in source.kids
      requires proxy in nodes && nodes[proxy].ProxyItem? && nodes[proxy].src == s
      requires CopiedBelow(source, nodes, proxy)
      modifies `nodes, `rows, `proxyMap, `groupMap
      ensures Sound(Now())
      ensures nodes == Cut(old(nodes), Gone(old(nodes), {proxy}))
      decreases source.next - s, 1
    {
      hide Keep, WellFormed, Linked, Indexed, GroupsIndexed, Below, Gone, Cut, Trim, CopiedBelow, Copied, RemoveRow,
           IndexOf;
      ghost var N := nodes;
      var parentItem := nodes[proxy].parent;
      RemoveKids(s, proxy);
      LastRowCuts(N, next, proxy);
      ParentLeaves(N, next, proxy);
      ProxyLeavesIndex(nodes, proxyMap, proxy);
      ProxyKeepsGroups(nodes, rows, groupMap, proxy);
      var row := IndexOf(nodes[parentItem].kids, proxy);
      RemoveRowCuts(nodes, next, parentItem, row);
      nodes := RemoveRow(nodes, parentItem, row);
      proxyMap := proxyMap[s := Find(proxyMap, s) - {proxy}];

      if |nodes[parentItem].kids| == 0 && nodes[parentItem].GroupItem? {
        if !nodes[parentItem].forced {
          GroupLeaves(nodes, next, rows, proxyMap, groupMap, parentItem);
          CutTwice(N, Below(N, {proxy}), {parentItem});
          groupMap := groupMap - {nodes[parentItem].group};
          nodes := nodes - {parentItem};
          rows := Keep(rows, {parentItem});
        }
      }
    }

    // ---- the invariant --------------------------------------------------------------------

    /** What the tree shows: nothing until the existing rows are loaded, then the source. */
    ghost function Shown(): Source
      reads this
    {
      if loaded then source else Empty
    }

    ghost predicate Valid()
      reads this
    {
      && WellFormed(source) && Grouped(source)
      && Mirrors(Shown(), Now())
      && CacheFits(Shown(), groupCache)
    }

    constructor (source: Source)
      requires WellFormed(source) && Grouped(source)
      ensures Valid() && !loaded && this.source == source
      ensures nodes == map[]
    {
      this.source := source;
      nodes, next, rows := map[], 0, [];
      proxyMap, groupMap, groupCache := map[], map[], map[];
      loaded := false;
    }

    // ---- groups ---------------------------------------------------------------------------

    /** The group item of that name, created when the index has no entry for it.  An entry that is
        there but null is returned as it is. */
    method ItemForGroup(group: string) returns (item: Option<Node>)
      modifies `nodes, `next, `rows, `groupMap
      ensures group in old(groupMap) ==> item == old(groupMap)[group] && Now() == old(Now())
      ensures group !in old(groupMap) ==>
        && item == Some(old(next)) && next == old(next) + 1 && rows == old(rows) + [old(next)]
        && nodes == old(nodes)[old(next) := GroupItem(group, false, [])]
        && groupMap == old(groupMap)[group := item]
      ensures old(Sound(Now())) ==>
        && Sound(Now()) && item.Some? && item.value in nodes
        && nodes[item.value].GroupItem? && nodes[item.value].group == group
    {
      hide Linked, Indexed;
      if group in groupMap {
        item := groupMap[group];
      } else {
        if Sound(Now()) { NewGroupSound(Now(), group); }
        var n := next;
        nodes := nodes[n := GroupItem(group, false, [])];
        next := next + 1;
        rows := rows + [n];
        groupMap := groupMap[group := Some(n)];
        item := Some(n);
      }
    }

    /** The group a new row is about to join, possibly still empty. */
    method GroupToJoin(group: string, ghost S: Source) returns (item: Node)
      requires Mirrors(S, Now())
      modifies `nodes, `next, `rows, `groupMap
      ensures Sound(Now()) && item in nodes
      ensures nodes[item].GroupItem? && nodes[item].group == group
      ensures AllCopied(S, nodes) && Placed(S, nodes) && NoneEmpty(nodes, {item})
      ensures Forced(nodes) == Forced(old(nodes))
    {
      NewGroupMirrors(S, nodes, next, group);
      var found := ItemForGroup(group);
      item := found.value;
    }

    method ForceGroup(group: string)
      requires Valid()
      modifies `nodes, `next, `rows, `groupMap
      ensures Valid()
      ensures Forced(nodes) == Forced(old(nodes)) + {group}
    {
      var groupNode := GroupToJoin(group, Shown());
      MarkMirrors(Shown(), Now(), groupNode, true, {groupNode});
      nodes := nodes[groupNode := Mark(nodes[groupNode], true)];
    }

    /** Looking an unknown name up creates a null entry in the index: only for a known group is the
        model intact afterwards. */
    method UnforceGroup(group: string)
      requires Valid()
      modifies `nodes, `rows, `groupMap
      ensures Valid() <==> group in old(groupMap)
      ensures group in old(groupMap) ==> Forced(nodes) == Forced(old(nodes)) - {group}
      ensures group !in old(groupMap) ==>
        groupMap == old(groupMap)[group := None] && nodes == old(nodes) && rows == old(rows)
    {
      hide Keep, AllCopied, Placed, NoneEmpty, Linked, Indexed, Forced, CacheFits, WellFormed, Grouped;
      if group !in groupMap {
        groupMap := groupMap[group := None];
        NullEntry(nodes, rows, groupMap, group);
        return;
      }
      var groupNode := groupMap[group].value;
      MarkMirrors(Shown(), Now(), groupNode, false, {});
      nodes := nodes[groupNode := Mark(nodes[groupNode], false)];
      assert {} + {groupNode} == {groupNode};
      if |nodes[groupNode].kids| == 0 {
        EmptyGroupLeaves(Shown(), Now(), groupNode);
        groupMap := groupMap - {group};
        nodes := nodes - {groupNode};
        rows := Keep(rows, {groupNode});
      } else {
        FilledGroup(nodes, groupNode);
      }
    }

    /** Only announces new data for the header, if there is one, but looks the name up like `UnforceGroup`. */
    method GroupChanged(group: string) returns (changed: Option<Node>)
      requires Valid()
      modifies `groupMap
      ensures Valid() <==> group in old(groupMap)
      ensures group in old(groupMap) ==> groupMap == old(groupMap) && changed == groupMap[group]
      ensures group !in old(groupMap) ==> groupMap == old(groupMap)[group := None] && changed == None
    {
      hide Keep, AllCopied, Placed, NoneEmpty, Linked, Indexed, CacheFits, WellFormed, Grouped;
      if group !in groupMap {
        groupMap := groupMap[group := None];
        NullEntry(nodes, rows, groupMap, group);
      }
      changed := groupMap[group];
    }

    /** What a null entry leads to: from then on the name has no group item, so forcing it, or a row that
        comes into it, meets a null item.  Only a reset helps. */
    method UnforceUnknown(group: string) returns (item: Option<Node>)
      requires Valid() && group !in groupMap
      modifies `nodes, `next, `rows, `groupMap
      ensures item == None && group in groupMap && groupMap[group] == None
      ensures nodes == old(nodes) && rows == old(rows) && next == old(next)
    {
      hide Mirrors;
      UnforceGroup(group);
      item := ItemForGroup(group);
    }

    // ---- rows joining and leaving groups ----------------------------------------------------

    /** `addProxyNode(index, itemForGroup(group))` for a top-level row. */
    method JoinGroup(r: Id, group: string, ghost S: Source)
      requires Mirrors(S, Now()) && WellFormed(source) && SameItems(S, source)
      requires r in S.rows && group !in S.groups[r]
      modifies `nodes, `next, `rows, `proxyMap, `groupMap
      ensures Mirrors(SetGroups(S, r, S.groups[r] + {group}), Now())
      ensures Forced(nodes) == Forced(old(nodes))
    {
      hide AllCopied, Placed, Linked, Indexed, Forced, Planted;
      var item := GroupToJoin(group, S);
      ghost var A, root := nodes, next;
      UniqueGroups(Now());
      AddProxyNode(r, item);
      PlantedFor(source, S, A, nodes, root, item, r);
      JoinCopied(S, A, root, nodes, r, item, root);
      JoinPlaced(S, A, root, nodes, r, item, root);
      JoinNoneEmpty(S, A, nodes, r, item, root);
    }

    method JoinGroups(r: Id, groups: set<string>, ghost S: Source)
      requires Mirrors(S, Now()) && WellFormed(source) && SameItems(S, source)
      requires r in S.rows && groups !! S.groups[r]
      modifies `nodes, `next, `rows, `proxyMap, `groupMap
      ensures Mirrors(SetGroups(S, r, S.groups[r] + groups), Now())
      ensures Forced(nodes) == Forced(old(nodes))
    {
      hide Mirrors, WellFormed, Forced;
      RowHasGroups(S, Now(), r);
      var todo := groups;
      ghost var T, forced := S, Forced(nodes);
      SetGroupsSame(S, r);
      assert S.groups[r] + (groups - todo) == S.groups[r];
      while todo != {}
        invariant todo <= groups && T == SetGroups(S, r, S.groups[r] + (groups - todo))
        invariant Mirrors(T, Now()) && Forced(nodes) == forced
        decreases |todo|
      {
        var group :| group in todo;
        JoinGroup(r, group, T);
        todo := todo - {group};
        SetGroupsTwice(S, r, T.groups[r], T.groups[r] + {group});
        T := SetGroups(T, r, T.groups[r] + {group});
        assert T.groups[r] == S.groups[r] + (groups - todo);
      }
    }

    /** `removeProxyNodes` for proxies of a top-level row. */
    method LeaveGroups(r: Id, items: set<Node>, ghost S: Source)
      requires Mirrors(S, Now()) && WellFormed(source) && SameItems(S, source)
      requires r in S.rows
      requires forall n :: n in items ==> n in nodes && nodes[n].ProxyItem? && nodes[n].src == r
      modifies `nodes, `rows, `proxyMap, `groupMap
      ensures Mirrors(SetGroups(S, r, S.groups[r] - Names(old(nodes), items)), Now())
      ensures Forced(nodes) == Forced(old(nodes))
    {
      hide AllCopied, Placed, NoneEmpty, Linked, Indexed, GroupsIndexed, Forced, Cut, Gone, Names, CopiedBelow;
      forall n | n in items ensures CopiedBelow(source, nodes, n) { CopiedBelowFor(S, source, nodes, n); }
      LeaveCopied(S, nodes, next, r, items);
      LeavePlaced(S, nodes, next, r, items);
      LeaveNoneEmpty(S, nodes, next, r, items);
      RemoveProxyNodes(r, items);
      CopiedForGroups(S, nodes, r, S.groups[r] - Names(old(nodes), items));
    }

    // ---- slots ------------------------------------------------------------------------------

    method OnRowsInserted(sourceParent: Option<Id>, start: nat, end: nat, ghost before: Source)
      requires Mirrors(before, Now())
      requires sourceParent == None ==> InsertsRows(before, source, start, end)
      requires sourceParent.Some? ==> InsertsChildren(before, source, sourceParent.value, start, end)
      modifies `nodes, `next, `rows, `proxyMap, `groupMap
      ensures Forced(nodes) == Forced(old(nodes))
      ensures Mirrors(source, Now()) <==>
        (sourceParent == None || Find(old(proxyMap), sourceParent.value) == {} ||
         start == |before.kids[sourceParent.value]|)
      ensures sourceParent == None ==> forall r :: r in source.rows[start..end + 1] ==>
        && Find(old(proxyMap), r) == {}
        && r in source.groups && Names(nodes, Find(proxyMap, r)) == source.groups[r]
      ensures sourceParent.Some? ==>
        var p := sourceParent.value;
        && (forall c :: c in source.kids[p][start..end + 1] ==> Find(old(proxyMap), c) == {})
        && (forall n :: n in Find(proxyMap, p) ==>
              n in nodes && SameKids(nodes, nodes[n].kids, before.kids[p] + source.kids[p][start..end + 1]))
    {
      hide Mirrors, Names, Find, SameKids, Forced, InsertsRows;
      match sourceParent
      case None => TopRowsInserted(start, end, before);
      case Some(p) => ChildRowsInserted(p, start, end, before);
    }

    method TopRowsInserted(start: nat, end: nat, ghost before: Source)
      requires Mirrors(before, Now()) && InsertsRows(before, source, start, end)
      modifies `nodes, `next, `rows, `proxyMap, `groupMap
      ensures Mirrors(source, Now())
      ensures forall r :: r in source.rows[start..end + 1] ==>
        && Find(old(proxyMap), r) == {}
        && r in source.groups && Names(nodes, Find(proxyMap, r)) == source.groups[r]
      ensures Forced(nodes) == Forced(old(nodes))
    {
      hide Mirrors, Forced, Names, Find;
      BeforeTopInsertion(before, source, Now(), start, end);
      InsertStart(before, source, Now(), start, end);
      var i := start;
      while i <= end
        invariant start <= i <= end + 1
        invariant Mirrors(InsertedUpTo(source, i, end), Now())
        invariant Forced(nodes) == Forced(old(nodes))
      {
        var index := source.rows[i];
        InsertRound(source, Now(), i, end);
        JoinGroups(index, source.groups[index], SetGroups(InsertedUpTo(source, i + 1, end), index, {}));
        i := i + 1;
      }
      assert InsertedUpTo(source, end + 1, end) == source;
      AllRowItems(source, Now());
    }

    method ChildRowsInserted(p: Id, start: nat, end: nat, ghost before: Source)
      requires Mirrors(before, Now()) && InsertsChildren(before, source, p, start, end)
      modifies `nodes, `next, `proxyMap
      ensures Find(proxyMap, p) == Find(old(proxyMap), p)
      ensures Forced(nodes) == Forced(old(nodes))
      ensures Mirrors(source, Now()) <==> Find(old(proxyMap), p) == {} || start == |before.kids[p]|
      ensures forall c :: c in source.kids[p][start..end + 1] ==> Find(old(proxyMap), c) == {}
      ensures forall n :: n in Find(proxyMap, p) ==>
        n in nodes && SameKids(nodes, nodes[n].kids, before.kids[p] + source.kids[p][start..end + 1])
    {
      hide Mirrors, Forced, Find, SameKids;
      BeforeChildInsertion(before, source, Now(), p, start, end);
      ghost var first := before.kids[p];
      GraftsStart(before, source, Now(), p, start, end);
      var i := start;
      while i <= end
        invariant start <= i <= end + 1
        invariant Mirrors(WithKids(source, p, first + source.kids[p][start..i]), Now())
        invariant Find(proxyMap, p) == Find(old(proxyMap), p)
        invariant Forced(nodes) == Forced(old(nodes))
      {
        GraftsRound(before, source, p, start, end, i);
        AddToAll(source.kids[p][i], p,
          WithKids(source, p, first + source.kids[p][start..i]),
          WithKids(source, p, first + source.kids[p][start..i + 1]));
        i := i + 1;
      }
      AppendedOnly(before, source, Now(), p, start, end);
      AllKidsShown(WithKids(source, p, first + source.kids[p][start..end + 1]), Now(), p);
    }

    /** Every proxy of `p` gets a copy of the new child `c`. */
    method AddToAll(c: Id, p: Id, ghost S: Source, ghost F: Source)
      requires Mirrors(S, Now()) && CanGraft(S, F, source, p, c)
      modifies `nodes, `next, `proxyMap
      ensures Mirrors(F, Now())
      ensures Find(proxyMap, p) == Find(old(proxyMap), p)
      ensures Forced(nodes) == Forced(old(nodes))
    {
      hide WellFormed, Linked, GroupsIndexed, Placed, NoneEmpty, Forced, Planted, Grafting, AllCopied;
      var parents := Find(proxyMap, p);
      var todo := parents;
      GraftStart(S, F, source, p, c, nodes, todo);
      while todo != {}
        invariant todo <= parents
        invariant Sound(Now()) && Find(proxyMap, p) == parents
        invariant Grafting(S, F, nodes, todo)
        invariant Placed(S, nodes) && NoneEmpty(nodes, {})
        invariant Forced(nodes) == Forced(old(nodes))
        decreases |todo|
      {
        var m :| m in todo;
        ghost var A, root := nodes, next;
        assert m in A && A[m].ProxyItem? && A[m].src == p;
        assert forall n :: n in todo ==> n in A;
        AddProxyNode(c, m);
        GraftStep(S, F, source, p, c, A, nodes, root, m, todo);
        GraftPlaced(source, S, A, root, nodes, root, m, c);
        GraftKeepsParents(source, A, nodes, root, m, c, p, old(proxyMap), proxyMap, parents);
        todo := todo - {m};
      }
      GraftEnd(S, F, nodes);
      SamePlaced(S, F, nodes, nodes);
    }

    /** The source is about to remove the rows; it still has them while this runs. */
    method OnRowsRemoved(sourceParent: Option<Id>, start: nat, end: nat)
      requires Mirrors(source, Now()) && CacheFits(source, groupCache)
      requires sourceParent == None ==> start <= end < |source.rows|
      requires sourceParent.Some? ==>
        sourceParent.value in source.kids && start <= end < |source.kids[sourceParent.value]|
      modifies `nodes, `rows, `proxyMap, `groupMap, `groupCache
      ensures
        var after := if sourceParent == None then WithoutRows(source, start, end)
                     else WithoutChildren(source, sourceParent.value, start, end);
        Mirrors(after, Now()) && CacheFits(after, groupCache)
      ensures sourceParent == None ==>
        && (forall r :: r in source.rows[start..end + 1] ==> Find(proxyMap, r) == {})
        && (forall r :: r in source.rows[..start] + source.rows[end + 1..] ==>
              r in source.groups && Names(nodes, Find(proxyMap, r)) == source.groups[r])
      ensures sourceParent.Some? ==>
        var p := sourceParent.value;
        && (forall c :: c in source.kids[p][start..end + 1] ==> Find(proxyMap, c) == {})
        && (forall n :: n in Find(proxyMap, p) ==>
              n in nodes && SameKids(nodes, nodes[n].kids, source.kids[p][..start] + source.kids[p][end + 1..]))
      ensures Forced(nodes) == Forced(old(nodes))
    {
      hide Mirrors, CacheFits, Names, Find, SameKids, Forced;
      match sourceParent
      case None => TopRowsRemoved(start, end);
      case Some(p) => ChildRowsRemoved(p, start, end);
    }

    /** One round for top-level rows: the row leaves all its groups and is forgotten. */
    method RemoveTopRow(index: Id, ghost S: Source)
      requires Mirrors(S, Now()) && CacheFits(S, groupCache)
      requires WellFormed(source) && SameItems(S, source) && index in S.rows && index in S.groups
      modifies `nodes, `rows, `proxyMap, `groupMap, `groupCache
      ensures Mirrors(SetGroups(S, index, {}), Now())
      ensures CacheFits(S, groupCache) && index !in groupCache
      ensures Forced(nodes) == Forced(old(nodes))
    {
      hide Mirrors, WellFormed, Forced, Names, Find, CacheFits;
      CacheForgets(S, groupCache, index);
      groupCache := groupCache - {index};
      var itemsToRemove := Find(proxyMap, index);
      RowItems(S, Now(), index);
      LeaveGroups(index, itemsToRemove, S);
      assert S.groups[index] - S.groups[index] == {};
    }

    method TopRowsRemoved(start: nat, end: nat)
      requires Mirrors(source, Now()) && CacheFits(source, groupCache)
      requires start <= end < |source.rows|
      modifies `nodes, `rows, `proxyMap, `groupMap, `groupCache
      ensures Mirrors(WithoutRows(source, start, end), Now())
      ensures CacheFits(WithoutRows(source, start, end), groupCache)
      ensures forall r :: r in source.rows[start..end + 1] ==> Find(proxyMap, r) == {}
      ensures forall r :: r in source.rows[..start] + source.rows[end + 1..] ==>
        r in source.groups && Names(nodes, Find(proxyMap, r)) == source.groups[r]
      ensures Forced(nodes) == Forced(old(nodes))
    {
      assert WellFormed(source);
      hide Mirrors, WellFormed, Forced, CacheFits, RemovedUpTo, WithoutRows;
      RemovedFacts(source, start, end, start);
      ghost var S, forced := source, Forced(nodes);
      var i := start;
      while i <= end
        invariant start <= i <= end + 1 && S == RemovedUpTo(source, start, i)
        invariant Mirrors(S, Now()) && CacheFits(S, groupCache) && Forced(nodes) == forced
      {
        var index := source.rows[i];
        RemovedFacts(source, start, end, i);
        RemoveTopRow(index, S);
        RemoveRound(source, Now(), start, i);
        CacheAfterRemoval(source, start, i, groupCache);
        i := i + 1;
        S := RemovedUpTo(source, start, i);
      }
      RemovedFacts(source, start, end, i);
      AfterTopRemoval(source, Now(), start, end);
    }

    method ChildRowsRemoved(p: Id, start: nat, end: nat)
      requires Mirrors(source, Now()) && CacheFits(source, groupCache)
      requires p in source.kids && start <= end < |source.kids[p]|
      modifies `nodes, `rows, `proxyMap, `groupMap, `groupCache
      ensures Mirrors(WithoutChildren(source, p, start, end), Now())
      ensures CacheFits(WithoutChildren(source, p, start, end), groupCache)
      ensures forall c :: c in source.kids[p][start..end + 1] ==> Find(proxyMap, c) == {}
      ensures forall n :: n in Find(proxyMap, p) ==>
        n in nodes && SameKids(nodes, nodes[n].kids, source.kids[p][..start] + source.kids[p][end + 1..])
      ensures Forced(nodes) == Forced(old(nodes))
    {
      hide WellFormed, Linked, Indexed, GroupsIndexed, AllCopied, Placed, NoneEmpty, Forced, Find, Gone, Cut,
           CopiedBelow;
      ghost var items := source.kids[p];
      assert items[..start] + items[start..] == items;
      assert source.kids[p := items] == source.kids;
      var i := start;
      while i <= end
        invariant start <= i <= end + 1
        invariant Mirrors(WithKids(source, p, items[..start] + items[i..]), Now())
        invariant CacheFits(source, groupCache)
        invariant Forced(nodes) == Forced(old(nodes))
      {
        var index := source.kids[p][i];
        var itemsToRemove := Find(proxyMap, index);
        groupCache := groupCache - {index};
        ShedRound(source, Now(), p, start, i, itemsToRemove);
        KidKnown(source, p, i);
        RemoveProxyNodes(index, itemsToRemove);
        i := i + 1;
      }
      AfterChildRemoval(source, Now(), p, start, end);
    }

    /** The groups of a top-level row may have changed. */
    method RegroupRow(index: Id, ghost S: Source)
      requires Mirrors(S, Now()) && CacheFits(S, groupCache)
      requires WellFormed(source) && SameItems(S, source) && index in S.rows
      requires index in source.groups && source.groups[index] != {}
      modifies `nodes, `next, `rows, `proxyMap, `groupMap, `groupCache
      ensures Mirrors(SetGroups(S, index, source.groups[index]), Now())
      ensures CacheFits(SetGroups(S, index, source.groups[index]), groupCache)
      ensures index in groupCache && groupCache[index] == source.groups[index]
      ensures Forced(nodes) == Forced(old(nodes))
    {
      MirrorsWellFormed(S, Now());
      hide Mirrors, WellFormed, Forced, CacheFits, SetGroups, SameItems;
      var itemGroups := source.groups[index];
      CacheRegroups(S, groupCache, index, itemGroups);
      var changed := NoteGroups(index, itemGroups);
      if changed {
        MoveProxies(index, itemGroups, S);
      } else {
        SetGroupsSame(S, index);
      }
    }

    /** Whether the cached groups are others; a row that is not cached yet counts as having none. */
    method NoteGroups(index: Id, itemGroups: set<string>) returns (changed: bool)
      requires itemGroups != {}
      modifies `groupCache
      ensures groupCache == old(groupCache)[index := itemGroups]
      ensures changed <==> index !in old(groupCache) || old(groupCache)[index] != itemGroups
    {
      if index !in groupCache {
        groupCache := groupCache[index := {}];
      }
      changed := groupCache[index] != itemGroups;
      if changed {
        groupCache := groupCache[index := itemGroups];
      }
    }

    /** The proxies of a row leave the groups that it is no longer in, and new ones join the others. */
    method MoveProxies(index: Id, itemGroups: set<string>, ghost S: Source)
      requires Mirrors(S, Now()) && WellFormed(source) && SameItems(S, source)
      requires index in S.rows && index in S.groups
      modifies `nodes, `next, `rows, `proxyMap, `groupMap
      ensures Mirrors(SetGroups(S, index, itemGroups), Now())
      ensures Forced(nodes) == Forced(old(nodes))
    {
      hide Mirrors, WellFormed, Forced, Names, Sorted, Find;
      ghost var N, forced := nodes, Forced(nodes);
      var removedItems, newGroups := SortProxies(index, itemGroups, S);
      RegroupSets(S, N, index, itemGroups, Find(proxyMap, index), removedItems, newGroups);
      ghost var W := SetGroups(S, index, S.groups[index] - Names(N, removedItems));
      LeaveGroups(index, removedItems, S);
      assert SameItems(W, source) && Forced(nodes) == forced;
      JoinGroups(index, newGroups, W);
    }

    /** The loop over the existing proxies of a row: which must go, and which groups are new. */
    method SortProxies(index: Id, groups: set<string>, ghost S: Source)
      returns (removedItems: set<Node>, itemGroups: set<string>)
      requires Mirrors(S, Now()) && index in S.rows
      ensures Sorted(nodes, groups, Find(proxyMap, index), removedItems, itemGroups)
      ensures forall n :: n in removedItems ==> n in nodes && nodes[n].ProxyItem? && nodes[n].src == index
      ensures Names(nodes, Find(proxyMap, index)) == S.groups[index]
    {
      hide Linked, GroupsIndexed, AllCopied, Placed, NoneEmpty, Names, Sorted;
      AllNames(S, nodes, next, index, Find(proxyMap, index));
      var all := Find(proxyMap, index);
      var todo := all;
      removedItems, itemGroups := {}, groups;
      ghost var seen: set<Node> := {};
      SortNothing(nodes, groups);
      while todo != {}
        invariant seen !! todo && seen + todo == all
        invariant Sorted(nodes, groups, seen, removedItems, itemGroups) && removedItems <= seen
        decreases |todo|
      {
        var it :| it in todo;
        SortProxy(S, nodes, next, index, groups, seen, removedItems, itemGroups, it);
        var group := nodes[nodes[it].parent].group;
        if group in itemGroups {
          itemGroups := itemGroups - {group};
        } else {
          removedItems := removedItems + {it};
        }
        seen := seen + {it};
        todo := todo - {it};
      }
      assert seen == all;
    }

    /** Only a top-level row can change its groups.  The redraw signals for the proxies of the changed
        rows are not part of the state. */
    method OnDataChanged(sourceParent: Option<Id>, first: nat, last: nat, ghost before: Source)
      requires Mirrors(before, Now()) && CacheFits(before, groupCache)
      requires sourceParent == None ==> Regroups(before, source, first, last)
      requires sourceParent.Some? ==> before == source
      modifies `nodes, `next, `rows, `proxyMap, `groupMap, `groupCache
      ensures Mirrors(source, Now()) && CacheFits(source, groupCache)
      ensures forall r :: r in source.rows ==>
        r in source.groups && Names(nodes, Find(proxyMap, r)) == source.groups[r]
      ensures Forced(nodes) == Forced(old(nodes))
    {
      hide Mirrors, Forced, CacheFits, RegroupedUpTo, Names, Find;
      if sourceParent == None {
        ghost var shown := before;
        RegroupStart(before, source, first, last);
        var i := first;
        while i <= last && i < |source.rows|
          invariant first <= i
          invariant i <= last + 1 || i == first
          invariant RegroupedUpTo(before, source, shown, first, i)
          invariant Mirrors(shown, Now()) && CacheFits(shown, groupCache)
          invariant Forced(nodes) == Forced(old(nodes))
        {
          var index := source.rows[i];
          RegroupReady(before, source, shown, first, last, i);
          RegroupRow(index, shown);
          shown := SetGroups(shown, index, source.groups[index]);
          i := i + 1;
        }
        RegroupEnd(before, source, shown, Now(), groupCache, first, last, i);
      }
      AllRowItems(source, Now());
    }

    /** A load or a reset fills an empty tree from the rows that are there. */
    method Fill()
      requires WellFormed(source) && Grouped(source)
      requires Mirrors(Empty, Now())
      modifies `nodes, `next, `rows, `proxyMap, `groupMap
      ensures Mirrors(source, Now())
      ensures Forced(nodes) == Forced(old(nodes))
    {
      hide Sound, AllCopied, Placed, NoneEmpty, Forced;
      if |source.rows| > 0 {
        assert source.rows[..0] + source.rows[|source.rows| - 1 + 1..] == Empty.rows;
        OnRowsInserted(None, 0, |source.rows| - 1, Empty);
      } else {
        EmptyRows(source, Now());
      }
    }

    // ---- events: the source changes and the slot connected to the signal runs ------------------

    /** The timer started by the constructor fires: the source is `T` by now. */
    method Load(T: Source)
      requires Valid() && !loaded && WellFormed(T) && Grouped(T)
      modifies this
      ensures Valid() && loaded && source == T
      ensures Forced(nodes) == Forced(old(nodes))
    {
      hide Mirrors, Forced, WellFormed, Grouped;
      source := T;
      loaded := true;
      EmptyCache(groupCache);
      Fill();
    }

    /** Whatever state the tree was in, a reset puts it right. */
    method SourceReset(T: Source)
      requires loaded && WellFormed(T) && Grouped(T)
      modifies this
      ensures Valid() && loaded && source == T
      ensures Forced(nodes) == {}
    {
      hide Mirrors, WellFormed, Grouped;
      source := T;
      nodes, rows := map[], [];
      groupCache := map[];
      proxyMap := map[];
      groupMap := map[];
      EmptyState(Now());
      Fill();
    }

    method SourceInsertsRows(T: Source, start: nat, end: nat)
      requires Valid() && loaded && InsertsRows(source, T, start, end)
      modifies this
      ensures Valid() && loaded && source == T
      ensures Forced(nodes) == Forced(old(nodes))
    {
      hide Mirrors, Forced, NoDup;
      ghost var before := source;
      source := T;
      OnRowsInserted(None, start, end, before);
    }

    method SourceInsertsChildren(T: Source, p: Id, start: nat, end: nat)
      requires Valid() && loaded && Grouped(T) && InsertsChildren(source, T, p, start, end)
      modifies this
      ensures source == T && loaded
      ensures Forced(nodes) == Forced(old(nodes))
      ensures Valid() <==> Find(old(proxyMap), p) == {} || start == |old(source).kids[p]|
    {
      hide Mirrors, Forced, NoDup;
      ghost var before := source;
      source := T;
      OnRowsInserted(Some(p), start, end, before);
    }

    method SourceRemovesRows(start: nat, end: nat)
      requires Valid() && loaded && start <= end < |source.rows|
      modifies this
      ensures Valid() && loaded && source == WithoutRows(old(source), start, end)
      ensures Forced(nodes) == Forced(old(nodes))
    {
      hide Mirrors, Forced, NoDup;
      OnRowsRemoved(None, start, end);
      source := WithoutRows(source, start, end);
      MirrorsWellFormed(source, Now());
    }

    method SourceRemovesChildren(p: Id, start: nat, end: nat)
      requires Valid() && loaded && p in source.kids && start <= end < |source.kids[p]|
      modifies this
      ensures Valid() && loaded && source == WithoutChildren(old(source), p, start, end)
      ensures Forced(nodes) == Forced(old(nodes))
    {
      hide Mirrors, Forced, NoDup;
      OnRowsRemoved(Some(p), start, end);
      source := WithoutChildren(source, p, start, end);
      MirrorsWellFormed(source, Now());
    }

    method SourceChangesData(T: Source, first: nat, last: nat)
      requires Valid() && loaded && Regroups(source, T, first, last)
      modifies this
      ensures Valid() && loaded && source == T
      ensures Forced(nodes) == Forced(old(nodes))
    {
      hide Mirrors, Forced, NoDup;
      ghost var before := source;
      source := T;
      OnDataChanged(None, first, last, before);
    }
  }
}
