/** Several processes with a presence model each, kept together by broadcasts that reach every one of
    them, the sender included, in one order. */
module PresenceReplication {
  import opened Presence
  import opened PresenceList
  import opened PresenceModel

  /** `bus` holds all broadcasts ever sent; model `m` has received the first `seen[m]` of them. */
  datatype System = System(lists: seq<seq<Presence>>, bus: seq<Change>, seen: seq<nat>)

  datatype Step = Add(model: nat, presence: Presence) | Remove(model: nat, presence: Presence) | Deliver(model: nat)

  /** A local change: the list changes at once, and if it did the change is broadcast. */
  function Changed(collate: Collation, s: System, m: nat, change: Change): System
    requires m < |s.lists|
  {
    s.(lists := s.lists[m := Applied(collate, s.lists[m], change)],
       bus := s.bus + if change.added == Contains(s.lists[m], change.presence) then [] else [change])
  }

  function Next(collate: Collation, s: System, step: Step): System {
    if step.model >= |s.lists| || step.model >= |s.seen| then s
    else match step
    case Add(m, p) => Changed(collate, s, m, Change(p, true))
    case Remove(m, p) => Changed(collate, s, m, Change(p, false))
    case Deliver(m) =>
      if s.seen[m] >= |s.bus| then s
      else s.(lists := s.lists[m := Applied(collate, s.lists[m], s.bus[s.seen[m]])], seen := s.seen[m := s.seen[m] + 1])
  }

  function Run(collate: Collation, s: System, steps: seq<Step>): System
    decreases |steps|
  {
    if steps == [] then s else Run(collate, Next(collate, s, steps[0]), steps[1..])
  }

  /** `count` models that start with the same list and nothing in flight. */
  function Start(list: seq<Presence>, count: nat): System {
    System(seq(count, m => list), [], seq(count, m => 0))
  }

  ghost predicate Quiet(s: System) {
    forall m :: 0 <= m < |s.seen| ==> s.seen[m] == |s.bus|
  }

  // ---- what is still to be applied -------------------------------------------------------------

  function Effect(keys: set<Key>, change: Change): set<Key> {
    if change.added then keys + {KeyOf(change.presence)} else keys - {KeyOf(change.presence)}
  }

  /** The set of presences after some more broadcasts. */
  function KeysAfter(keys: set<Key>, changes: seq<Change>): set<Key>
    decreases |changes|
  {
    if changes == [] then keys else KeysAfter(Effect(keys, changes[0]), changes[1..])
  }

  lemma AppliedKeys(collate: Collation, list: seq<Presence>, change: Change)
    requires Ordered(collate, list)
    ensures Ordered(collate, Applied(collate, list, change))
    ensures Keys(Applied(collate, list, change)) == Effect(Keys(list), change)
  {
    hide Toggled, Ordered;
    ToggleKeepsOrder(collate, list, change.presence);
    ToggleKeys(collate, list, change.presence);
    assert KeyOf(change.presence) in Keys(list) <==> Contains(list, change.presence);
  }

  lemma {:induction false} KeysAfterAppend(keys: set<Key>, changes: seq<Change>, change: Change)
    ensures KeysAfter(keys, changes + [change]) == Effect(KeysAfter(keys, changes), change)
    decreases |changes|
  {
    var all := changes + [change];
    if changes == [] {
      assert all[0] == change && all[1..] == [];
    } else {
      assert all[0] == changes[0] && all[1..] == changes[1..] + [change];
      KeysAfterAppend(Effect(keys, changes[0]), changes[1..], change);
    }
  }

  lemma {:induction false} AgreeExcept(a: set<Key>, b: set<Key>, changes: seq<Change>, key: Key)
    requires a - {key} == b - {key}
    ensures KeysAfter(a, changes) - {key} == KeysAfter(b, changes) - {key}
    decreases |changes|
  {
    if changes != [] {
      var x := {KeyOf(changes[0].presence)};
      assert (a + x) - {key} == (a - {key}) + (x - {key}) == (b + x) - {key};
      assert (a - x) - {key} == (a - {key}) - x == (b - x) - {key};
      AgreeExcept(Effect(a, changes[0]), Effect(b, changes[0]), changes[1..], key);
    }
  }

  /** Having made a change early makes no difference once its own broadcast comes at the end. */
  lemma OwnBroadcast(keys: set<Key>, changes: seq<Change>, change: Change)
    ensures KeysAfter(Effect(keys, change), changes + [change]) == KeysAfter(keys, changes + [change])
  {
    KeysAfterAppend(Effect(keys, change), changes, change);
    KeysAfterAppend(keys, changes, change);
    var key := KeyOf(change.presence);
    AgreeExcept(Effect(keys, change), keys, changes, key);
    var a, b := KeysAfter(Effect(keys, change), changes), KeysAfter(keys, changes);
    assert a + {key} == (a - {key}) + {key} && b + {key} == (b - {key}) + {key};
  }

  /** What model `m` will have once everything in flight has reached it. */
  ghost function Eventually(s: System, m: nat): set<Key>
    requires m < |s.lists| && m < |s.seen| && s.seen[m] <= |s.bus|
  {
    KeysAfter(Keys(s.lists[m]), s.bus[s.seen[m]..])
  }

  /** All models are heading for the same set. */
  ghost predicate Converging(collate: Collation, s: System, goal: set<Key>) {
    && |s.lists| == |s.seen|
    && forall m :: 0 <= m < |s.lists| ==> OnCourse(collate, s, m, goal)
  }

  ghost predicate OnCourse(collate: Collation, s: System, m: nat, goal: set<Key>) {
    && m < |s.lists| && m < |s.seen| && s.seen[m] <= |s.bus|
    && Ordered(collate, s.lists[m]) && Eventually(s, m) == goal
  }

  lemma ChangeKeepsCourse(collate: Collation, s: System, m: nat, change: Change, goal: set<Key>)
    requires Converging(collate, s, goal) && m < |s.lists|
    ensures
      var t := Changed(collate, s, m, change);
      Converging(collate, t, if change.added == Contains(s.lists[m], change.presence) then goal
        else Effect(goal, change))
  {
    hide Ordered, Keys, Effect, KeysAfter;
    var t := Changed(collate, s, m, change);
    if change.added == Contains(s.lists[m], change.presence) {
      assert t.lists == s.lists && t.bus == s.bus;
      assert forall k :: 0 <= k < |t.lists| ==> OnCourse(collate, s, k, goal);
    } else {
      forall k | 0 <= k < |t.lists| ensures OnCourse(collate, t, k, Effect(goal, change)) {
        assert OnCourse(collate, s, k, goal);
        var ahead := s.bus[s.seen[k]..];
        assert t.bus[t.seen[k]..] == ahead + [change];
        KeysAfterAppend(Keys(s.lists[k]), ahead, change);
        if k == m {
          AppliedKeys(collate, s.lists[m], change);
          OwnBroadcast(Keys(s.lists[m]), ahead, change);
        }
      }
    }
  }

  lemma DeliveryKeepsCourse(collate: Collation, s: System, m: nat, goal: set<Key>)
    requires Converging(collate, s, goal)
    ensures Converging(collate, Next(collate, s, Deliver(m)), goal)
  {
    hide Ordered, Keys, Effect, Applied;
    var t := Next(collate, s, Deliver(m));
    if m < |s.lists| && s.seen[m] < |s.bus| {
      forall k | 0 <= k < |t.lists| ensures OnCourse(collate, t, k, goal) {
        assert OnCourse(collate, s, k, goal);
        if k == m {
          var ahead := s.bus[s.seen[m]..];
          assert ahead[0] == s.bus[s.seen[m]] && ahead[1..] == t.bus[t.seen[m]..];
          AppliedKeys(collate, s.lists[m], ahead[0]);
        }
      }
    }
  }

  /** At every point of every run, all models are heading for the same set. */
  lemma {:induction false} RunConverges(collate: Collation, s: System, steps: seq<Step>, goal: set<Key>)
    returns (end: set<Key>)
    requires Converging(collate, s, goal)
    ensures Converging(collate, Run(collate, s, steps), end)
    decreases |steps|
  {
    hide Converging;
    if steps == [] {
      end := goal;
    } else {
      var after := StepConverges(collate, s, steps[0], goal);
      end := RunConverges(collate, Next(collate, s, steps[0]), steps[1..], after);
    }
  }

  lemma StepConverges(collate: Collation, s: System, step: Step, goal: set<Key>) returns (after: set<Key>)
    requires Converging(collate, s, goal)
    ensures Converging(collate, Next(collate, s, step), after)
  {
    hide OnCourse;
    after := goal;
    if step.model < |s.lists| {
      match step
      case Add(m, p) =>
        ChangeKeepsCourse(collate, s, m, Change(p, true), goal);
        after := if Contains(s.lists[m], p) then goal else Effect(goal, Change(p, true));
      case Remove(m, p) =>
        ChangeKeepsCourse(collate, s, m, Change(p, false), goal);
        after := if Contains(s.lists[m], p) then Effect(goal, Change(p, false)) else goal;
      case Deliver(m) =>
        DeliveryKeepsCourse(collate, s, m, goal);
    }
  }

  lemma StartConverging(collate: Collation, list: seq<Presence>, count: nat)
    requires Ordered(collate, list)
    ensures Converging(collate, Start(list, count), Keys(list))
  {
    hide Ordered, Keys;
    var s := Start(list, count);
    forall m | 0 <= m < count ensures OnCourse(collate, s, m, Keys(list)) {
      assert s.bus[s.seen[m]..] == [];
    }
  }

  /** Models that start equal have the same presences whenever nothing is in flight. */
  lemma QuietModelsAgree(collate: Collation, list: seq<Presence>, count: nat, steps: seq<Step>)
    requires Ordered(collate, list)
    ensures
      var s := Run(collate, Start(list, count), steps);
      && |s.lists| == |s.seen|
      && (forall m :: 0 <= m < |s.lists| ==> Ordered(collate, s.lists[m]))
      && (Quiet(s) ==> forall m, k :: 0 <= m < |s.lists| && 0 <= k < |s.lists| ==> Keys(s.lists[m]) == Keys(s.lists[k]))
  {
    hide Ordered, Keys, Run, Start;
    StartConverging(collate, list, count);
    var goal := RunConverges(collate, Start(list, count), steps, Keys(list));
    var s := Run(collate, Start(list, count), steps);
    forall m | 0 <= m < |s.lists| ensures Ordered(collate, s.lists[m]) && (Quiet(s) ==> Keys(s.lists[m]) == goal) {
      assert OnCourse(collate, s, m, goal);
      assert s.bus[|s.bus|..] == [];
    }
  }

  // ---- the order of the lists --------------------------------------------------------------------

  /** The language tells all messages apart. */
  ghost predicate NoTies(collate: Collation) {
    forall a, b :: collate(a, b) == 0 ==> a == b
  }

  /** Two lists show the same presences in the same order. */
  ghost predicate Alike(a: seq<Presence>, b: seq<Presence>) {
    |a| == |b| && forall i :: 0 <= i < |a| ==> Same(a[i], b[i])
  }

  lemma FirstAgrees(collate: Collation, a: seq<Presence>, b: seq<Presence>)
    requires NoTies(collate) && Ordered(collate, a) && Ordered(collate, b) && Keys(a) == Keys(b) && a != []
    ensures b != [] && Same(a[0], b[0])
  {
    hide Keys;
    assert KeyOf(a[0]) in Keys(b) by { assert Same(a[0], a[0]); assert Contains(a, a[0]); }
    var j :| 0 <= j < |b| && Same(b[j], a[0]);
    assert KeyOf(b[0]) in Keys(a) by { assert Same(b[0], b[0]); assert Contains(b, b[0]); }
    var i :| 0 <= i < |a| && Same(a[i], b[0]);
    if i > 0 && j > 0 {
      PrecedesOrder(collate, a[i], b[0], a[0]);
      PrecedesOrder(collate, b[j], a[0], b[0]);
      assert !Precedes(collate, a[i], a[0]) && !Precedes(collate, b[j], b[0]);
      NeitherPrecedes(collate, a[0], b[0]);
    }
  }

  lemma NeitherPrecedes(collate: Collation, a: Presence, b: Presence)
    requires NoTies(collate) && !Precedes(collate, a, b) && !Precedes(collate, b, a)
    ensures Same(a, b)
  {
    var x, y := a.message, b.message;
    assert collate(x, y) < 0 <==> collate(y, x) > 0;
    assert collate(y, x) < 0 <==> collate(x, y) > 0;
  }

  lemma Tail(collate: Collation, a: seq<Presence>)
    requires a != [] && Ordered(collate, a)
    ensures Ordered(collate, a[1..]) && Keys(a[1..]) == Keys(a) - {KeyOf(a[0])}
  {
    assert NoneAlike(a);
    hide Keys, Ordered, NoneAlike;
    RemovalOrder(collate, a, 0);
    TailKeys(a);
    assert a[..0] + a[1..] == a[1..];
  }

  ghost predicate NoneAlike(a: seq<Presence>) {
    forall i, j :: 0 <= i < j < |a| ==> !Same(a[i], a[j])
  }

  lemma TailKeys(a: seq<Presence>)
    requires a != [] && NoneAlike(a)
    ensures Keys(a[1..]) == Keys(a) - {KeyOf(a[0])}
  {
    hide Keys, Same;
    RemovalKeys(a, 0);
    assert a[..0] + a[1..] == a[1..];
  }

  lemma SameKey(a: Presence, b: Presence)
    requires Same(a, b)
    ensures KeyOf(a) == KeyOf(b)
  {
  }

  lemma {:induction false} OrderDetermined(collate: Collation, a: seq<Presence>, b: seq<Presence>)
    requires NoTies(collate) && Ordered(collate, a) && Ordered(collate, b) && Keys(a) == Keys(b)
    ensures Alike(a, b)
    decreases |a|
  {
    hide Keys, Ordered, NoTies, Same;
    if a == [] {
      if b != [] { FirstAgrees(collate, b, a); }
    } else {
      FirstAgrees(collate, a, b);
      Tail(collate, a);
      Tail(collate, b);
      assert KeyOf(a[0]) == KeyOf(b[0]) by { SameKey(a[0], b[0]); }
      OrderDetermined(collate, a[1..], b[1..]);
      forall i | 0 <= i < |a| ensures Same(a[i], b[i]) {
        if i > 0 { assert Same(a[1..][i - 1], b[1..][i - 1]); }
      }
    }
  }

  /** Two models with the same list and nothing in flight. */
  function Level(list: seq<Presence>, bus: seq<Change>): System {
    System([list, list], bus, [|bus|, |bus|])
  }

  ghost predicate Tied(collate: Collation, p: Presence, q: Presence) {
    p.kind == q.kind && p.message != q.message && collate(p.message, q.message) == 0
  }

  lemma TiedFacts(collate: Collation, p: Presence, q: Presence, other: Presence)
    requires Tied(collate, p, q)
    ensures Tied(collate, q, p) && !Same(p, q) && !Same(q, p)
    ensures !Precedes(collate, p, q) && !Precedes(collate, q, p)
    ensures Precedes(collate, other, p) <==> Precedes(collate, other, q)
  {
    var x, y := p.message, q.message;
    assert collate(x, y) < 0 <==> collate(y, x) > 0;
    assert collate(y, x) < 0 <==> collate(x, y) > 0;
    PrecedesOrder(collate, other, p, q);
    PrecedesOrder(collate, other, q, p);
  }

  /** Tied presences have one place in a list. */
  lemma {:induction false} TiedPlace(collate: Collation, list: seq<Presence>, p: Presence, q: Presence)
    requires Tied(collate, p, q)
    ensures LowerBound(collate, list, p) == LowerBound(collate, list, q)
  {
    hide Precedes, Tied;
    if list != [] {
      TiedFacts(collate, p, q, list[0]);
      TiedPlace(collate, list[1..], p, q);
    }
  }

  /** The one that comes later goes in front. */
  lemma TiedAdded(collate: Collation, list: seq<Presence>, p: Presence, q: Presence)
    requires Tied(collate, p, q) && !Contains(list, p) && !Contains(list, q)
    ensures
      var r := LowerBound(collate, list, p);
      var one, both := list[..r] + [p] + list[r..], list[..r] + [q, p] + list[r..];
      && Applied(collate, list, Change(p, true)) == one && Contains(one, p)
      && Applied(collate, one, Change(q, true)) == both && !Contains(one, q) && Contains(both, p) && Contains(both, q)
  {
    hide Precedes, Tied, Contains, Same, LowerBound;
    TiedPlace(collate, list, p, q);
    var r := LowerBound(collate, list, p);
    var one, both := list[..r] + [p] + list[r..], list[..r] + [q, p] + list[r..];
    TiedFacts(collate, p, q, p);
    NotThere(list, r, p, q);
    OneThere(list, r, p);
    OneThere(one, r, q);
    assert one[..r] + [q] + one[r..] == both;
    assert list[..r] + [q] + ([p] + list[r..]) == both;
    StillThere(one, r, q, p);
    PlaceInFront(collate, list, p, q);
  }

  lemma PlaceInFront(collate: Collation, list: seq<Presence>, p: Presence, q: Presence)
    requires Tied(collate, p, q)
    ensures
      var r := LowerBound(collate, list, p);
      LowerBound(collate, list[..r] + [p] + list[r..], q) == r
  {
    hide Precedes, Tied;
    TiedPlace(collate, list, p, q);
    TiedFacts(collate, p, q, p);
    var r := LowerBound(collate, list, p);
    PlaceBefore(collate, list[..r] + [p] + list[r..], q, r);
  }

  lemma OneThere(list: seq<Presence>, r: nat, p: Presence)
    requires r <= |list|
    ensures Contains(list[..r] + [p] + list[r..], p)
  {
    assert (list[..r] + [p] + list[r..])[r] == p && Same(p, p);
  }

  lemma StillThere(list: seq<Presence>, r: nat, p: Presence, other: Presence)
    requires r <= |list|
    ensures Contains(list, other) ==> Contains(list[..r] + [p] + list[r..], other)
  {
    var more := list[..r] + [p] + list[r..];
    if k :| 0 <= k < |list| && Same(list[k], other) {
      assert more[if k < r then k else k + 1] == list[k];
    }
  }

  lemma NotThere(list: seq<Presence>, r: nat, p: Presence, other: Presence)
    requires r <= |list| && !Same(p, other) && !Contains(list, other)
    ensures !Contains(list[..r] + [p] + list[r..], other)
  {
    hide Same;
    var more := list[..r] + [p] + list[r..];
    forall k | 0 <= k < |more| ensures !Same(more[k], other) {
      if k != r { assert more[k] == list[if k < r then k else k - 1]; }
    }
  }

  lemma PlaceBefore(collate: Collation, list: seq<Presence>, p: Presence, r: nat)
    requires r < |list| && !Precedes(collate, list[r], p)
    requires forall k :: 0 <= k < r ==> Precedes(collate, list[k], p)
    ensures LowerBound(collate, list, p) == r
  {
    hide Precedes;
    var found := LowerBound(collate, list, p);
    assert found <= |list|;
  }

  function Crossing(p: Presence, q: Presence): seq<Step> {
    [Add(0, p), Add(1, q), Deliver(0), Deliver(0), Deliver(1), Deliver(1)]
  }

  /** From any list without them: two models add presences that the language does not tell apart, each
      its own, and then hear of each other's.  Their lists stay different. */
  lemma TieDiverges(collate: Collation, list: seq<Presence>, bus: seq<Change>, p: Presence, q: Presence)
    requires Tied(collate, p, q) && !Contains(list, p) && !Contains(list, q)
    ensures
      var s := Run(collate, Level(list, bus), Crossing(p, q));
      var r := LowerBound(collate, list, p);
      && Quiet(s) && |s.lists| == 2
      && s.lists[0] == list[..r] + [q, p] + list[r..] && s.lists[1] == list[..r] + [p, q] + list[r..]
      && !Alike(s.lists[0], s.lists[1])
  {
    hide Tied, Applied, Contains, LowerBound, Run, Same;
    TiedFacts(collate, p, q, p);
    TiedAdded(collate, list, p, q);
    TiedAdded(collate, list, q, p);
    TiedPlace(collate, list, p, q);
    var r := LowerBound(collate, list, p);
    var lp, lq := list[..r] + [p] + list[r..], list[..r] + [q] + list[r..];
    var lqp, lpq := list[..r] + [q, p] + list[r..], list[..r] + [p, q] + list[r..];
    var cp, cq, n := Change(p, true), Change(q, true), |bus|;
    AddedAlready(collate, lp, p);
    AddedAlready(collate, lpq, q);
    var s0, s1 := Level(list, bus), System([lp, list], bus + [cp], [n, n]);
    var s2 := System([lp, lq], bus + [cp, cq], [n, n]);
    assert Next(collate, s0, Add(0, p)) == s1;
    assert Next(collate, s1, Add(1, q)) == s2;
    var s4 := Next(collate, Next(collate, s2, Deliver(0)), Deliver(0));
    assert s4 == System([lqp, lq], bus + [cp, cq], [n + 2, n]);
    var s6 := Next(collate, Next(collate, s4, Deliver(1)), Deliver(1));
    assert s6 == System([lqp, lpq], bus + [cp, cq], [n + 2, n + 2]);
    RunSix(collate, s0, Add(0, p), Add(1, q), Deliver(0), Deliver(0), Deliver(1), Deliver(1));
    assert lqp[r] == q && lpq[r] == p;
  }

  lemma AddedAlready(collate: Collation, list: seq<Presence>, p: Presence)
    requires Contains(list, p)
    ensures Applied(collate, list, Change(p, true)) == list
  {
  }

  /** One model removes a presence, and both hear of it. */
  function Removing(p: Presence): seq<Step> {
    [Remove(0, p), Deliver(0), Deliver(1)]
  }

  lemma RemovedEverywhere(collate: Collation, list: seq<Presence>, bus: seq<Change>, p: Presence)
    requires Ordered(collate, list) && Contains(list, p)
    ensures
      var less := Toggled(collate, list, p);
      && Run(collate, Level(list, bus), Removing(p)) == Level(less, bus + [Change(p, false)])
      && Ordered(collate, less) && !Contains(less, p)
      && forall q :: Contains(less, q) ==> Contains(list, q)
  {
    hide Toggled, Contains, Run, Ordered, Keys;
    var less, c, n := Toggled(collate, list, p), Change(p, false), |bus|;
    ToggleKeepsOrder(collate, list, p);
    ToggleKeys(collate, list, p);
    assert KeyOf(p) !in Keys(less);
    forall q | Contains(less, q) ensures Contains(list, q) { assert KeyOf(q) in Keys(less); }
    var s0, s1 := Level(list, bus), System([less, list], bus + [c], [n, n]);
    assert Next(collate, s0, Remove(0, p)) == s1;
    var s2 := Next(collate, s1, Deliver(0));
    assert s2 == System([less, list], bus + [c], [n + 1, n]);
    assert Next(collate, s2, Deliver(1)) == Level(less, bus + [c]);
    RunFirst(collate, s0, Remove(0, p), [Deliver(0), Deliver(1)]);
    RunFirst(collate, s1, Deliver(0), [Deliver(1)]);
    RunFirst(collate, s2, Deliver(1), []);
    RunNothing(collate, Level(less, bus + [c]));
    assert [Remove(0, p)] + [Deliver(0), Deliver(1)] == Removing(p)
      && [Deliver(0)] + [Deliver(1)] == [Deliver(0), Deliver(1)];
    assert [Deliver(1)] + [] == [Deliver(1)];
  }

  lemma {:induction false} RunAppend(collate: Collation, s: System, first: seq<Step>, rest: seq<Step>)
    ensures Run(collate, s, first + rest) == Run(collate, Run(collate, s, first), rest)
    decreases |first|
  {
    hide Next;
    if first == [] {
      assert first + rest == rest;
    } else {
      assert first + rest == [first[0]] + (first[1..] + rest) && first == [first[0]] + first[1..];
      RunFirst(collate, s, first[0], first[1..] + rest);
      RunFirst(collate, s, first[0], first[1..]);
      RunAppend(collate, Next(collate, s, first[0]), first[1..], rest);
    }
  }

  /** So a presence can be taken out of both lists, whether it is in them or not. */
  lemma TakenOut(collate: Collation, list: seq<Presence>, bus: seq<Change>, p: Presence)
    returns (steps: seq<Step>, less: seq<Presence>, more: seq<Change>)
    requires Ordered(collate, list)
    ensures Run(collate, Level(list, bus), steps) == Level(less, more)
    ensures Ordered(collate, less) && !Contains(less, p) && forall q :: Contains(less, q) ==> Contains(list, q)
  {
    hide Ordered, Toggled, Contains, Run;
    if Contains(list, p) {
      RemovedEverywhere(collate, list, bus, p);
      steps, less, more := Removing(p), Toggled(collate, list, p), bus + [Change(p, false)];
    } else {
      RunNothing(collate, Level(list, bus));
      steps, less, more := [], list, bus;
    }
  }

  /** From whatever list two models start, a tie can bring them apart. */
  lemma AnyListDiverges(collate: Collation, list: seq<Presence>, p: Presence, q: Presence) returns (steps: seq<Step>)
    requires Ordered(collate, list) && Tied(collate, p, q)
    ensures
      var s := Run(collate, Start(list, 2), steps);
      Quiet(s) && |s.lists| == 2 && !Alike(s.lists[0], s.lists[1])
  {
    hide Ordered, Contains, Run, Tied, Alike, Quiet, LowerBound;
    assert Start(list, 2) == Level(list, []);
    var first, one, bus := TakenOut(collate, list, [], p);
    var second, two, more := TakenOut(collate, one, bus, q);
    TieDiverges(collate, two, more, p, q);
    RunAppend(collate, Level(list, []), first, second + Crossing(p, q));
    RunAppend(collate, Level(one, bus), second, Crossing(p, q));
    steps := first + (second + Crossing(p, q));
  }

  lemma RunSix(collate: Collation, s: System, a: Step, b: Step, c: Step, d: Step, e: Step, f: Step)
    ensures Run(collate, s, [a, b, c, d, e, f]) ==
      Next(collate, Next(collate, Next(collate, Next(collate, Next(collate, Next(collate, s, a), b), c), d), e), f)
  {
    hide Next, Run;
    RunFirst(collate, s, a, [b, c, d, e, f]);
    var s1 := Next(collate, s, a);
    RunFirst(collate, s1, b, [c, d, e, f]);
    var s2 := Next(collate, s1, b);
    RunFirst(collate, s2, c, [d, e, f]);
    var s3 := Next(collate, s2, c);
    RunFirst(collate, s3, d, [e, f]);
    var s4 := Next(collate, s3, d);
    RunFirst(collate, s4, e, [f]);
    var s5 := Next(collate, s4, e);
    RunFirst(collate, s5, f, []);
    assert [a] + [b, c, d, e, f] == [a, b, c, d, e, f];
    assert [b] + [c, d, e, f] == [b, c, d, e, f];
    assert [c] + [d, e, f] == [c, d, e, f];
    assert [d] + [e, f] == [d, e, f];
    assert [e] + [f] == [e, f];
    assert [f] + [] == [f];
    RunNothing(collate, Next(collate, s5, f));
  }

  lemma RunNothing(collate: Collation, s: System)
    ensures Run(collate, s, []) == s
  {
  }

  lemma RunFirst(collate: Collation, s: System, step: Step, rest: seq<Step>)
    ensures Run(collate, s, [step] + rest) == Run(collate, Next(collate, s, step), rest)
  {
    hide Next;
    assert ([step] + rest)[1..] == rest;
  }

  /** Whatever list they start with, be it the defaults, quiet models always show the same list exactly
      when the language tells all messages apart.  If the only tie is with the empty message, the run
      that brings them apart begins with one model removing a default. */
  lemma ListsAgreeIffNoTies(collate: Collation, list: seq<Presence>)
    requires Ordered(collate, list)
    ensures NoTies(collate) <==>
      forall count: nat, steps: seq<Step> :: QuietAlike(Run(collate, Start(list, count), steps))
  {
    hide Run, Start, Ordered, NoTies;
    if NoTies(collate) {
      forall count: nat, steps: seq<Step> ensures QuietAlike(Run(collate, Start(list, count), steps)) {
        QuietListsAlike(collate, list, count, steps);
      }
    } else {
      var x, y := SomeTie(collate);
      var p, q := Presence(Available, "available", x), Presence(Available, "available", y);
      var steps := AnyListDiverges(collate, list, p, q);
      assert !QuietAlike(Run(collate, Start(list, 2), steps));
    }
  }

  ghost predicate QuietAlike(s: System) {
    Quiet(s) ==> forall m, k :: 0 <= m < |s.lists| && 0 <= k < |s.lists| ==> Alike(s.lists[m], s.lists[k])
  }

  lemma SomeTie(collate: Collation) returns (x: string, y: string)
    requires !NoTies(collate)
    ensures collate(x, y) == 0 && x != y
  {
    x, y :| collate(x, y) == 0 && x != y;
  }

  lemma QuietListsAlike(collate: Collation, list: seq<Presence>, count: nat, steps: seq<Step>)
    requires NoTies(collate) && Ordered(collate, list)
    ensures QuietAlike(Run(collate, Start(list, count), steps))
  {
    hide Run, Start, Ordered, NoTies, Keys;
    QuietModelsAgree(collate, list, count, steps);
    var s := Run(collate, Start(list, count), steps);
    if Quiet(s) {
      forall m, k | 0 <= m < |s.lists| && 0 <= k < |s.lists| ensures Alike(s.lists[m], s.lists[k]) {
        OrderDetermined(collate, s.lists[m], s.lists[k]);
      }
    }
  }
}
