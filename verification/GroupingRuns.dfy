/** Whole runs of the grouping proxy, against a specification that has no tree: the source, whether it
    has been loaded, and the forced groups. */
module GroupingRuns {
  import opened SourceModel
  import opened GroupingInvariant
  import opened GroupingProxy
  import opened GroupingTheorems

  datatype View = View(source: Source, loaded: bool, forced: set<string>)

  datatype Event =
    | Loads(after: Source)
    | InsertsTopRows(after: Source, start: nat, end: nat)
    | InsertsKids(after: Source, parent: Id, start: nat, end: nat)
    | RemovesTopRows(start: nat, end: nat)
    | RemovesKids(parent: Id, start: nat, end: nat)
    | ChangesData(after: Source, start: nat, end: nat)
    | Resets(after: Source)
    | Forces(group: string)
    | Unforces(group: string)
    | Announces(group: string)

  ghost function ShownIn(v: View): Source {
    if v.loaded then v.source else Empty
  }

  /** Nested rows only come at the end of their parent, and only groups that are shown are unforced or
      announced. */
  ghost predicate Possible(v: View, e: Event)
    requires WellFormed(v.source)
  {
    match e
    case Loads(after) => !v.loaded && WellFormed(after) && Grouped(after)
    case InsertsTopRows(after, start, end) => v.loaded && InsertsRows(v.source, after, start, end)
    case InsertsKids(after, parent, start, end) =>
      && v.loaded && Grouped(after) && InsertsChildren(v.source, after, parent, start, end)
      && start == |v.source.kids[parent]|
    case RemovesTopRows(start, end) => v.loaded && start <= end < |v.source.rows|
    case RemovesKids(parent, start, end) =>
      v.loaded && parent in v.source.kids && start <= end < |v.source.kids[parent]|
    case ChangesData(after, start, end) => v.loaded && Regroups(v.source, after, start, end)
    case Resets(after) => v.loaded && WellFormed(after) && Grouped(after)
    case Forces(_) => true
    case Unforces(group) => group in v.forced || group in GroupsOf(ShownIn(v))
    case Announces(group) => group in v.forced || group in GroupsOf(ShownIn(v))
  }

  ghost function After(v: View, e: Event): View
    requires WellFormed(v.source) && Possible(v, e)
  {
    match e
    case Loads(after) => v.(source := after, loaded := true)
    case InsertsTopRows(after, _, _) => v.(source := after)
    case InsertsKids(after, _, _, _) => v.(source := after)
    case RemovesTopRows(start, end) => v.(source := WithoutRows(v.source, start, end))
    case RemovesKids(parent, start, end) => v.(source := WithoutChildren(v.source, parent, start, end))
    case ChangesData(after, _, _) => v.(source := after)
    case Resets(after) => v.(source := after, forced := {})
    case Forces(group) => v.(forced := v.forced + {group})
    case Unforces(group) => v.(forced := v.forced - {group})
    case Announces(_) => v
  }

  /** Removing rows keeps a source well formed. */
  lemma AfterWellFormed(v: View, e: Event)
    requires WellFormed(v.source) && Possible(v, e)
    ensures WellFormed(After(v, e).source)
  {
    match e
    case RemovesTopRows(start, end) =>
      var T := WithoutRows(v.source, start, end);
      forall r | r in T.rows ensures r in v.source.rows { }
    case RemovesKids(parent, start, end) =>
      var T := WithoutChildren(v.source, parent, start, end);
      hide IsChild;
      forall s, c | s in T.kids && c in T.kids[s] ensures IsChild(T, s, c) {
        assert c in v.source.kids[s];
        SameIsChild(v.source, T, s, c);
      }
    case _ =>
  }

  lemma SameIsChild(S: Source, T: Source, s: Id, c: Id)
    requires IsChild(S, s, c) && T.kids.Keys == S.kids.Keys && T.parent == S.parent
    ensures IsChild(T, s, c)
  {
  }

  ghost predicate PossibleRun(v: View, events: seq<Event>)
    requires WellFormed(v.source)
    decreases |events|
  {
    events == [] || (Possible(v, events[0])
      && (AfterWellFormed(v, events[0]); PossibleRun(After(v, events[0]), events[1..])))
  }

  ghost function AfterRun(v: View, events: seq<Event>): (r: View)
    requires WellFormed(v.source) && PossibleRun(v, events)
    ensures WellFormed(r.source)
    decreases |events|
  {
    if events == [] then v
    else
      AfterWellFormed(v, events[0]);
      AfterRun(After(v, events[0]), events[1..])
  }

  ghost function Seen(model: AbstractGroupingProxyModel): View reads model {
    View(model.source, model.loaded, Forced(model.nodes))
  }

  /** One event: the model follows the specification. */
  method Handle(model: AbstractGroupingProxyModel, ghost v: View, e: Event)
    requires model.Valid() && v == Seen(model) && Possible(v, e)
    modifies model
    ensures model.Valid() && Seen(model) == After(v, e)
  {
    KnownGroups(model);
    hide Mirrors, Forced, WellFormed, InsertsRows, InsertsChildren, Regroups, GroupsOf;
    match e {
      case Loads(after) => model.Load(after);
      case InsertsTopRows(after, start, end) => model.SourceInsertsRows(after, start, end);
      case InsertsKids(after, parent, start, end) => model.SourceInsertsChildren(after, parent, start, end);
      case RemovesTopRows(start, end) => model.SourceRemovesRows(start, end);
      case RemovesKids(parent, start, end) => model.SourceRemovesChildren(parent, start, end);
      case ChangesData(after, start, end) => model.SourceChangesData(after, start, end);
      case Resets(after) => model.SourceReset(after);
      case Forces(group) => model.ForceGroup(group);
      case Unforces(group) => model.UnforceGroup(group);
      case Announces(group) => var changed := model.GroupChanged(group);
    }
  }

  lemma KnownGroups(model: AbstractGroupingProxyModel)
    requires model.Valid()
    ensures WellFormed(model.Shown()) && WellFormed(model.source) && model.Shown() == ShownIn(Seen(model))
    ensures model.groupMap.Keys == Forced(model.nodes) + GroupsOf(model.Shown())
  {
    hide GroupsOf, Forced;
    ShownGroups(model.Shown(), model.Now());
  }

  /** After any run, the tree shown is the one built from scratch for the source as it is then and the
      groups forced then. */
  method Play(model: AbstractGroupingProxyModel, events: seq<Event>, ghost v: View)
    requires model.Valid() && v == Seen(model) && WellFormed(v.source) && PossibleRun(v, events)
    modifies model
    ensures model.Valid() && Seen(model) == AfterRun(v, events)
    ensures
      var end := AfterRun(v, events);
      WellFormed(ShownIn(end)) && Sound(model.Now()) && Display(model.Now()) == Rebuilt(ShownIn(end), end.forced)
    decreases |events|
  {
    hide Possible, After, GroupsOf, Display, Rebuilt;
    if events == [] {
      KnownGroups(model);
      DisplayIsRebuilt(model.Shown(), model.Now());
    } else {
      AfterWellFormed(v, events[0]);
      Handle(model, v, events[0]);
      Play(model, events[1..], After(v, events[0]));
    }
  }
}
