/** The presence model of one process. */
module PresenceModel {
  import opened Presence
  import opened PresenceList
  import opened PresenceStorage

  /** The broadcast: a presence, and whether it is now in the list. */
  datatype Change = Change(presence: Presence, added: bool)

  /** What a broadcast does to a list. */
  function Applied(collate: Collation, list: seq<Presence>, change: Change): seq<Presence> {
    if change.added != Contains(list, change.presence) then Toggled(collate, list, change.presence) else list
  }

  /** An entry that can be set and is not there yet comes in with the status name of its type. */
  ghost predicate AddedByName(was: seq<Presence>, entry: Entry, now: seq<Presence>) {
    entry.kind in {Available, Away, Busy, ExtendedAway} ==>
      var status := match entry.kind
                    case Available => "available"
                    case Away => "away"
                    case Busy => "busy"
                    case _ => "xa";
      var p := Presence(entry.kind, status, entry.message);
      !Contains(was, p) ==> multiset(now) == multiset(was) + multiset{p}
  }

  class PresenceModel {
    const collate: Collation
    var presences: seq<Presence>
    var config: Config
    var sent: seq<Change>

    ghost predicate Valid()
      reads this
    {
      Ordered(collate, presences)
    }

    /** Loads what is in the configuration. */
    constructor (collate: Collation, config: Config)
      ensures Valid() && this.collate == collate && this.config == config && sent == []
      ensures Consistent(config) ==> Keys(presences) == DefaultKeys() + RestoredKeys(config)
    {
      this.collate := collate;
      this.config := config;
      presences, sent := [], [];
      new;
      LoadPresences();
    }

    /** `std::lower_bound` by halving. */
    method FindRow(p: Presence) returns (row: nat)
      requires Valid()
      ensures row == LowerBound(collate, presences, p)
    {
      hide LowerBound, Precedes;
      var low, high := 0, |presences|;
      while low < high
        invariant low <= high <= |presences|
        invariant low <= LowerBound(collate, presences, p) <= high
      {
        var mid := (low + high) / 2;
        if Precedes(collate, presences[mid], p) {
          if LowerBound(collate, presences, p) <= mid { BehindLowerBound(collate, presences, p, mid); }
          low := mid + 1;
        } else {
          high := mid;
        }
      }
      row := low;
    }

    method ModifyModel(p: Presence)
      requires Valid()
      modifies `presences
      ensures Valid()
      ensures presences == Toggled(collate, old(presences), p)
      ensures Arranged(collate, presences)
    {
      OrderedIsArranged(collate, Toggled(collate, presences, p));
      ToggleKeepsOrder(collate, presences, p);
      if Contains(presences, p) {
        var row := IndexOf(presences, p);
        presences := presences[..row] + presences[row + 1..];
      } else {
        var row := FindRow(p);
        presences := presences[..row] + [p] + presences[row..];
      }
    }

    method AddPresence(p: Presence) returns (row: nat)
      requires Valid()
      modifies `presences, `sent
      ensures Valid()
      ensures presences == Applied(collate, old(presences), Change(p, true))
      ensures sent == old(sent) + if Contains(old(presences), p) then [] else [Change(p, true)]
      ensures row < |presences| && Same(presences[row], p)
    {
      hide Toggled, Ordered, Keys;
      ToggleKeys(collate, presences, p);
      if !Contains(presences, p) {
        ModifyModel(p);
        assert KeyOf(p) in Keys(presences);
        PropagateChange(p);
      }
      row := IndexOf(presences, p);
    }

    method RemovePresence(p: Presence)
      requires Valid()
      modifies `presences, `sent
      ensures Valid()
      ensures presences == Applied(collate, old(presences), Change(p, false))
      ensures sent == old(sent) + if Contains(old(presences), p) then [Change(p, false)] else []
      ensures !Contains(presences, p)
    {
      hide Toggled, Ordered, Keys;
      ToggleKeys(collate, presences, p);
      if Contains(presences, p) {
        ModifyModel(p);
        assert KeyOf(p) !in Keys(presences);
        PropagateChange(p);
      }
    }

    method PropagateChange(p: Presence)
      modifies `sent
      ensures sent == old(sent) + [Change(p, Contains(presences, p))]
    {
      sent := sent + [Change(p, Contains(presences, p))];
    }

    method PropagationChange(change: Change, isValid: bool)
      requires Valid()
      modifies `presences
      ensures Valid()
      ensures presences == if isValid then Applied(collate, old(presences), change) else old(presences)
    {
      if !isValid {
        return;
      }
      if change.added != Contains(presences, change.presence) {
        ModifyModel(change.presence);
      }
    }

    method LoadPresences()
      modifies `presences
      ensures Valid()
      ensures Consistent(config) ==> Keys(presences) == DefaultKeys() + RestoredKeys(config)
    {
      presences := [];
      LoadDefaultPresences();
      LoadCustomPresences();
    }

    method LoadDefaultPresences()
      requires presences == []
      modifies `presences
      ensures Valid()
      ensures Keys(presences) == DefaultKeys()
      ensures presences == [
        Presence(Available, "available", ""), Presence(Busy, "busy", ""), Presence(Away, "away", ""),
        Presence(ExtendedAway, "xa", ""), Presence(Hidden, "hidden", ""), Presence(Offline, "offline", "")]
    {
      hide Keys, Toggled, Ordered, Arranged;
      NothingOrdered(collate);
      LoadDefault(Presence(Available, "available", ""));
      LoadDefault(Presence(Busy, "busy", ""));
      LoadDefault(Presence(Away, "away", ""));
      LoadDefault(Presence(ExtendedAway, "xa", ""));
      LoadDefault(Presence(Hidden, "hidden", ""));
      LoadDefault(Presence(Offline, "offline", ""));
      assert presences == [
        Presence(Available, "available", ""), Presence(Busy, "busy", ""), Presence(Away, "away", ""),
        Presence(ExtendedAway, "xa", ""), Presence(Hidden, "hidden", ""), Presence(Offline, "offline", "")];
      DefaultListKeys();
    }

    method LoadDefault(p: Presence)
      requires Valid() && forall i :: 0 <= i < |presences| ==> SortPriority(presences[i].kind) < SortPriority(p.kind)
      modifies `presences
      ensures Valid() && presences == old(presences) + [p]
    {
      hide Toggled, Ordered;
      ToggledToEnd(collate, presences, p);
      ModifyModel(p);
    }

    /** The entries are read in the order of their keys, whatever that is. */
    method LoadCustomPresences()
      requires Valid()
      requires Consistent(config) ==> Keys(presences) == DefaultKeys()
      modifies `presences
      ensures Valid()
      ensures Consistent(config) ==> Keys(presences) == Keys(old(presences)) + RestoredKeys(config)
    {
      hide Keys, Ordered, RestoredKeys, DefaultKeys, Consistent, Settable, Standard, KeyOf, AddedByName;
      var keyList := config.Keys;
      ghost var done: Config := map[];
      ghost var consistent := Consistent(config);
      NothingRestored();
      assert config - config.Keys == map[];
      while keyList != {}
        invariant keyList <= config.Keys && Valid()
        invariant done == config - keyList
        invariant consistent ==> Keys(presences) == DefaultKeys() + RestoredKeys(done)
        decreases |keyList|
      {
        var key :| key in keyList;
        keyList := keyList - {key};
        LoadKey(key, done);
        assert config - keyList == done[key := config[key]];
        done := config - keyList;
      }
      assert config - {} == config;
    }

    /** One round: the entries `done` have been loaded before. */
    method LoadKey(key: string, ghost done: Config)
      requires Valid() && key in config && key !in done
      requires forall k :: k in done ==> k in config && config[k] == done[k]
      requires Consistent(config) ==> Keys(presences) == DefaultKeys() + RestoredKeys(done)
      modifies `presences
      ensures Valid()
      ensures Consistent(config) ==> Keys(presences) == DefaultKeys() + RestoredKeys(done[key := config[key]])
    {
      hide Keys, Ordered, RestoredKeys, DefaultKeys, Consistent, Settable, Standard, KeyOf, AddedByName;
      OneMoreEntry(config, done, done[key := config[key]], key);
      SettableKinds(config[key].kind);
      LoadEntry(config[key]);
    }

    /** An entry that cannot be set is ignored, and one whose presence is there already would remove it. */
    method LoadEntry(entry: Entry)
      requires Valid()
      modifies `presences
      ensures Valid()
      ensures AddedByName(old(presences), entry, presences)
      ensures
        var p := Standard(entry.kind, entry.message);
        Keys(presences) ==
          if entry.kind !in {Available, Away, Busy, ExtendedAway} then Keys(old(presences))
          else if KeyOf(p) in Keys(old(presences)) then Keys(old(presences)) - {KeyOf(p)}
          else Keys(old(presences)) + {KeyOf(p)}
    {
      hide Keys, Toggled, Ordered, Standard, KeyOf, Contains;
      if Settable(entry.kind) {
        StandardByName(entry.kind, entry.message);
        ToggledIn(collate, presences, Standard(entry.kind, entry.message));
        ToggleKeys(collate, presences, Standard(entry.kind, entry.message));
        ModifyModel(Standard(entry.kind, entry.message));
      }
    }

    method SyncCustomPresencesToDisk()
      modifies `config
      ensures Saves(config, presences)
    {
      hide ConfigKey;
      config := map[];
      var i := 0;
      assert presences[..0] == [];
      while i < |presences|
        invariant i <= |presences|
        invariant Saves(config, presences[..i])
      {
        var presence := presences[i];
        assert presences[..i + 1] == presences[..i] + [presence];
        SavesOneMore(config, presences[..i], presence);
        if presence.message != "" {
          var id := ConfigKey(presence.kind, presence.message);
          config := config[id := Entry(presence.kind, presence.message)];
        }
        i := i + 1;
      }
      assert presences[..i] == presences;
    }

    /** Saving the list and loading it again. */
    method SaveAndReload()
      requires Valid()
      modifies `config, `presences
      ensures Valid()
      ensures Keys(presences) == Keys(old(presences)) <==>
        && DefaultKeys() <= Keys(old(presences))
        && (forall i :: 0 <= i < |old(presences)| ==>
              if old(presences)[i].message != "" then old(presences)[i].kind in {Available, Away, Busy, ExtendedAway}
              else KeyOf(old(presences)[i]) in DefaultKeys())
    {
      hide Keys, Ordered;
      SyncCustomPresencesToDisk();
      ReloadRestores(presences, config);
      LoadPresences();
    }
  }

  /** A broadcast makes the receiver agree with the sender about its presence, and changes nothing else. */
  lemma BroadcastAgrees(collate: Collation, sender: seq<Presence>, receiver: seq<Presence>, p: Presence,
                        other: Presence)
    requires Ordered(collate, receiver)
    ensures
      var after := Applied(collate, receiver, Change(p, Contains(sender, p)));
      && (Contains(after, p) <==> Contains(sender, p))
      && (!Same(other, p) ==> (Contains(after, other) <==> Contains(receiver, other)))
  {
    hide Contains, Ordered, Toggled, Keys;
    ToggleKeys(collate, receiver, p);
    var after := Applied(collate, receiver, Change(p, Contains(sender, p)));
    assert KeyOf(p) in Keys(after) <==> Contains(after, p);
    assert KeyOf(other) in Keys(after) <==> Contains(after, other);
  }

  lemma NothingOrdered(collate: Collation)
    ensures Ordered(collate, []) && Keys([]) == {}
  {
    forall key ensures key !in Keys([]) { KeysMeaning([], key); }
  }

  lemma DefaultListKeys()
    ensures Keys([
      Presence(Available, "available", ""), Presence(Busy, "busy", ""), Presence(Away, "away", ""),
      Presence(ExtendedAway, "xa", ""), Presence(Hidden, "hidden", ""), Presence(Offline, "offline", "")
    ]) == DefaultKeys()
  {
    hide Keys;
    var list := [
      Presence(Available, "available", ""), Presence(Busy, "busy", ""), Presence(Away, "away", ""),
      Presence(ExtendedAway, "xa", ""), Presence(Hidden, "hidden", ""), Presence(Offline, "offline", "")];
    forall key ensures key in Keys(list) <==> key in DefaultKeys() {
      KeysMeaning(list, key);
      if key in DefaultKeys() {
        var i := if key.priority == 6 then 5 else key.priority;
        assert KeyOf(list[i]) == key;
      }
    }
  }

  lemma SettableKinds(kind: PresenceType)
    ensures Settable(kind) <==> kind in {Available, Away, Busy, ExtendedAway}
  {
  }

  lemma StandardByName(kind: PresenceType, message: string)
    ensures kind in {Available, Away, Busy, ExtendedAway} ==>
      var status := match kind
                    case Available => "available"
                    case Away => "away"
                    case Busy => "busy"
                    case _ => "xa";
      Standard(kind, message) == Presence(kind, status, message)
  {
  }

  lemma NothingRestored()
    ensures RestoredKeys(map[]) == {}
  {
  }

  lemma OneMoreEntry(config: Config, before: Config, after: Config, key: string)
    requires key in config && key !in before && after == before[key := config[key]]
    requires forall k :: k in before ==> k in config && config[k] == before[k]
    ensures RestoredKeys(after) ==
      RestoredKeys(before) + if Settable(config[key].kind)
        then {KeyOf(Standard(config[key].kind, config[key].message))} else {}
    ensures Consistent(config) && Settable(config[key].kind) ==>
      KeyOf(Standard(config[key].kind, config[key].message)) !in DefaultKeys() + RestoredKeys(before)
  {
    hide ConfigKey;
    if Consistent(config) && Settable(config[key].kind) {
      forall k | k in before && Settable(before[k].kind)
        ensures KeyOf(Standard(before[k].kind, before[k].message))
          != KeyOf(Standard(config[key].kind, config[key].message))
      {
        EntriesApart(config, key, k);
      }
    }
    forall k | k in before ensures k in after && after[k] == before[k] { }
    forall x
      ensures x in RestoredKeys(after) <==>
        (x in RestoredKeys(before)
          || (Settable(config[key].kind) && x == KeyOf(Standard(config[key].kind, config[key].message))))
    {
      if x in RestoredKeys(before) {
        var k :| k in before && Settable(before[k].kind) && KeyOf(Standard(before[k].kind, before[k].message)) == x;
        assert k in after;
      }
      if Settable(config[key].kind) && x == KeyOf(Standard(config[key].kind, config[key].message)) {
        assert key in after && after[key] == config[key];
      }
    }
  }

  lemma SavesOneMore(config: Config, list: seq<Presence>, p: Presence)
    requires Saves(config, list)
    ensures
      var entry := Entry(p.kind, p.message);
      Saves(if p.message == "" then config else config[ConfigKey(p.kind, p.message) := entry], list + [p])
  {
    hide ConfigKey;
    var entry := Entry(p.kind, p.message);
    var after := if p.message == "" then config else config[ConfigKey(p.kind, p.message) := entry];
    var all := list + [p];
    forall e: Entry
      ensures ConfigKey(e.kind, e.message) in after <==>
        e.message != "" && exists i :: 0 <= i < |all| && all[i].kind == e.kind && all[i].message == e.message
    {
      if ConfigKey(e.kind, e.message) == ConfigKey(p.kind, p.message) { ConfigKeyInjective(e, entry); }
      assert all[|list|] == p;
      if i :| 0 <= i < |list| && list[i].kind == e.kind && list[i].message == e.message {
        assert all[i] == list[i];
      }
    }
  }
}
