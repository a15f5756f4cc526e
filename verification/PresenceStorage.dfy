/** Custom presences in the configuration: what is written, and what a reload makes of it. */
module PresenceStorage {
  import opened Presence
  import opened PresenceList

  datatype Entry = Entry(kind: PresenceType, message: string)

  /** The number of a presence type. */
  function Number(kind: PresenceType): nat {
    match kind
    case Unset => 0
    case Offline => 1
    case Available => 2
    case Away => 3
    case ExtendedAway => 4
    case Hidden => 5
    case Busy => 6
    case Unknown => 7
    case Error => 8
  }

  function ConfigKey(kind: PresenceType, message: string): string {
    ["012345678"[Number(kind)]] + message
  }

  /** The first character of a key is the number that Telepathy gives the type. */
  lemma ConfigKeyDigits(message: string)
    ensures ConfigKey(Unset, message) == "0" + message && ConfigKey(Offline, message) == "1" + message
    ensures ConfigKey(Available, message) == "2" + message && ConfigKey(Away, message) == "3" + message
    ensures ConfigKey(ExtendedAway, message) == "4" + message && ConfigKey(Hidden, message) == "5" + message
    ensures ConfigKey(Busy, message) == "6" + message && ConfigKey(Unknown, message) == "7" + message
    ensures ConfigKey(Error, message) == "8" + message
  {
  }

  /** Different entries have different keys. */
  lemma ConfigKeyInjective(a: Entry, b: Entry)
    requires ConfigKey(a.kind, a.message) == ConfigKey(b.kind, b.message)
    ensures a == b
  {
    var x, y := ConfigKey(a.kind, a.message), ConfigKey(b.kind, b.message);
    assert x[0] == y[0] && x[1..] == a.message && y[1..] == b.message;
    assert Number(a.kind) == Number(b.kind);
  }

  /** The presences a custom entry can be read back as. */
  predicate Settable(kind: PresenceType) {
    kind == Available || kind == Away || kind == Busy || kind == ExtendedAway
  }

  function StatusName(kind: PresenceType): string {
    match kind
    case Available => "available"
    case Busy => "busy"
    case Away => "away"
    case ExtendedAway => "xa"
    case Hidden => "hidden"
    case Offline => "offline"
    case Unknown => "unknown"
    case Unset => "unset"
    case Error => "error"
  }

  function Standard(kind: PresenceType, message: string): Presence {
    Presence(kind, StatusName(kind), message)
  }

  ghost function DefaultKeys(): set<Key> {
    {Key(0, ""), Key(1, ""), Key(2, ""), Key(3, ""), Key(4, ""), Key(6, "")}
  }

  type Config = map<string, Entry>

  /** Every entry is stored under its own key and has a message: what saving produces. */
  ghost predicate Consistent(config: Config) {
    forall k :: k in config ==> k == ConfigKey(config[k].kind, config[k].message) && config[k].message != ""
  }

  /** The entries saved for a list. */
  ghost predicate Saves(config: Config, list: seq<Presence>) {
    && Consistent(config)
    && forall e: Entry :: ConfigKey(e.kind, e.message) in config <==>
         e.message != "" && exists i :: 0 <= i < |list| && list[i].kind == e.kind && list[i].message == e.message
  }

  /** The presences that entries are read back as. */
  ghost function RestoredKeys(config: Config): set<Key> {
    set k | k in config && Settable(config[k].kind) :: KeyOf(Standard(config[k].kind, config[k].message))
  }

  /** Two entries of a consistent configuration never stand for the same presence, nor for a default:
      so toggling them in one after the other cancels nothing. */
  lemma EntriesApart(config: Config, k: string, l: string)
    requires Consistent(config) && k in config && l in config && k != l
    requires Settable(config[k].kind) && Settable(config[l].kind)
    ensures KeyOf(Standard(config[k].kind, config[k].message)) != KeyOf(Standard(config[l].kind, config[l].message))
    ensures KeyOf(Standard(config[k].kind, config[k].message)) !in DefaultKeys()
  {
  }

  /** Saving and reloading gives the same presences exactly when the list has all defaults, every
      presence with a message is of a type that is read back, and every one without is a default. */
  lemma ReloadRestores(list: seq<Presence>, config: Config)
    requires Saves(config, list)
    ensures DefaultKeys() + RestoredKeys(config) == Keys(list) <==>
      && DefaultKeys() <= Keys(list)
      && (forall i :: 0 <= i < |list| ==>
            if list[i].message != "" then Settable(list[i].kind) else KeyOf(list[i]) in DefaultKeys())
  {
    hide Keys, ConfigKey, RestoredKeys, KeyOf, Settable, Saves, DefaultKeys;
    var restored := RestoredKeys(config);
    forall key | key in restored ensures key in Keys(list) && key.message != "" {
      RestoredFromList(list, config, key);
    }
    forall i | 0 <= i < |list|
      ensures KeyOf(list[i]) in restored <==> list[i].message != "" && Settable(list[i].kind)
      ensures KeyOf(list[i]) in Keys(list) && KeyOf(list[i]).message == list[i].message
    {
      KeysMeaning(list, KeyOf(list[i]));
      ListedIsRestored(list, config, i);
      KeyMessage(list[i]);
    }
    SameSets(list, restored);
  }

  lemma KeyMessage(p: Presence)
    ensures KeyOf(p).message == p.message
  {
  }

  lemma DefaultMessages()
    ensures forall key :: key in DefaultKeys() ==> key.message == ""
  {
  }

  lemma SameSets(list: seq<Presence>, restored: set<Key>)
    requires restored <= Keys(list) && forall key :: key in restored ==> key.message != ""
    requires forall i :: 0 <= i < |list| ==>
      && (KeyOf(list[i]) in restored <==> list[i].message != "" && Settable(list[i].kind))
      && KeyOf(list[i]) in Keys(list) && KeyOf(list[i]).message == list[i].message
    ensures DefaultKeys() + restored == Keys(list) <==>
      && DefaultKeys() <= Keys(list)
      && (forall i :: 0 <= i < |list| ==>
            if list[i].message != "" then Settable(list[i].kind) else KeyOf(list[i]) in DefaultKeys())
  {
    hide Keys, KeyOf, Settable, DefaultKeys;
    DefaultMessages();
    if DefaultKeys() <= Keys(list) {
      if forall i :: 0 <= i < |list| ==>
            if list[i].message != "" then Settable(list[i].kind) else KeyOf(list[i]) in DefaultKeys() {
        forall key | key in Keys(list) ensures key in DefaultKeys() + restored {
          KeysMeaning(list, key);
          var i :| 0 <= i < |list| && KeyOf(list[i]) == key;
        }
      }
    }
  }

  lemma RestoredFromList(list: seq<Presence>, config: Config, key: Key)
    requires Saves(config, list) && key in RestoredKeys(config)
    ensures key in Keys(list) && key.message != "" && key.priority < 4
  {
    hide Keys, ConfigKey, Settable, Standard, KeyOf;
    var k :| k in config && Settable(config[k].kind) && KeyOf(Standard(config[k].kind, config[k].message)) == key;
    var e := config[k];
    assert ConfigKey(e.kind, e.message) in config;
    var i :| 0 <= i < |list| && list[i].kind == e.kind && list[i].message == e.message;
    KeysMeaning(list, key);
    StandardKey(list[i]);
    KeyMessage(list[i]);
    assert Standard(e.kind, e.message) == Standard(list[i].kind, list[i].message);
  }

  lemma StandardKey(p: Presence)
    ensures KeyOf(Standard(p.kind, p.message)) == KeyOf(p) && (Settable(p.kind) ==> KeyOf(p).priority < 4)
  {
  }

  lemma ListedIsRestored(list: seq<Presence>, config: Config, i: nat)
    requires Saves(config, list) && i < |list|
    ensures KeyOf(list[i]) in RestoredKeys(config) <==> list[i].message != "" && Settable(list[i].kind)
  {
    hide ConfigKey;
    var p := list[i];
    var e := Entry(p.kind, p.message);
    if p.message != "" && Settable(p.kind) {
      assert ConfigKey(e.kind, e.message) in config;
      SavedEntry(list, config, e);
    }
    if KeyOf(p) in RestoredKeys(config) {
      var k :| k in config && Settable(config[k].kind)
        && KeyOf(Standard(config[k].kind, config[k].message)) == KeyOf(p);
    }
  }

  lemma SavedEntry(list: seq<Presence>, config: Config, e: Entry)
    requires Saves(config, list) && ConfigKey(e.kind, e.message) in config
    ensures config[ConfigKey(e.kind, e.message)] == e
  {
    hide ConfigKey;
    var k := ConfigKey(e.kind, e.message);
    ConfigKeyInjective(e, config[k]);
  }
}
