/** One presence, one connection status and one "changing" flag for all enabled accounts together. Each
    is cached, and a report that equals the cached value skips the computation. */
module GlobalPresence {
  import opened Presence
  import opened Sequences

  datatype ConnectionStatus = Disconnected | Connecting | Connected

  datatype Account = Account(current: Presence, requested: Presence, changing: bool, status: ConnectionStatus,
    error: string)

  const UNSET := Presence(Unset, "unset", "")

  function Without<T>(s: seq<T>, i: nat): seq<T>
    requires i < |s|
  {
    s[..i] + s[i + 1..]
  }

  ghost predicate ElsewhereIn<T(!new)>(s: seq<T>, i: nat, x: T) {
    exists j :: 0 <= j < |s| && j != i && s[j] == x
  }

  lemma WithoutKeeps<T(!new)>(s: seq<T>, i: nat, x: T)
    requires i < |s|
    ensures x in Without(s, i) <==> ElsewhereIn(s, i, x)
  {
    var rest := Without(s, i);
    if x in rest {
      var k :| 0 <= k < |rest| && rest[k] == x;
      var j := if k < i then k else k + 1;
      assert s[j] == x;
    }
    if ElsewhereIn(s, i, x) {
      var j :| 0 <= j < |s| && j != i && s[j] == x;
      assert rest[if j < i then j else j - 1] == x;
    }
  }

  // ---- the presence of all accounts --------------------------------------------------------------

  function Currents(accounts: seq<Account>): (r: seq<Presence>)
    ensures |r| == |accounts| && forall k :: 0 <= k < |r| ==> r[k] == accounts[k].current
  {
    seq(|accounts|, k requires 0 <= k < |accounts| => accounts[k].current)
  }

  function Requests(accounts: seq<Account>): (r: seq<Presence>)
    ensures |r| == |accounts| && forall k :: 0 <= k < |r| ==> r[k] == accounts[k].requested
  {
    seq(|accounts|, k requires 0 <= k < |accounts| => accounts[k].requested)
  }

  /** No account is more available than this. */
  ghost predicate Covers(p: Presence, values: seq<Presence>) {
    forall v :: v in values ==> !Greater(v, p)
  }

  ghost predicate Attained(p: Presence, values: seq<Presence>) {
    Same(p, OFFLINE) || exists v :: v in values && Same(v, p)
  }

  /** The most available presence of any account, or offline. */
  ghost predicate IsHighest(p: Presence, values: seq<Presence>) {
    Covers(p, values) && Attained(p, values)
  }

  /** There is only one such presence. */
  lemma HighestUnique(p: Presence, q: Presence, values: seq<Presence>)
    requires IsHighest(p, values) && IsHighest(q, values)
    ensures Same(p, q)
  {
    hide Less, Same;
    HighestNotBelow(p, q, values);
    HighestNotBelow(q, p, values);
    Trichotomy(p, q);
  }

  lemma HighestNotBelow(p: Presence, q: Presence, values: seq<Presence>)
    requires Covers(p, values) && Attained(q, values)
    ensures !Less(p, q)
  {
    hide Less, Same;
    if Same(q, OFFLINE) {
      OfflineIsLeast(p);
      SameCompares(q, OFFLINE, p);
    } else {
      var v :| v in values && Same(v, q);
      SameCompares(v, q, p);
      assert !Greater(v, p);
    }
  }

  /** One more value that is not below the others replaces the highest. */
  lemma HighestStep(p: Presence, values: seq<Presence>, v: Presence)
    requires IsHighest(p, values)
    ensures IsHighest(if Greater(v, p) then v else p, values + [v])
  {
    hide Less, Same;
    Trichotomy(v, v);
    assert Same(v, v) by { SameItself(v); }
    var q := if Greater(v, p) then v else p;
    assert v in values + [v] && forall w :: w in values ==> w in values + [v];
    forall w | w in values + [v] ensures !Greater(w, q) {
      if w in values && Greater(v, p) && Greater(w, v) {
        LessTransitive(p, v, w);
      }
    }
  }

  lemma SameItself(v: Presence)
    ensures Same(v, v)
  {
  }

  /** If the highest presence was that of the account that is left out, it stays the highest only if it
      is plain offline or another account has it too. */
  lemma HighestWithout(p: Presence, values: seq<Presence>, i: nat)
    requires Covers(p, values) && i < |values|
    ensures IsHighest(p, Without(values, i)) <==> Same(p, OFFLINE) || HeldElsewhere(p, values, i)
  {
    hide Less, Same;
    var rest := Without(values, i);
    assert forall v :: v in rest ==> v in values;
    if HeldElsewhere(p, values, i) {
      var j :| 0 <= j < |values| && j != i && Same(values[j], p);
      WithoutKeeps(values, i, values[j]);
      assert values[j] in rest;
    }
    if v :| v in rest && Same(v, p) {
      WithoutKeeps(values, i, v);
      var j :| 0 <= j < |values| && j != i && values[j] == v;
      assert HeldElsewhere(p, values, i);
    }
  }

  ghost predicate HeldElsewhere(p: Presence, values: seq<Presence>, i: nat) {
    exists j :: 0 <= j < |values| && j != i && Same(values[j], p)
  }

  // ---- the connection status of all accounts -----------------------------------------------------

  function Statuses(accounts: seq<Account>): (r: seq<ConnectionStatus>)
    ensures |r| == |accounts| && forall k :: 0 <= k < |r| ==> r[k] == accounts[k].status
  {
    seq(|accounts|, k requires 0 <= k < |accounts| => accounts[k].status)
  }

  function Rank(s: ConnectionStatus): nat {
    match s
    case Disconnected => 0
    case Connected => 1
    case Connecting => 2
  }

  ghost predicate CoversStatus(s: ConnectionStatus, statuses: seq<ConnectionStatus>) {
    forall t :: t in statuses ==> Rank(t) <= Rank(s)
  }

  /** Connecting if any account is, else connected if any account is, else disconnected. */
  ghost predicate IsOverall(s: ConnectionStatus, statuses: seq<ConnectionStatus>) {
    && (s == Connecting <==> Connecting in statuses)
    && (s == Connected <==> Connecting !in statuses && Connected in statuses)
  }

  lemma OverallCovers(s: ConnectionStatus, statuses: seq<ConnectionStatus>)
    ensures IsOverall(s, statuses) <==> CoversStatus(s, statuses) && (s == Disconnected || s in statuses)
  {
    assert Rank(Disconnected) < Rank(Connected) < Rank(Connecting);
  }

  lemma OverallWithout(s: ConnectionStatus, statuses: seq<ConnectionStatus>, i: nat)
    requires CoversStatus(s, statuses) && i < |statuses|
    ensures IsOverall(s, Without(statuses, i)) <==> s == Disconnected || ElsewhereIn(statuses, i, s)
  {
    OverallCovers(s, Without(statuses, i));
    WithoutKeeps(statuses, i, s);
    assert forall t :: t in Without(statuses, i) ==> t in statuses;
  }

  // ---- whether any account is changing its presence ------------------------------------------------

  function Flags(accounts: seq<Account>): (r: seq<bool>)
    ensures |r| == |accounts| && forall k :: 0 <= k < |r| ==> r[k] == accounts[k].changing
  {
    seq(|accounts|, k requires 0 <= k < |accounts| => accounts[k].changing)
  }

  /** Some account could not connect. */
  ghost predicate AnyError(accounts: seq<Account>) {
    exists k :: 0 <= k < |accounts| && accounts[k].error != ""
  }

  lemma ViewsWithout(accounts: seq<Account>, i: nat)
    requires i < |accounts|
    ensures Currents(Without(accounts, i)) == Without(Currents(accounts), i)
    ensures Requests(Without(accounts, i)) == Without(Requests(accounts), i)
    ensures Statuses(Without(accounts, i)) == Without(Statuses(accounts), i)
    ensures Flags(Without(accounts, i)) == Without(Flags(accounts), i)
  {
  }

  ghost predicate AllEqual<T(!new)>(x: T, s: seq<T>) {
    forall y :: y in s ==> y == x
  }

  lemma SameViews(was: seq<Account>, now: seq<Account>)
    requires |was| == |now|
    ensures (forall k :: 0 <= k < |was| ==> was[k].current == now[k].current) ==> Currents(was) == Currents(now)
    ensures (forall k :: 0 <= k < |was| ==> was[k].requested == now[k].requested) ==> Requests(was) == Requests(now)
    ensures (forall k :: 0 <= k < |was| ==> was[k].changing == now[k].changing) ==> Flags(was) == Flags(now)
    ensures (forall k :: 0 <= k < |was| ==> was[k].status == now[k].status) ==> Statuses(was) == Statuses(now)
  {
  }

  /** A report that equals the cached value makes it right without any computation. */
  lemma ReportIsRight(p: Presence, values: seq<Presence>, i: nat, v: Presence)
    requires Covers(p, values) && i < |values|
    ensures Same(p, v) ==> IsHighest(p, values[i := v])
  {
    hide Less;
    if Same(p, v) {
      Trichotomy(v, p);
      assert values[i := v][i] == v;
    }
  }

  lemma ArrivalIsRight(p: Presence, values: seq<Presence>, v: Presence)
    requires Covers(p, values)
    ensures Same(p, v) ==> IsHighest(p, values + [v])
  {
    hide Less;
    if Same(p, v) {
      Trichotomy(v, p);
      assert v in values + [v];
    }
  }

  lemma StatusReportIsRight(s: ConnectionStatus, statuses: seq<ConnectionStatus>, i: nat, t: ConnectionStatus)
    requires CoversStatus(s, statuses) && i < |statuses|
    ensures s == t ==> IsOverall(s, statuses[i := t])
  {
    assert statuses[i := t][i] == t;
    OverallCovers(s, statuses[i := t]);
  }

  lemma RestingStatusIsRight(statuses: seq<ConnectionStatus>)
    ensures CoversStatus(Disconnected, statuses) ==> IsOverall(Disconnected, statuses)
  {
    OverallCovers(Disconnected, statuses);
  }

  lemma RestingIsRight(p: Presence, values: seq<Presence>)
    requires Covers(p, values)
    ensures Same(p, OFFLINE) ==> IsHighest(p, values)
  {
  }

  /** What a caller can check before disabling account `i`. */
  ghost predicate Dispensable(cached: Presence, values: seq<Presence>, i: nat)
    requires i < |values|
  {
    !Same(cached, values[i]) || Same(values[i], OFFLINE) || HeldElsewhere(values[i], values, i)
  }

  lemma DepartureOf(p: Presence, values: seq<Presence>, i: nat)
    requires Covers(p, values) && i < |values|
    ensures Covers(p, Without(values, i))
    ensures Same(p, values[i]) ==> (IsHighest(p, Without(values, i)) <==> Dispensable(p, values, i))
  {
    hide Less;
    assert forall v :: v in Without(values, i) ==> v in values;
    HighestWithout(p, values, i);
    if Same(p, values[i]) {
      assert HeldElsewhere(p, values, i) <==> HeldElsewhere(values[i], values, i);
    }
  }

  lemma HighestAlike(p: Presence, q: Presence, values: seq<Presence>)
    requires IsHighest(p, values) && Same(q, p)
    ensures IsHighest(q, values)
  {
    hide Less;
    forall v | v in values ensures !Greater(v, q) {
      assert !Greater(v, p);
      SameCompares(q, p, v);
    }
  }

  ghost predicate AllAlike(p: Presence, values: seq<Presence>) {
    forall v :: v in values ==> Same(p, v)
  }

  lemma NoneAlike(p: Presence)
    ensures AllAlike(p, [])
  {
  }

  lemma AlikeMore(p: Presence, values: seq<Presence>, k: nat)
    requires k < |values|
    ensures AllAlike(p, values[..k]) && Same(p, values[k]) ==> AllAlike(p, values[..k + 1])
  {
    hide Same;
    assert values[..k + 1] == values[..k] + [values[k]];
  }

  lemma NoneEqual<T(!new)>(x: T)
    ensures AllEqual(x, [])
  {
  }

  lemma EqualMore<T(!new)>(x: T, s: seq<T>, k: nat)
    requires k < |s|
    ensures AllEqual(x, s[..k]) && x == s[k] ==> AllEqual(x, s[..k + 1])
  {
    assert s[..k + 1] == s[..k] + [s[k]];
  }

  lemma AllEqualIsOverall(s: ConnectionStatus, statuses: seq<ConnectionStatus>)
    ensures AllEqual(s, statuses) && statuses != [] ==> IsOverall(s, statuses)
    ensures statuses == [] ==> (IsOverall(s, statuses) <==> s == Disconnected)
  {
    OverallCovers(s, statuses);
    if statuses != [] { assert statuses[0] in statuses; }
  }

  lemma AllEqualIsAny(f: bool, flags: seq<bool>)
    ensures AllEqual(f, flags) && flags != [] ==> f == (true in flags)
  {
    if flags != [] { assert flags[0] in flags; }
  }

  lemma RightIsNotTooLow(p: Presence, values: seq<Presence>)
    ensures values == [] || IsHighest(p, values) ==> Covers(p, values)
  {
  }

  lemma StatusIsNotTooLow(s: ConnectionStatus, statuses: seq<ConnectionStatus>)
    ensures statuses == [] || IsOverall(s, statuses) ==> CoversStatus(s, statuses)
  {
    OverallCovers(s, statuses);
  }

  lemma AllAlikeIsHighest(p: Presence, values: seq<Presence>)
    ensures AllAlike(p, values) && values != [] ==> IsHighest(p, values)
    ensures values == [] ==> (IsHighest(p, values) <==> Same(p, OFFLINE))
  {
    hide Less;
    if AllAlike(p, values) && values != [] {
      assert values[0] in values;
      forall v | v in values ensures !Greater(v, p) { Trichotomy(p, v); }
    }
  }

  class GlobalPresence {
    /** The set of enabled accounts, which the account manager keeps up to date. */
    var accounts: seq<Account>
    var currentPresence: Presence
    var requestedPresence: Presence
    var connectionStatus: ConnectionStatus
    var changingPresence: bool
    var hasEnabledAccounts: bool
    var hasConnectionError: bool

    ghost predicate CurrentIsRight() reads this { IsHighest(currentPresence, Currents(accounts)) }

    ghost predicate RequestedIsRight() reads this { IsHighest(requestedPresence, Requests(accounts)) }

    ghost predicate StatusIsRight() reads this { IsOverall(connectionStatus, Statuses(accounts)) }

    ghost predicate ChangingIsRight() reads this { changingPresence == (true in Flags(accounts)) }

    ghost predicate AllRight() reads this {
      && CurrentIsRight() && RequestedIsRight() && StatusIsRight() && ChangingIsRight()
      && hasEnabledAccounts == (accounts != [])
    }

    /** What holds at any time: the cached values may be outdated, but never too low. */
    ghost predicate NeverTooLow() reads this {
      && Covers(currentPresence, Currents(accounts)) && Covers(requestedPresence, Requests(accounts))
      && CoversStatus(connectionStatus, Statuses(accounts)) && (true in Flags(accounts) ==> changingPresence)
    }

    constructor ()
      ensures accounts == [] && currentPresence == requestedPresence == UNSET
      ensures connectionStatus == Disconnected && !changingPresence && !hasEnabledAccounts
      ensures NeverTooLow() && !CurrentIsRight() && !RequestedIsRight()
    {
      accounts := [];
      currentPresence, requestedPresence := UNSET, UNSET;
      connectionStatus, changingPresence, hasEnabledAccounts := Disconnected, false, false;
    }

    method OnCurrentPresenceChanged(value: Presence) returns (emitted: seq<Presence>)
      modifies `currentPresence
      ensures Same(old(currentPresence), value) ==> currentPresence == old(currentPresence)
      ensures !Same(old(currentPresence), value) ==> CurrentIsRight()
      ensures emitted == if currentPresence == old(currentPresence) then [] else [currentPresence]
      ensures currentPresence != old(currentPresence) ==> !Same(currentPresence, old(currentPresence))
    {
      var highest := OFFLINE;
      if Same(currentPresence, value) {
        return [];
      }
      var k := 0;
      while k < |accounts|
        invariant 0 <= k <= |accounts| && IsHighest(highest, Currents(accounts[..k]))
        invariant currentPresence == old(currentPresence)
      {
        HighestStep(highest, Currents(accounts[..k]), accounts[k].current);
        assert Currents(accounts[..k + 1]) == Currents(accounts[..k]) + [accounts[k].current];
        if Greater(accounts[k].current, highest) {
          highest := accounts[k].current;
        }
        k := k + 1;
      }
      assert accounts[..k] == accounts;
      emitted := [];
      if !Same(currentPresence, highest) {
        currentPresence := highest;
        emitted := [highest];
      } else {
        HighestAlike(highest, currentPresence, Currents(accounts));
      }
    }

    method OnRequestedPresenceChanged(value: Presence) returns (emitted: seq<Presence>)
      modifies `requestedPresence
      ensures Same(old(requestedPresence), value) ==> requestedPresence == old(requestedPresence)
      ensures !Same(old(requestedPresence), value) ==> RequestedIsRight()
      ensures emitted == if requestedPresence == old(requestedPresence) then [] else [requestedPresence]
      ensures requestedPresence != old(requestedPresence) ==> !Same(requestedPresence, old(requestedPresence))
    {
      var highest := OFFLINE;
      if Same(requestedPresence, value) {
        return [];
      }
      var k := 0;
      while k < |accounts|
        invariant 0 <= k <= |accounts| && IsHighest(highest, Requests(accounts[..k]))
        invariant requestedPresence == old(requestedPresence)
      {
        HighestStep(highest, Requests(accounts[..k]), accounts[k].requested);
        assert Requests(accounts[..k + 1]) == Requests(accounts[..k]) + [accounts[k].requested];
        if Greater(accounts[k].requested, highest) {
          highest := accounts[k].requested;
        }
        k := k + 1;
      }
      assert accounts[..k] == accounts;
      emitted := [];
      if !Same(requestedPresence, highest) {
        requestedPresence := highest;
        emitted := [highest];
      } else {
        HighestAlike(highest, requestedPresence, Requests(accounts));
      }
    }

    method OnChangingPresence(value: bool) returns (emitted: seq<bool>)
      modifies `changingPresence
      ensures old(changingPresence) == value ==> changingPresence == value
      ensures old(changingPresence) != value ==> ChangingIsRight()
      ensures emitted == if changingPresence == old(changingPresence) then [] else [changingPresence]
    {
      var changing := false;
      if changingPresence == value {
        return [];
      }
      var k := 0;
      while k < |accounts|
        invariant 0 <= k <= |accounts| && !changing && true !in Flags(accounts)[..k]
        invariant changingPresence == old(changingPresence)
      {
        changing := accounts[k].changing;
        if accounts[k].changing {
          assert Flags(accounts)[k];
          break;
        }
        k := k + 1;
      }
      emitted := [];
      if changingPresence != changing {
        changingPresence := changing;
        emitted := [changing];
      }
    }

    /** The error flag is refreshed only when the report is not skipped. */
    method OnConnectionStatusChanged(value: ConnectionStatus) returns (emitted: seq<ConnectionStatus>)
      modifies `connectionStatus, `hasConnectionError
      ensures old(connectionStatus) == value ==> connectionStatus == value
      ensures old(connectionStatus) != value ==> StatusIsRight()
      ensures hasConnectionError == if old(connectionStatus) == value then old(hasConnectionError)
        else AnyError(accounts)
      ensures emitted == if connectionStatus == old(connectionStatus) then [] else [connectionStatus]
    {
      var changed := Disconnected;
      var statuses: seq<ConnectionStatus> := [];
      var hasError := false;
      if connectionStatus == value {
        return [];
      }
      var k := 0;
      while k < |accounts|
        invariant 0 <= k <= |accounts| && statuses == Statuses(accounts)[..k]
        invariant hasError <==> exists i :: 0 <= i < k && accounts[i].error != ""
        invariant connectionStatus == old(connectionStatus) && hasConnectionError == old(hasConnectionError)
      {
        statuses := statuses + [accounts[k].status];
        if accounts[k].error != "" {
          hasError := true;
        }
        k := k + 1;
      }
      if Connecting in statuses {
        changed := Connecting;
      } else if Connected in statuses {
        changed := Connected;
      }
      hasConnectionError := hasError;
      emitted := [];
      if connectionStatus != changed {
        connectionStatus := changed;
        emitted := [changed];
      }
    }

    /** An account was enabled or disabled, and the account manager has updated the set of accounts. */
    method OnAccountEnabledChanged(account: Account) returns (emitted: seq<bool>)
      modifies `currentPresence, `requestedPresence, `connectionStatus, `changingPresence
      modifies `hasEnabledAccounts, `hasConnectionError
      ensures Same(old(currentPresence), account.current) ==> currentPresence == old(currentPresence)
      ensures !Same(old(currentPresence), account.current) ==> CurrentIsRight()
      ensures Same(old(requestedPresence), account.requested) ==> requestedPresence == old(requestedPresence)
      ensures !Same(old(requestedPresence), account.requested) ==> RequestedIsRight()
      ensures if old(changingPresence) == account.changing then changingPresence == old(changingPresence)
        else ChangingIsRight()
      ensures if old(connectionStatus) == account.status then connectionStatus == old(connectionStatus)
        else StatusIsRight()
      ensures hasConnectionError ==
        if old(connectionStatus) == account.status then old(hasConnectionError) else AnyError(accounts)
      ensures hasEnabledAccounts == (accounts != [])
      ensures emitted == if hasEnabledAccounts == old(hasEnabledAccounts) then [] else [hasEnabledAccounts]
    {
      var e0 := OnCurrentPresenceChanged(account.current);
      var e1 := OnRequestedPresenceChanged(account.requested);
      var e2 := OnChangingPresence(account.changing);
      var e3 := OnConnectionStatusChanged(account.status);
      emitted := [];
      if hasEnabledAccounts != (accounts != []) {
        hasEnabledAccounts := accounts != [];
        emitted := [hasEnabledAccounts];
      }
    }

    /** The start: the values come out right, whatever they were, exactly if there is an account or they
        were right for no account at all, which the initial "unset" is not. */
    method SetAccountManager(enabled: seq<Account>)
      modifies this
      ensures accounts == enabled
      ensures CurrentIsRight() <==> enabled != [] || Same(old(currentPresence), OFFLINE)
      ensures RequestedIsRight() <==> enabled != [] || Same(old(requestedPresence), OFFLINE)
      ensures StatusIsRight() <==> enabled != [] || old(connectionStatus) == Disconnected
      ensures ChangingIsRight() <==> enabled != [] || !old(changingPresence)
      ensures hasEnabledAccounts == if enabled == [] then old(hasEnabledAccounts) else true
      ensures NeverTooLow()
    {
      accounts := enabled;
      ghost var c, r, s, f, had :=
        currentPresence, requestedPresence, connectionStatus, changingPresence, hasEnabledAccounts;
      hide Same, IsHighest, IsOverall, AllAlike, AllEqual, Covers, CoversStatus, Currents, Requests, Statuses, Flags;
      assert AllAlike(currentPresence, Currents(enabled)[..0])
        && AllAlike(requestedPresence, Requests(enabled)[..0]) by {
        NoneAlike(currentPresence);
        NoneAlike(requestedPresence);
      }
      assert AllEqual(connectionStatus, Statuses(enabled)[..0]) && AllEqual(changingPresence, Flags(enabled)[..0]) by {
        NoneEqual(connectionStatus);
        NoneEqual(changingPresence);
      }
      var k := 0;
      while k < |enabled|
        invariant 0 <= k <= |enabled| && accounts == enabled
        invariant CurrentIsRight() || (currentPresence == c && AllAlike(currentPresence, Currents(enabled)[..k]))
        invariant RequestedIsRight() || (requestedPresence == r && AllAlike(requestedPresence, Requests(enabled)[..k]))
        invariant StatusIsRight() || (connectionStatus == s && AllEqual(connectionStatus, Statuses(enabled)[..k]))
        invariant ChangingIsRight() || (changingPresence == f && AllEqual(changingPresence, Flags(enabled)[..k]))
        invariant hasEnabledAccounts == if k == 0 then had else true
        invariant k == 0 ==> currentPresence == c && requestedPresence == r
        invariant k == 0 ==> connectionStatus == s && changingPresence == f
      {
        AlikeMore(currentPresence, Currents(enabled), k);
        AlikeMore(requestedPresence, Requests(enabled), k);
        EqualMore(connectionStatus, Statuses(enabled), k);
        EqualMore(changingPresence, Flags(enabled), k);
        var e := OnAccountEnabledChanged(enabled[k]);
        k := k + 1;
      }
      assert Currents(enabled)[..k] == Currents(enabled) && Requests(enabled)[..k] == Requests(enabled);
      assert Statuses(enabled)[..k] == Statuses(enabled) && Flags(enabled)[..k] == Flags(enabled);
      AllAlikeIsHighest(currentPresence, Currents(enabled));
      AllAlikeIsHighest(requestedPresence, Requests(enabled));
      AllEqualIsOverall(connectionStatus, Statuses(enabled));
      AllEqualIsAny(changingPresence, Flags(enabled));
      RightIsNotTooLow(currentPresence, Currents(enabled));
      RightIsNotTooLow(requestedPresence, Requests(enabled));
      StatusIsNotTooLow(connectionStatus, Statuses(enabled));
    }

    /** An account reports a new presence.  A report of an enabled one makes the value right, whatever
        happened before.  Disabled ones report too, as nothing disconnects them: they repair an outdated
        value unless they report that very value. */
    method AccountChangesPresence(who: Option<nat>, value: Presence) returns (emitted: seq<Presence>)
      requires NeverTooLow() && (who.Some? ==> who.value < |accounts|)
      modifies `accounts, `currentPresence
      ensures accounts == if who.None? then old(accounts)
                          else old(accounts)[who.value := old(accounts)[who.value].(current := value)]
      ensures emitted == if currentPresence == old(currentPresence) then [] else [currentPresence]
      ensures NeverTooLow()
      ensures CurrentIsRight() <==> who.Some? || old(CurrentIsRight()) || !Same(old(currentPresence), value)
      ensures old(AllRight()) ==> AllRight()
    {
      if who.Some? {
        accounts := accounts[who.value := accounts[who.value].(current := value)];
        assert Currents(accounts) == Currents(old(accounts))[who.value := value];
        SameViews(old(accounts), accounts);
        ReportIsRight(old(currentPresence), Currents(old(accounts)), who.value, value);
      }
      emitted := OnCurrentPresenceChanged(value);
    }

    method AccountChangesRequest(who: Option<nat>, value: Presence) returns (emitted: seq<Presence>)
      requires NeverTooLow() && (who.Some? ==> who.value < |accounts|)
      modifies `accounts, `requestedPresence
      ensures accounts == if who.None? then old(accounts)
                          else old(accounts)[who.value := old(accounts)[who.value].(requested := value)]
      ensures emitted == if requestedPresence == old(requestedPresence) then [] else [requestedPresence]
      ensures NeverTooLow()
      ensures RequestedIsRight() <==> who.Some? || old(RequestedIsRight()) || !Same(old(requestedPresence), value)
      ensures old(AllRight()) ==> AllRight()
    {
      if who.Some? {
        accounts := accounts[who.value := accounts[who.value].(requested := value)];
        assert Requests(accounts) == Requests(old(accounts))[who.value := value];
        SameViews(old(accounts), accounts);
        ReportIsRight(old(requestedPresence), Requests(old(accounts)), who.value, value);
      }
      emitted := OnRequestedPresenceChanged(value);
    }

    method AccountChangesFlag(who: Option<nat>, value: bool) returns (emitted: seq<bool>)
      requires NeverTooLow() && (who.Some? ==> who.value < |accounts|)
      modifies `accounts, `changingPresence
      ensures accounts == if who.None? then old(accounts)
                          else old(accounts)[who.value := old(accounts)[who.value].(changing := value)]
      ensures emitted == if changingPresence == old(changingPresence) then [] else [changingPresence]
      ensures NeverTooLow()
      ensures ChangingIsRight() <==> who.Some? || old(ChangingIsRight()) || old(changingPresence) != value
      ensures old(AllRight()) ==> AllRight()
    {
      if who.Some? {
        accounts := accounts[who.value := accounts[who.value].(changing := value)];
        assert Flags(accounts) == Flags(old(accounts))[who.value := value];
        assert Flags(accounts)[who.value] == value;
        SameViews(old(accounts), accounts);
      }
      emitted := OnChangingPresence(value);
    }

    method AccountChangesStatus(who: Option<nat>, value: ConnectionStatus, error: string)
      returns (emitted: seq<ConnectionStatus>)
      requires NeverTooLow() && (who.Some? ==> who.value < |accounts|)
      modifies `accounts, `connectionStatus, `hasConnectionError
      ensures accounts == if who.None? then old(accounts)
                          else old(accounts)[who.value := old(accounts)[who.value].(status := value, error := error)]
      ensures emitted == if connectionStatus == old(connectionStatus) then [] else [connectionStatus]
      ensures NeverTooLow()
      ensures StatusIsRight() <==> who.Some? || old(StatusIsRight()) || old(connectionStatus) != value
      ensures hasConnectionError == if old(connectionStatus) == value then old(hasConnectionError)
        else AnyError(accounts)
      ensures old(AllRight()) ==> AllRight()
    {
      if who.Some? {
        accounts := accounts[who.value := accounts[who.value].(status := value, error := error)];
        assert Statuses(accounts) == Statuses(old(accounts))[who.value := value];
        SameViews(old(accounts), accounts);
        StatusReportIsRight(old(connectionStatus), Statuses(old(accounts)), who.value, value);
      }
      hide CoversStatus, Rank, Covers, Statuses, Currents, Requests, Flags, IsHighest, IsOverall;
      StatusIsNotTooLow(connectionStatus, Statuses(accounts));
      emitted := OnConnectionStatusChanged(value);
    }

    /** Enabling an account makes every value right, even the initial ones. */
    method EnableAccount(account: Account) returns (emitted: seq<bool>)
      requires NeverTooLow()
      modifies this
      ensures accounts == old(accounts) + [account]
      ensures NeverTooLow() && AllRight()
    {
      accounts := accounts + [account];
      assert Currents(accounts) == Currents(old(accounts)) + [account.current];
      assert Requests(accounts) == Requests(old(accounts)) + [account.requested];
      assert Flags(accounts) == Flags(old(accounts)) + [account.changing];
      assert Statuses(accounts) == Statuses(old(accounts)) + [account.status];
      emitted := OnAccountEnabledChanged(account);
      ArrivalIsRight(old(currentPresence), Currents(old(accounts)), account.current);
      ArrivalIsRight(old(requestedPresence), Requests(old(accounts)), account.requested);
    }

    /** Disabling an account leaves a value outdated exactly when it was the value of that account, is not
        the resting value, and no other account has it. */
    method DisableAccount(i: nat) returns (emitted: seq<bool>)
      requires NeverTooLow() && i < |accounts|
      modifies this
      ensures accounts == Without(old(accounts), i)
      ensures NeverTooLow() && hasEnabledAccounts == (accounts != [])
      ensures CurrentIsRight() <==> Dispensable(old(currentPresence), Currents(old(accounts)), i)
      ensures RequestedIsRight() <==> Dispensable(old(requestedPresence), Requests(old(accounts)), i)
      ensures StatusIsRight() <==>
        var s := old(accounts)[i].status;
        s != old(connectionStatus) || s == Disconnected || ElsewhereIn(Statuses(old(accounts)), i, s)
      ensures ChangingIsRight() <==>
        var f := old(accounts)[i].changing;
        f != old(changingPresence) || !f || ElsewhereIn(Flags(old(accounts)), i, f)
    {
      var account := accounts[i];
      accounts := Without(accounts, i);
      ViewsWithout(old(accounts), i);
      emitted := OnAccountEnabledChanged(account);
      DepartureOf(old(currentPresence), Currents(old(accounts)), i);
      DepartureOf(old(requestedPresence), Requests(old(accounts)), i);
      OverallWithout(old(connectionStatus), Statuses(old(accounts)), i);
      WithoutKeeps(Flags(old(accounts)), i, true);
    }

    /** When the disabled account has gone offline, what its own reports are about is right again. */
    method DisabledGoesOffline(i: nat)
      requires NeverTooLow() && i < |accounts|
      modifies this
      ensures accounts == Without(old(accounts), i)
      ensures NeverTooLow() && CurrentIsRight() && StatusIsRight() && ChangingIsRight()
    {
      hide IsHighest, Covers, IsOverall, CoversStatus, Same;
      var e0 := DisableAccount(i);
      RestingIsRight(currentPresence, Currents(accounts));
      var e1 := AccountChangesPresence(None, OFFLINE);
      var e2 := AccountChangesFlag(None, false);
      RestingStatusIsRight(Statuses(accounts));
      var e3 := AccountChangesStatus(None, Disconnected, "");
    }
  }

  /** The documentation wants the current presence to be the requested one as soon as an account has it.
      It is exactly then if no account is more available than that. */
  lemma RequestedIsCurrent(g: GlobalPresence)
    requires g.CurrentIsRight()
    requires exists v :: v in Currents(g.accounts) && Same(v, g.requestedPresence)
    ensures Same(g.currentPresence, g.requestedPresence) <==> Covers(g.requestedPresence, Currents(g.accounts))
  {
    hide Less, Same;
    var p, r, values := g.currentPresence, g.requestedPresence, Currents(g.accounts);
    if Covers(r, values) { HighestUnique(p, r, values); }
    if Same(p, r) {
      Trichotomy(r, p);
      SameItself(p);
      SameCompares(p, r, p);
      HighestAlike(p, r, values);
    }
  }

  /** Both accounts are asked to be busy, one of them stays available: so it is shown. */
  method RequestNotShown() returns (g: GlobalPresence)
    ensures g.AllRight() && Same(g.requestedPresence, Presence(Busy, "busy", ""))
    ensures exists v :: v in Currents(g.accounts) && Same(v, g.requestedPresence)
    ensures Same(g.currentPresence, Presence(Available, "available", ""))
      && !Same(g.currentPresence, g.requestedPresence)
  {
    var available, busy := Presence(Available, "available", ""), Presence(Busy, "busy", "");
    var a, b := Account(busy, busy, false, Connected, ""), Account(available, busy, false, Connected, "");
    g := new GlobalPresence();
    g.SetAccountManager([a, b]);
    ghost var values := Currents(g.accounts);
    assert values == [busy, available] && Requests(g.accounts) == [busy, busy];
    assert values[1] == available && Same(available, available);
    assert IsHighest(available, values);
    assert Requests(g.accounts)[0] == busy && Same(busy, busy);
    assert IsHighest(busy, Requests(g.accounts));
    HighestUnique(g.currentPresence, available, values);
    HighestUnique(g.requestedPresence, busy, Requests(g.accounts));
    assert values[0] == busy;
  }
}
