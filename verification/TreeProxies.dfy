/** The two proxies built on the grouping model: contacts by group, and contacts by account. */
module TreeProxies {
  import opened Sequences
  import opened SourceModel
  import opened NodeStore
  import opened GroupingInvariant
  import opened GroupingProxy
  import opened GroupingTheorems

  /** The groups of a contact; a contact without groups is unsorted. */
  function GroupsOfContact(groups: seq<string>): (r: set<string>)
    ensures r != {}
    ensures groups != [] ==> forall g :: g in r <==> g in groups
    ensures groups == [] ==> r == {"_unsorted"}
  {
    if groups == [] then {"_unsorted"} else
      var r := set g | g in groups;
      assert groups[0] in r;
      r
  }

  /** The single group of a contact: the object path of its account, if it has one. */
  function GroupsOfAccount(account: Option<string>): (r: set<string>)
    ensures |r| == 1
    ensures account.Some? ==> account.value in r
    ensures account.None? ==> "Unknown" in r
  {
    match account
    case Some(objectPath) => {objectPath}
    case None => {"Unknown"}
  }

  /** Neither proxy can produce a row without groups. */
  lemma SourcesAreGrouped(S: Source, groups: map<Id, seq<string>>, accounts: map<Id, Option<string>>)
    requires forall r :: r in S.rows ==> r in S.groups && r in groups && r in accounts
    requires (forall r :: r in S.rows ==> S.groups[r] == GroupsOfContact(groups[r]))
          || (forall r :: r in S.rows ==> S.groups[r] == GroupsOfAccount(accounts[r]))
    ensures Grouped(S)
  {
    forall r | r in S.rows ensures S.groups[r] != {} {
      assert |GroupsOfAccount(accounts[r])| == 1;
    }
  }

  datatype Account = Account(objectPath: string, valid: bool)

  /** The account tree forces a header for every enabled account.  `connected` are the accounts whose
      changes of name and icon it hears of; nothing ever disconnects them. */
  class AccountsTreeProxyModel {
    const model: AbstractGroupingProxyModel
    var connected: set<Account>

    constructor (model: AbstractGroupingProxyModel)
      ensures this.model == model && connected == {}
    {
      this.model := model;
      connected := {};
    }

    method OnAccountAdded(account: Account)
      requires model.Valid()
      modifies model, this
      ensures model.Valid() && model.source == old(model.source) && model.loaded == old(model.loaded)
      ensures Forced(model.nodes) ==
        Forced(old(model.nodes)) + if account.valid then {account.objectPath} else {}
      ensures connected == old(connected) + if account.valid then {account} else {}
    {
      hide Mirrors, Forced;
      if account.valid {
        model.ForceGroup(account.objectPath);
        connected := connected + {account};
      }
    }

    /** Sound only when the header is there: an account that was not valid when it was added leaves a
        null entry behind. */
    method OnAccountRemoved(account: Account)
      requires model.Valid()
      modifies model
      ensures model.Valid() <==> account.objectPath in old(model.groupMap)
      ensures model.Valid() ==> Forced(model.nodes) == Forced(old(model.nodes)) - {account.objectPath}
      ensures model.source == old(model.source) && model.loaded == old(model.loaded)
    {
      hide Mirrors, Forced;
      model.UnforceGroup(account.objectPath);
    }

    /** Sound only when the header is there, and the account may be gone. */
    method OnAccountChanged(account: Account)
      requires model.Valid() && account in connected
      modifies model
      ensures model.Valid() <==> account.objectPath in old(model.groupMap)
      ensures model.Valid() ==> model.groupMap == old(model.groupMap)
    {
      hide Mirrors;
      var changed := model.GroupChanged(account.objectPath);
    }
  }

  /** The group is not shown: it is not forced and no row is in it. */
  ghost predicate NotShown(model: AbstractGroupingProxyModel, group: string)
    requires model.Valid()
    reads model
  {
    group !in Forced(model.nodes) && group !in GroupsOf(model.Shown())
  }

  lemma NotShownNotKnown(model: AbstractGroupingProxyModel, group: string)
    requires model.Valid()
    ensures NotShown(model, group) <==> group !in model.groupMap
  {
    hide Forced, GroupsOf;
    ShownGroups(model.Shown(), model.Now());
  }

  /** A run that breaks the group index: an account without contacts is enabled before it is valid, and
      disabled again. */
  method InvalidAccountRemoved(proxy: AccountsTreeProxyModel, account: Account)
    requires proxy.model.Valid() && !account.valid && NotShown(proxy.model, account.objectPath)
    modifies proxy, proxy.model
    ensures !proxy.model.Valid()
  {
    hide Mirrors, Forced, GroupsOf;
    proxy.OnAccountAdded(account);
    NotShownNotKnown(proxy.model, account.objectPath);
    proxy.OnAccountRemoved(account);
  }

  /** Another one: a valid account without contacts is enabled, disabled, and then gets a new icon. */
  method ChangedAfterRemoval(proxy: AccountsTreeProxyModel, account: Account)
    requires proxy.model.Valid() && account.valid && NotShown(proxy.model, account.objectPath)
    modifies proxy, proxy.model
    ensures !proxy.model.Valid()
  {
    hide Mirrors, Forced, GroupsOf;
    proxy.OnAccountAdded(account);
    KnownWhenForced(proxy.model, account.objectPath);
    proxy.OnAccountRemoved(account);
    NotShownNotKnown(proxy.model, account.objectPath);
    proxy.OnAccountChanged(account);
  }

  lemma KnownWhenForced(model: AbstractGroupingProxyModel, group: string)
    requires model.Valid() && group in Forced(model.nodes)
    ensures group in model.groupMap
  {
    NotShownNotKnown(model, group);
  }
}
