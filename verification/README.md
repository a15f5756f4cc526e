# Verified models of ktp-common-internals

This project models the parts of ktp-common-internals that keep state in step with something else: a tree of
groups kept in step with a source model, pages of a chat history kept in step with a log, text kept in step with
the links cut out of it, lists of presences kept in step between processes, cached values kept in step with
accounts, and daily documents kept in step with a monthly log. The classes have the fields and the slots of the
originals; each slot is proved against a specification on values, and the properties of those specifications are
lemmas. `dafny verify dfyconfig.toml` checks everything.

**Grouping proxy** (`SourceModel`, `NodeStore`, `GroupingInvariant`, `GroupingSteps`, `GroupingEdits`,
`GroupingSlots`, `GroupingProxy`, `GroupingTheorems`, `GroupingRuns`, `TreeProxies`). The proxy copies each
top-level row of a source tree, with everything below it, into every group the row is in. `Mirrors` ties the
tree, the proxy index and the group index to the source; every slot keeps it. `Play` is the main result: after
any run of events the tree shown is the one built from scratch. The hypotheses are those the code needs: rows
are always in a group (both subclasses see to that), nested rows are inserted at the end of their parent, and
only groups that are shown are unforced or announced. The second and third are shown to be necessary:
`OnRowsInserted`, `UnforceGroup` and `GroupChanged` keep the invariant if and only if they hold. Two runs of the
account tree, `InvalidAccountRemoved` and `ChangedAfterRemoval`, break the third one: the name of the group then
gives a null item (`UnforceUnknown`). A reset repairs that (`SourceReset`).

**Chat history** (`ChatHistory`, `ScrollbackManager`, `MessagesModel`, `HistoryRuns`, `LoggerDates`). A fetch
reads a log from its newest day back, resolves an anchor, and stops as soon as it has enough. `Fetch` gives
exactly the last messages before the anchor, and fewer days would not decide the answer
(`FewerDaysDoNotDecide`); the anchor is a token, or a time and a text, so texts may repeat (`FetchBefore`).
`WholeConversation` loads the end of a log and pages back until exactly the whole log is shown. Two things can
go wrong, and their exact conditions are proved: a fetch that failed half way leaves the messages it had found
behind, and the next one emits them again (`RetryAfterError`); and the anchor is taken from the message after
the incoming filters have been at it, so that for a message without a token an edited body may not lead to the
right page (`PageIff`, with the run `EditedBodyEndsPaging`). Delivery reports find the message they are about,
wherever later insertions have moved it.

**Message escaping** (`TextReplace`, `EscapePasses`, `Placeholders`, `MessagePieces`, `TextParser`,
`MessageEscapeFilter`, `RenderedLinks`). `FilterMessage` is related, for every message, to a piece by piece
description without offsets and placeholders. The result is the intended one if and only if no plain text
contains the placeholder of a link of the message and no link the placeholder of a later link
(`FilterIsIntended`); otherwise links appear where nobody wrote them (`HandwrittenPlaceholder`). Both halves of
the result can be read back: the links (`FilterAndRead`) and the escaped text (`PassesRoundTrip`).

**Presences** (`Presence`, `PresenceList`, `PresenceStorage`, `PresenceModel`, `PresenceReplication`). The list
is sorted by availability, then by message, and free of duplicates under a toggle, and survives saving and
reloading exactly for the lists described in `ReloadRestores`. Replicated by broadcasts, all models head for the
same set at every point of every run; whatever list they start with, their lists are equal in all quiet states
if and only if the language's comparison tells all messages apart (`ListsAgreeIffNoTies`). For a tie with the
empty message alone, the run that brings them apart begins with a default being removed.

**Global presence** (`GlobalPresence`). A report equal to the cached value skips the computation. No value is
ever too low, and every report of a change by an enabled account and every newly enabled account makes the
values concerned right, whatever happened before. They are wrong only at the start without any account, although
a comment asks for "offline" then, and after the account that alone had the cached value is disabled, until an
enabled account reports again or a disabled one reports something else; all are exact conditions. The header
(`KTp/global-presence.h:127-131`) and a comment (`KTp/global-presence.cpp:262-271`) say that the requested
presence takes precedence for the current one as soon as an account has it. The code does not look at it:
`RequestedIsCurrent` says exactly when it comes out nevertheless, and `RequestNotShown` is a case in which it
does not.

**Log importer** (`LogsImporter`). The messages of a log are saved once each and in order, split into days. Only
days of the month are compared, so a document can hold two dates; `SavedDates` says exactly when.

## Model

| member | source | states |
|---|---|---|
| `GroupingProxy.AbstractGroupingProxyModel.AddProxyNode` | KTp/Models/abstract-grouping-proxy-model.cpp:214-230 | appends one complete copy of the item's subtree as last child and enters every new node in the proxy index; nothing else changes |
| `GroupingProxy.AbstractGroupingProxyModel.RemoveProxyNodes` | KTp/Models/abstract-grouping-proxy-model.cpp:232-257 | exactly the subtrees of the proxies and the unforced groups that become empty are gone, from the tree and from both indexes |
| `GroupingProxy.AbstractGroupingProxyModel.RemoveKids` | KTp/Models/abstract-grouping-proxy-model.cpp:237-241 | removing `child(0)` once per source child removes all that is below the proxy, and only that |
| `GroupingEdits.KidRemoval` | KTp/Models/abstract-grouping-proxy-model.cpp:238-241 | in round i, `child(0)` is the proxy of source child i, and its removal takes only what is below it |
| `GroupingProxy.AbstractGroupingProxyModel.ItemForGroup` | KTp/Models/abstract-grouping-proxy-model.cpp:368-378 | a known entry as it is, be it null, or else a new unforced empty group; in a sound state always the one live group item of that name |
| `GroupingProxy.AbstractGroupingProxyModel.ForceGroup` | KTp/Models/abstract-grouping-proxy-model.cpp:151-155 | the name joins the forced groups, the tree stays in step |
| `GroupingProxy.AbstractGroupingProxyModel.UnforceGroup` | KTp/Models/abstract-grouping-proxy-model.cpp:157-172 | the name leaves the forced groups and an empty group goes; the invariant survives if and only if the group was known, otherwise a null entry is left in the group index |
| `GroupingProxy.AbstractGroupingProxyModel.GroupChanged` | KTp/Models/abstract-grouping-proxy-model.cpp:174-180 | names the header whose change is announced; keeps the invariant if and only if the group is known |
| `GroupingProxy.AbstractGroupingProxyModel.UnforceUnknown` | KTp/Models/abstract-grouping-proxy-model.cpp:157-172 | after an unknown group was unforced, its name gives a null item, which is what forcing the group or adding a row to it then uses |
| `GroupingProxy.AbstractGroupingProxyModel.OnRowsInserted` | KTp/Models/abstract-grouping-proxy-model.cpp:190-210 | the tree mirrors the new source if and only if the rows are top-level, or their parent has no proxies, or they are at its end; new rows then have their proxies in exactly their groups, and every proxy of the parent has the new children behind the old ones |
| `GroupingProxy.AbstractGroupingProxyModel.OnRowsRemoved` | KTp/Models/abstract-grouping-proxy-model.cpp:263-278 | the tree, the indexes and the cache fit the source without the rows: no row from start to end, both included, has a proxy left; the other rows are in exactly their groups, and below every proxy of the parent are the other children, in order |
| `GroupingProxy.AbstractGroupingProxyModel.OnDataChanged` | KTp/Models/abstract-grouping-proxy-model.cpp:286-337 | rows have moved to their new groups: every row has proxies in exactly the groups it says; unchanged ones were skipped rightly |
| `GroupingProxy.AbstractGroupingProxyModel.RegroupRow` | KTp/Models/abstract-grouping-proxy-model.cpp:294-328 | whether the cache skips the work or not, the row ends up in exactly its new groups and the cache holds them |
| `GroupingProxy.AbstractGroupingProxyModel.SortProxies` | KTp/Models/abstract-grouping-proxy-model.cpp:301-316 | the loop finds exactly the proxies in groups the row has left, and exactly the groups it has newly joined |
| `GroupingProxy.AbstractGroupingProxyModel.Load` | KTp/Models/abstract-grouping-proxy-model.cpp:340-349 | the rows that are there are shown; groups forced before stay forced |
| `GroupingProxy.AbstractGroupingProxyModel.SourceReset` | KTp/Models/abstract-grouping-proxy-model.cpp:355-366 | from any state at all, the new source is shown, the invariant holds, and no group is forced any more |
| `GroupingRuns.Handle` | KTp/Models/abstract-grouping-proxy-model.cpp:340-366 | every event moves the model exactly as it moves the specification, which has a source and forced groups but no tree |
| `GroupingRuns.Play` | KTp/Models/abstract-grouping-proxy-model.cpp:151-378 | after every possible run the tree shown is the one built from scratch from the final source and forced groups |
| `GroupingTheorems.DisplayIsRebuilt` | KTp/Models/abstract-grouping-proxy-model.cpp:183-210 | the group nodes are exactly the forced and the non-empty groups, each with one subtree copy of every row in it, counted |
| `GroupingTheorems.DrawnIsSubtree` | KTp/Models/abstract-grouping-proxy-model.cpp:214-230 | every subtree shown is a copy of its item's subtree, in order |
| `GroupingTheorems.ShownGroups` | KTp/Models/abstract-grouping-proxy-model.cpp:246-255 | the known groups are the forced ones and those of some row, no others |
| `GroupingTheorems.HistoryDoesNotMatter` | KTp/Models/abstract-grouping-proxy-model.cpp:355-366 | updates one by one and a reset lead to the same tree |
| `GroupingTheorems.OneProxyPerGroup` | KTp/Models/abstract-grouping-proxy-model.cpp:214-278 | the proxy index has exactly one proxy of an item per group of its top-level ancestor |
| `GroupingTheorems.ProxiesOfChild` | KTp/Models/abstract-grouping-proxy-model.cpp:225-228 | the proxies of a child and of its parent correspond one to one, group by group |
| `GroupingTheorems.ProxyCount` | KTp/Models/abstract-grouping-proxy-model.cpp:221-223 | an item has as many proxies as its top-level ancestor has groups |
| `GroupingTheorems.ProxiesAreAttached` | KTp/Models/abstract-grouping-proxy-model.cpp:237-244 | no proxy of a removed item is left in the index |
| `GroupingTheorems.CachedGroupsAreShown` | KTp/Models/abstract-grouping-proxy-model.cpp:298-328 | a non-empty cached group set is the set of groups that hold the row's proxies |
| `TreeProxies.GroupsOfContact` | KTp/Models/groups-tree-proxy-model.cpp:43-55 | never empty; the contact's groups, or "_unsorted" |
| `TreeProxies.GroupsOfAccount` | KTp/Models/accounts-tree-proxy-model.cpp:53-61 | always exactly one group |
| `TreeProxies.SourcesAreGrouped` | KTp/Models/groups-tree-proxy-model.cpp:43-55 | both proxies meet the hypothesis that every row has a group |
| `TreeProxies.AccountsTreeProxyModel.OnAccountAdded` | KTp/Models/accounts-tree-proxy-model.cpp:101-108 | forces the header of a valid account and listens to its changes from then on |
| `TreeProxies.AccountsTreeProxyModel.OnAccountRemoved` | KTp/Models/accounts-tree-proxy-model.cpp:110-113 | takes the header away; sound if and only if it is there |
| `TreeProxies.AccountsTreeProxyModel.OnAccountChanged` | KTp/Models/accounts-tree-proxy-model.cpp:95-99 | sound if and only if the account still has its header |
| `TreeProxies.InvalidAccountRemoved` | KTp/Models/accounts-tree-proxy-model.cpp:101-113 | for any sound proxy: an account without contacts that is not valid when it is enabled breaks the group index when it is disabled |
| `TreeProxies.ChangedAfterRemoval` | KTp/Models/accounts-tree-proxy-model.cpp:95-113 | for any sound proxy: a valid account without contacts is enabled and disabled, and its next change of name or icon breaks the group index, as nothing disconnected it |
| `ChatHistory.BeforeWithoutAnchor` | KTp/Logger/scrollback-manager.cpp:187-222 | without an anchor the whole log counts |
| `ChatHistory.BeforeUnknownAnchor` | KTp/Logger/scrollback-manager.cpp:219-221 | an anchor that is on no day finds nothing |
| `ChatHistory.BeforeKnownAnchor` | KTp/Logger/scrollback-manager.cpp:202-222 | otherwise all days before the newest one that has it, and that one up to its first match |
| `ChatHistory.BeforeInLog` | KTp/Logger/scrollback-manager.cpp:180-222 | with distinct keys, what comes before the anchor of message j is the log up to j |
| `ChatHistory.BeforeByFields` | KTp/Logger/scrollback-manager.cpp:187-222 | the same by the fields: times are written injectively and equally long, so messages without a token may repeat a text or a time but not both, and the token, or the written time and the text, leads to the log up to that message |
| `ChatHistory.ProcessedAnchor` | KTp/Logger/scrollback-manager.cpp:187-222 | looking up any key gives the log up to message j if and only if it is the key of message j, or j is the first and no message has the key |
| `Scrollback.ScrollbackManager.FetchHistory` | KTp/Logger/scrollback-manager.cpp:120-134 | starts a fetch, or emits nothing at once |
| `Scrollback.ScrollbackManager.OnDatesFinished` | KTp/Logger/scrollback-manager.cpp:136-162 | asks for the newest day, or emits nothing on an error or an empty log |
| `Scrollback.ScrollbackManager.OnEventsFinished` | KTp/Logger/scrollback-manager.cpp:164-264 | caches and asks for one more day only when there are too few messages and a day is left; else emits and empties both caches; an error leaves them filled |
| `Scrollback.ScrollbackManager.FindAnchor` | KTp/Logger/scrollback-manager.cpp:187-200 | stops at the first message whose token is the anchor, or which has no token and whose written time and text are; at the end when there is none |
| `Scrollback.ScrollbackManager.ProcessLast` | KTp/Logger/scrollback-manager.cpp:249-258 | the last messages without the queued ones, processed, in order |
| `Scrollback.ScrollbackManager.Fetch` | KTp/Logger/scrollback-manager.cpp:120-264 | for every log, queue and anchor: the last messages before the anchor; the days read are the newest ones and no more than needed; both caches are empty afterwards |
| `HistoryRuns.FetchBefore` | KTp/Logger/scrollback-manager.cpp:120-264 | a fetch before the token, or the written time and the text, of any message of the log gives exactly the messages right before it, although texts repeat |
| `Scrollback.FetchRound` | KTp/Logger/scrollback-manager.cpp:232-247 | stopping early gives the same answer as reading every day |
| `Scrollback.FewerDaysDoNotDecide` | KTp/Logger/scrollback-manager.cpp:232-247 | reading fewer days than the fetch does would not determine the answer: there are older days for which it is another one |
| `Scrollback.ScrollbackManager.FailAt` | KTp/Logger/scrollback-manager.cpp:164-171 | a fetch whose query for a day fails emits nothing and leaves exactly the messages of the newer days in the cache |
| `Scrollback.ScrollbackManager.RetryAfterError` | KTp/Logger/scrollback-manager.cpp:164-264 | the same fetch after such an error emits those messages a second time; it is right if and only if the days that had arrived gave none |
| `Scrollback.StaleCacheSpoils` | KTp/Logger/scrollback-manager.cpp:224-230 | a cache with anything in it is wrong for some log, an empty one for none |
| `MessagesModel.MessagesModel.OnHistoryFetched` | KTp/Declarative/messages-model.cpp:192-225 | puts in front, in order, the fetched messages that differ from the first one shown in text, time or sender, up to the first that agrees in all three; all of them when nothing is shown; keeps every token on its message |
| `MessagesModel.MessagesModel.FindShown` | KTp/message.cpp:218-223 | the search loop stops exactly there: messages are equal by text, time and sender, the token does not count |
| `MessagesModel.MessagesModel.OnMessageReceived` | KTp/Declarative/messages-model.cpp:227-302 | inserts a text, with the time it was sent or else received, at the row of the newest older message, at the top without one, at the end without a time; a report changes one row |
| `MessagesModel.MessagesModel.OnReport` | KTp/Declarative/messages-model.cpp:230-267 | changes the status of exactly the message last sent with the token, if there is one, to failed, delivered, read or unknown as the report says |
| `MessagesModel.MessagesModel.OnMessageSent` | KTp/Declarative/messages-model.cpp:304-330 | appends the message and records its token |
| `MessagesModel.TracksInsertion` | KTp/Declarative/messages-model.cpp:209-216 | inserting rows anywhere keeps every recorded token on its message |
| `MessagesModel.TokenLeadsToMessage` | KTp/Declarative/messages-model.cpp:240-247 | a recorded token leads to the message sent last with it and to no other |
| `MessagesModel.MessagesModel.SetContactData` | KTp/Declarative/messages-model.cpp:181-190 | the first load: the last messages of the log in front of what is there; nothing the second time, without an account, or without a log |
| `MessagesModel.MessagesModel.FetchMoreHistory` | KTp/Declarative/messages-model.cpp:513-527 | one page of at most ten messages before the first one shown; nothing when no history was loaded, without an account, or without a log |
| `MessagesModel.MessagesModel.FetchPage` | KTp/Declarative/messages-model.cpp:513-527 | where the list begins with message j of the log, the page is the right one if and only if the key of the first message shown fits, which filters may have changed |
| `MessagesModel.PageIff` | KTp/Declarative/messages-model.cpp:521-526 | exactly which keys fit: that of message j, that of a later one among the first eleven, or one that is nowhere when j is the first; without any key, logs of at most ten messages |
| `MessagesModel.PageStep` | KTp/Declarative/messages-model.cpp:192-225 | if processing keeps the keys, a page is exactly the ten log messages before the first one shown |
| `MessagesModel.MessagesModel.PageBack` | KTp/Declarative/messages-model.cpp:513-527 | paging repeatedly adds the log without gap, duplicate or reordering, back to its beginning |
| `HistoryRuns.WholeConversation` | KTp/Declarative/messages-model.cpp:181-225 | the first load and then paging: the end of the log is shown, and exactly the whole log after enough pages |
| `HistoryRuns.EditedBodyEndsPaging` | KTp/Declarative/messages-model.cpp:521-526 | two messages without tokens, the newer one of which is escaped: the older one is never shown |
| `LoggerDates.PendingLoggerDates.constructor` | KTp/Logger/pending-logger-dates-impl.cpp:29-47 | one operation per backend that handles the account and starts one; finished at once without backends |
| `LoggerDates.PendingLoggerDates.OperationFinished` | KTp/Logger/pending-logger-dates-impl.cpp:54-80 | merges the dates without duplicates; finished with the last operation, then sorted |
| `LoggerDates.FinishAll` | KTp/Logger/pending-logger-dates-impl.cpp:54-80 | in any order of completion: finished once, with the ascending union of all dates |
| `LoggerDates.OrderDoesNotMatter` | KTp/Logger/pending-logger-dates-impl.cpp:65-78 | two orders of completion give the same list |
| `LoggerDates.SortAscending` | KTp/Logger/pending-logger-dates-impl.cpp:74-76 | sorting a list without duplicates gives strictly ascending dates |
| `TextParser.ExtractUrlData` | KTp/text-parser.cpp:51-88 | ends; each range is what a search from the end of the one before finds, and each URL is the text of its range with "mailto:", "ftp://" or "http://" in front when it has no protocol |
| `TextParser.MatchesFrom` | KTp/text-parser.cpp:63-68 | ranges are non-empty, inside the text, in order and disjoint |
| `TextParser.MatchesAreComplete` | KTp/text-parser.cpp:63-68 | each match is what a search from the end of the one before finds, and nothing is found after the last |
| `MessageEscapeFilter.PlacePlaceholders` | KTp/message-escape-filter.cpp:48-75 | the loop with its running offset gives the text with a placeholder for every link, mail addresses left in place |
| `MessageEscapeFilter.PiecesFaithful` | KTp/message-escape-filter.cpp:53-73 | the pieces put together are the original message, and links are numbered upwards |
| `MessageEscapeFilter.RangeShifted` | KTp/message-escape-filter.cpp:57-71 | a shifted range holds the characters of the original range |
| `MessageEscapeFilter.ProgressStep` | KTp/message-escape-filter.cpp:53-73 | after each step the text is a rewritten prefix and the untouched rest |
| `MessageEscapeFilter.FilterMessage` | KTp/message-escape-filter.cpp:44-90 | for every message, the result piece by piece; if and only if there is no stray placeholder, it is the escaped text with `<a href="` address `">` text `</a>` for each link |
| `MessageEscapeFilter.IntendedIsRendered` | KTp/message-escape-filter.cpp:56-74 | the intended result written out: the encoded address of the repaired URL between the quotes, the text as written between the tags, mail addresses as plain text |
| `RenderedLinks.RenderedReadBack` | KTp/message-escape-filter.cpp:58-58 | reading such a result by its quotes and angle brackets gives exactly the addresses and texts of the links, in order, and without the tags the escaped text with the links as written |
| `RenderedLinks.FilterAndRead` | KTp/message-escape-filter.cpp:44-90 | so the filter followed by that reader gives back the links of every message without stray placeholders |
| `MessageEscapeFilter.OrdinaryMessage` | KTp/message-escape-filter.cpp:60-64 | it is enough that the mark of the placeholders occurs neither in the message nor in a link |
| `MessagePieces.FilterIsIntended` | KTp/message-escape-filter.cpp:77-88 | escaped text with unescaped links between, if and only if no stray placeholder is there |
| `MessagePieces.FilterByPieces` | KTp/message-escape-filter.cpp:77-88 | for all messages, rewriting and putting back work on every piece separately |
| `MessagePieces.PassesByPieces` | KTp/message-escape-filter.cpp:77-83 | the passes leave placeholders alone |
| `MessagePieces.ReplaceByPieces` | KTp/message-escape-filter.cpp:85-88 | putting one link back works on every piece separately |
| `MessagePieces.StrayPlaceholder` | KTp/message-escape-filter.cpp:85-88 | a placeholder written by hand in front of its link becomes the link too |
| `MessageEscapeFilter.HandwrittenPlaceholder` | KTp/message-escape-filter.cpp:44-90 | the filter run on such a message: the link comes out twice, and the text written is gone |
| `MessageEscapeFilter.WithoutLinks` | KTp/message-escape-filter.cpp:77-83 | a message without links is just escaped |
| `Placeholders.SameStart` | KTp/message-escape-filter.cpp:60-60 | the placeholders of different links cannot be confused, however their numbers begin |
| `Placeholders.PlainBoundary` | KTp/message-escape-filter.cpp:85-88 | no placeholder begins in plain text and ends behind it |
| `Placeholders.PlaceholderBoundary` | KTp/message-escape-filter.cpp:85-88 | no placeholder begins inside another one |
| `EscapePasses.PassesRoundTrip` | KTp/message-escape-filter.cpp:77-83 | decoding gives the text back with carriage returns as line feeds and tabs as four spaces; nothing in the result can be taken for markup |
| `EscapePasses.PassesVisible` | KTp/message-escape-filter.cpp:79-83 | no two adjacent spaces, line feeds, carriage returns or tabs are left |
| `EscapePasses.EntitiesAnywhere` | KTp/message-escape-filter.cpp:77-77 | wherever they stand, the four characters of markup become their own entities |
| `EscapePasses.LeadingSpaceKept` | KTp/message-escape-filter.cpp:79-79 | a space after a line feed is kept visible, wherever it stands |
| `EscapePasses.TabKept` | KTp/message-escape-filter.cpp:82-82 | a tab becomes four spaces that do not collapse |
| `EscapePasses.PassesAround` | KTp/message-escape-filter.cpp:77-83 | the passes work separately on both sides of a stretch without special characters |
| `EscapePasses.PassesKeepOccurrences` | KTp/message-escape-filter.cpp:77-83 | a placeholder occurs after the passes if and only if it did before |
| `Presence.Trichotomy` | KTp/presence.cpp:79-109 | `<`, `==` and `>` exclude each other and cover all pairs |
| `Presence.LessTransitive` | KTp/presence.cpp:95-104 | `<` is transitive |
| `Presence.OfflineIsLeast` | KTp/presence.cpp:131-155 | nothing is below plain offline |
| `Presence.ByAvailability` | KTp/presence.cpp:131-155 | available, busy, away, extended away, hidden, no presence, offline: the earlier one is greater, whatever the messages |
| `Presence.ByFirstDifference` | KTp/presence.cpp:95-104 | messages compare by the first character in which they differ |
| `PresenceModel.PresenceModel.FindRow` | KTp/Models/presence-model.cpp:223-233 | halving finds the first place that is not before the presence |
| `PresenceModel.PresenceModel.ModifyModel` | KTp/Models/presence-model.cpp:215-239 | toggles the presence; afterwards the more available presences come first, equally available ones have ascending messages, and none is there twice |
| `PresenceList.OrderedIsArranged` | KTp/Models/presence-model.cpp:225-233 | a list is sorted by the comparison if and only if it is arranged like that |
| `PresenceModel.PresenceModel.AddPresence` | KTp/Models/presence-model.cpp:241-249 | adds once, broadcasts only a change, returns the row of the presence |
| `PresenceModel.PresenceModel.RemovePresence` | KTp/Models/presence-model.cpp:251-257 | removes, and broadcasts only a change |
| `PresenceModel.BroadcastAgrees` | KTp/Models/presence-model.cpp:259-274 | the broadcast makes any receiver agree with the sender about this presence and changes nothing else |
| `PresenceModel.PresenceModel.PropagationChange` | KTp/Models/presence-model.cpp:80-92 | a broadcast makes the list contain the presence or not, as it says; an invalid presence is ignored |
| `PresenceModel.PresenceModel.LoadDefaultPresences` | KTp/Models/presence-model.cpp:182-190 | leaves exactly available, busy, away, extended away, hidden, offline, in this order |
| `PresenceModel.PresenceModel.LoadCustomPresences` | KTp/Models/presence-model.cpp:192-213 | in any order of the keys, exactly the entries that can be set are added |
| `PresenceModel.PresenceModel.LoadEntry` | KTp/Models/presence-model.cpp:199-211 | an available, away, busy or extended away entry is toggled in with its message and the status name of its type; any other one is ignored |
| `PresenceModel.PresenceModel.SyncCustomPresencesToDisk` | KTp/Models/presence-model.cpp:64-78 | stores exactly the presences with a message, each under its own key |
| `PresenceModel.PresenceModel.SaveAndReload` | KTp/Models/presence-model.cpp:64-78 | the same presences come back if and only if the defaults are there, those with a message can be set, and those without are defaults |
| `PresenceStorage.ConfigKeyInjective` | KTp/Models/presence-model.cpp:73-74 | different entries have different keys |
| `PresenceStorage.EntriesApart` | KTp/Models/presence-model.cpp:194-211 | loading never toggles an entry or a default out again |
| `PresenceStorage.ReloadRestores` | KTp/Models/presence-model.cpp:172-213 | exactly which sets of presences a reload restores |
| `PresenceList.ToggleKeepsOrder` | KTp/Models/presence-model.cpp:215-239 | for every total preorder of messages the toggle keeps the list sorted and free of duplicates |
| `PresenceList.ToggleKeys` | KTp/Models/presence-model.cpp:215-239 | on the set of presences it is the exclusive or |
| `PresenceList.AddThenRemove` | KTp/Models/presence-model.cpp:215-239 | adding and removing restores the very list |
| `PresenceList.RemoveThenAdd` | KTp/Models/presence-model.cpp:215-239 | removing and adding restores the set, and the list if and only if no presence before it ties with it |
| `PresenceReplication.OwnBroadcast` | KTp/Models/presence-model.cpp:80-92 | a change made at once and again by its own broadcast is the change made in broadcast order |
| `PresenceReplication.RunConverges` | KTp/Models/presence-model.cpp:80-92 | at every point of every run, each model's set after its pending broadcasts is the same |
| `PresenceReplication.QuietModelsAgree` | KTp/Models/presence-model.cpp:241-274 | models that start equal have equal sets whenever nothing is in flight |
| `PresenceReplication.OrderDetermined` | KTp/Models/presence-model.cpp:225-233 | without ties the sorted list is determined by the set |
| `PresenceReplication.TieDiverges` | KTp/Models/presence-model.cpp:225-236 | from any common list without them, two models that each add one of two tied presences end with different lists |
| `PresenceReplication.AnyListDiverges` | KTp/Models/presence-model.cpp:215-274 | from any common list at all, a tie can bring two models apart |
| `PresenceReplication.ListsAgreeIffNoTies` | KTp/Models/presence-model.cpp:215-274 | for each list to start with, the defaults included, quiet models always show the same list if and only if the comparison has no ties |
| `GlobalPresence.GlobalPresence.OnCurrentPresenceChanged` | KTp/global-presence.cpp:254-296 | skips when the report equals the cached value; otherwise the most available presence of all accounts, announced if it changed |
| `GlobalPresence.GlobalPresence.OnRequestedPresenceChanged` | KTp/global-presence.cpp:298-318 | the same for the requested presences |
| `GlobalPresence.GlobalPresence.OnChangingPresence` | KTp/global-presence.cpp:320-341 | skips, or whether any account is changing its presence |
| `GlobalPresence.GlobalPresence.OnConnectionStatusChanged` | KTp/global-presence.cpp:343-373 | skips, or connecting before connected before disconnected; only then the error flag is refreshed |
| `GlobalPresence.GlobalPresence.SetAccountManager` | KTp/global-presence.cpp:57-76 | after the start each value is right if and only if there is an account or it was right for none; "unset" is not; none is too low |
| `GlobalPresence.GlobalPresence.AccountChangesPresence` | KTp/global-presence.cpp:254-296 | in every reachable state, a report of an enabled account makes the current presence right, skipped or not; one of a disabled account does unless it reports the outdated value itself |
| `GlobalPresence.GlobalPresence.AccountChangesRequest` | KTp/global-presence.cpp:298-318 | likewise for the requested presence |
| `GlobalPresence.GlobalPresence.AccountChangesFlag` | KTp/global-presence.cpp:320-341 | likewise for the changing flag |
| `GlobalPresence.GlobalPresence.AccountChangesStatus` | KTp/global-presence.cpp:343-373 | likewise for the connection status |
| `GlobalPresence.GlobalPresence.EnableAccount` | KTp/global-presence.cpp:229-252 | makes all values right, whatever they were |
| `GlobalPresence.GlobalPresence.DisableAccount` | KTp/global-presence.cpp:229-252 | a value stays right if and only if it was not the one of that account, or is the resting value, or another account has it too |
| `GlobalPresence.GlobalPresence.DisabledGoesOffline` | KTp/global-presence.cpp:229-240 | nothing disconnects a disabled account, and once it has reported that it is offline its part of the values is right again |
| `GlobalPresence.RequestedIsCurrent` | KTp/global-presence.cpp:256-278 | when some account has the requested presence, it is the current one if and only if no account is more available |
| `GlobalPresence.RequestNotShown` | KTp/global-presence.cpp:256-278 | two accounts asked to be busy, one of which stays available: available is shown |
| `GlobalPresence.HighestUnique` | KTp/global-presence.cpp:280-288 | the aggregate is determined up to `==`, whatever the order of the accounts |
| `GlobalPresence.HighestWithout` | KTp/global-presence.cpp:280-288 | when the skipped value is still the aggregate without an account |
| `GlobalPresence.ReportIsRight` | KTp/global-presence.cpp:282-284 | why skipping is sound: an account now has the cached value and none has a higher one |
| `LogsImporter.Importer.ConvertKopeteMessage` | KTp/logs-importer-private.cpp:237-293 | skips a message without a valid time; saves and starts a new document when the day changes; keeps time, nick and text, and takes the room off senders once one came from it |
| `LogsImporter.Importer.ConvertKopeteLog` | KTp/logs-importer-private.cpp:295-372 | converts nothing without a head of three elements with year, month, own and contact identity, and counts an error only for the first; otherwise saves every message with a valid time once, in file order, by days, and the last document too |
| `LogsImporter.RoomStripped` | KTp/logs-importer-private.cpp:268-281 | of a sender in a chat room the separator and the name stay, so "isuser" is set only for an own identity of that form |
| `LogsImporter.Importer.ReadHead` | KTp/logs-importer-private.cpp:344-357 | the last date, own and contact element count, each; without one it stays empty |
| `LogsImporter.HeadByElements` | KTp/logs-importer-private.cpp:344-357 | what the head says, for any number and order of elements |
| `LogsImporter.SplitUnique` | KTp/logs-importer-private.cpp:252-258 | there is only one way to split messages into days so that neighbours differ |
| `LogsImporter.SavedUnique` | KTp/logs-importer-private.cpp:363-371 | the saved documents, with their place in the chat room or contact folder, are determined by the log |
| `LogsImporter.SavedTexts` | KTp/logs-importer-private.cpp:363-371 | the k-th message saved has the time, nick and text of the k-th message with a valid time |
| `LogsImporter.SavedDates` | KTp/logs-importer-private.cpp:252-258 | each document has a single UTC date if and only if no two messages in a row are of the same day of different months |
| `LogsImporter.MonthsShareDocument` | KTp/logs-importer-private.cpp:252-258 | a log whose only document holds two dates |

## Left out

- Items of the proxy tree are entries of a store keyed by number, not heap objects; aliasing between item objects is not modelled.
- Persistent indexes are stable identities of source items; how Qt moves them is not part of the model, except in the list of messages, where they shift with insertions.
- Other redraw and data-changed signals, roles, icons and texts of all models.
- Rows moved or sorted inside a source, and signals of a source before the proxy has loaded it.
- GroupingProxy.AbstractGroupingProxyModel.UnforceUnknown: shows the null item; the crash of the event that uses it is not modelled, nor what other events do in between.
- GroupingProxy.AbstractGroupingProxyModel.OnDataChanged: does not model that the proxies of the changed rows are announced as changed.
- Nested rows inserted in the middle of their parent: it is proved that the order is then wrong, not how it goes on.
- Messages that arrive while a fetch is running, and fetches that overlap; `setTextChannel` can start a second one.
- Scrollback.ScrollbackManager.Fetch: describes fetches without errors; FailAt and RetryAfterError describe those with one, and the slots all answers.
- MessagesModel.MessagesModel.OnMessageReceived: the order of messages by time is not claimed, because a message is put at the row of the newest older message and not behind it; acknowledging and the unread count are not modelled.
- Visibility, and the comparison with the message queue in `setTextChannel`.
- LoggerDates.FinishAll: needs at least one started operation; if no backend starts one, finished is never announced.
- The regular expression for URLs, `QUrl` and the message processor are arbitrary functions; a match is assumed to be inside the text, at or behind the start of the search, and not empty.
- RenderedLinks.FilterAndRead: needs encoded addresses without quotes and URLs without `<`, as `QUrl` and the pattern make them; both are arbitrary functions here.
- ChatHistory.BeforeByFields: needs every time to be written in its own way and equally long; how ISO dates do that is not part of this model.
- Unicode beyond single characters in case folding and `toHtmlEscaped`.
- `localeAwareCompare` is any total preorder; the configuration is a map, read in an arbitrary order of keys.
- Broadcasts that are lost, or that arrive in different orders at different models.
- GlobalPresence.GlobalPresence.OnConnectionStatusChanged: no invariant is claimed for `hasConnectionError`, because a skipped report does not refresh it.
- Setting the presence of all accounts, the status handler service, and online accounts.
- XML, Kopete's HTML wrapping, the parsing of times and the time zone are an arbitrary function from the head and the time text to an optional moment.
- LogsImporter.Importer.SaveKTpDocument: documents are kept in the order in which they are saved; when a day recurs, the later file overwrites the earlier one, which is not modelled.
- Finding log files, account names and protocols of the importer.
- `ContactsFilterModel`, the OTR proxy, wallet and handler code, error texts, widgets.
