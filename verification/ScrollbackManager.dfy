/** Fetching the last messages of a conversation from the log, day by day. */
module Scrollback {
  import opened Sequences
  import opened ChatHistory

  type Date = int

  /** The answer of the logger to a query. */
  datatype Answer<+T> = Answer(value: T) | Error

  datatype Pending = Idle | AwaitDates | AwaitLogs(date: Date)

  function Max(a: int, b: int): int {
    if a < b then b else a
  }

  /** The newest day to read is `k`: with the days from `k` on there are enough messages, or no day is
      left; with fewer days there were not enough. */
  ghost predicate StopsAt(days: seq<seq<Message>>, anchor: string, iso: int -> string, stale: nat, length: int,
                          k: nat) {
    && k < |days|
    && (k == 0 || |Before(days[k..], anchor, iso)| + stale >= length)
    && forall e :: k < e < |days| ==> |Before(days[e..], anchor, iso)| + stale < length
  }

  /** Fewer days do not decide the answer: when only days from `e` on have been read, the older ones
      may be such that the answer is another one. */
  lemma FewerDaysDoNotDecide(days: seq<seq<Message>>, anchor: string, iso: int -> string, length: int, k: nat, e: nat)
    returns (other: seq<seq<Message>>)
    requires length > 0 && StopsAt(days, anchor, iso, 0, length, k) && k < e <= |days|
    ensures |other| == |days| && other[e..] == days[e..]
    ensures LastN(Before(other, anchor, iso), length) != LastN(Before(days, anchor, iso), length)
  {
    var rest := days[e..];
    assert |Before(rest, anchor, iso)| < length by { if e == |days| { assert rest == []; } }
    var none := NoOlder(rest, anchor, iso, e);
    var some := SomeOlder(rest, anchor, iso, e);
    var short, long := Before(none + rest, anchor, iso), Before(some + rest, anchor, iso);
    assert |LastN(short, length)| < |LastN(long, length)|;
    other := (if LastN(short, length) != LastN(Before(days, anchor, iso), length) then none else some) + rest;
    assert (none + rest)[e..] == rest && (some + rest)[e..] == rest;
  }

  lemma {:induction false} NoOlder(rest: seq<seq<Message>>, anchor: string, iso: int -> string, n: nat)
    returns (days: seq<seq<Message>>)
    ensures |days| == n
    ensures Before(days + rest, anchor, iso) == Before(rest, anchor, iso)
    ensures Remaining(days + rest, anchor, iso) == Remaining(rest, anchor, iso)
  {
    if n == 0 {
      days := [];
      assert days + rest == rest;
    } else {
      var fewer := NoOlder(rest, anchor, iso, n - 1);
      days := [[]] + fewer;
      assert days + rest == [[]] + (fewer + rest) && (days + rest)[1..] == fewer + rest;
      RemainingCases(fewer + rest, anchor, iso);
    }
  }

  /** The oldest day has a message before the anchor, and the anchor unless a newer day has it. */
  lemma SomeOlder(rest: seq<seq<Message>>, anchor: string, iso: int -> string, n: nat) returns (days: seq<seq<Message>>)
    requires n > 0
    ensures |days| == n
    ensures |Before(days + rest, anchor, iso)| > |Before(rest, anchor, iso)|
  {
    var empty := NoOlder(rest, anchor, iso, n - 1);
    var m, a := Message(anchor + "x", 0, "", ""), Message(anchor, 0, "", "");
    var day := [m, a];
    days := [day] + empty;
    assert days + rest == [day] + (empty + rest) && (days + rest)[1..] == empty + rest;
    assert m.token != anchor by { assert |m.token| == |anchor| + 1; }
    RemainingCases(empty + rest, anchor, iso);
    if Remaining(rest, anchor, iso) != "" {
      assert Key(day[0], iso) != anchor && Key(day[1], iso) == anchor;
      assert FirstMatch(day, anchor, iso) == 1;
    }
  }

  function Reverse<T>(s: seq<T>): seq<T> {
    if s == [] then [] else Reverse(s[1..]) + [s[0]]
  }

  /** What is emitted when `all` are the messages found. */
  function Emitted(all: seq<Message>, queue: Option<seq<string>>, length: int,
                   process: Message -> Message): seq<Message> {
    Map(process, Unqueued(LastN(all, length), Tokens(queue)))
  }

  function Tokens(queue: Option<seq<string>>): seq<string> {
    if queue.Some? then queue.value else []
  }

  class ScrollbackManager {
    const process: Message -> Message
    const iso: int -> string
    var scrollbackLength: int
    var accountSet: bool
    var contactValid: bool
    var messageQueue: Option<seq<string>>
    var datesCache: seq<Date>
    var messagesCache: seq<Message>
    var fromMessageToken: string
    var pending: Pending
    var fetched: seq<seq<Message>>
    ghost var queried: seq<Date>

    constructor (process: Message -> Message, iso: int -> string)
      ensures this.process == process && this.iso == iso
      ensures scrollbackLength == 10 && pending == Idle && !accountSet && !contactValid && messageQueue == None
      ensures datesCache == [] && messagesCache == [] && fetched == [] && queried == []
    {
      this.process, this.iso := process, iso;
      scrollbackLength := 10;
      accountSet, contactValid, messageQueue := false, false, None;
      datesCache, messagesCache, fromMessageToken := [], [], "";
      pending, fetched, queried := Idle, [], [];
    }

    method FetchHistory(n: int, anchor: string)
      requires pending == Idle
      modifies this
      ensures unchanged(`scrollbackLength, `accountSet, `contactValid, `messageQueue, `datesCache, `messagesCache,
        `queried)
      ensures if n > 0 && accountSet && contactValid
              then pending == AwaitDates && fromMessageToken == anchor && fetched == old(fetched)
              else pending == Idle && fetched == old(fetched) + [[]]
    {
      if n > 0 && accountSet && contactValid {
        fromMessageToken := anchor;
        pending := AwaitDates;
        return;
      }
      fetched := fetched + [[]];
    }

    method QueryLogs()
      requires datesCache != []
      modifies `datesCache, `pending, `queried
      ensures datesCache == old(datesCache)[..|old(datesCache)| - 1]
      ensures pending == AwaitLogs(old(datesCache)[|old(datesCache)| - 1])
      ensures queried == old(queried) + [old(datesCache)[|old(datesCache)| - 1]]
    {
      var date := datesCache[|datesCache| - 1];
      datesCache := datesCache[..|datesCache| - 1];
      pending := AwaitLogs(date);
      queried := queried + [date];
    }

    method OnDatesFinished(answer: Answer<seq<Date>>)
      requires pending == AwaitDates
      modifies this
      ensures unchanged(`scrollbackLength, `accountSet, `contactValid, `messageQueue, `messagesCache, `fromMessageToken)
      ensures answer.Error? || answer.value == [] ==>
        pending == Idle && fetched == old(fetched) + [[]] && datesCache == old(datesCache) && queried == old(queried)
      ensures answer.Answer? && answer.value != [] ==>
        var last := |answer.value| - 1;
        && pending == AwaitLogs(answer.value[last]) && datesCache == answer.value[..last]
        && queried == old(queried) + [answer.value[last]] && fetched == old(fetched)
    {
      if answer.Error? || answer.value == [] {
        pending := Idle;
        fetched := fetched + [[]];
        return;
      }
      datesCache := answer.value;
      QueryLogs();
    }

    /** A day of the log arrives.  An error ends the fetch and leaves what was collected in the cache. */
    method OnEventsFinished(answer: Answer<seq<Message>>)
      requires pending.AwaitLogs?
      modifies this
      ensures unchanged(`scrollbackLength, `accountSet, `contactValid, `messageQueue)
      ensures answer.Error? ==>
        && pending == Idle && fetched == old(fetched) + [[]]
        && unchanged(`datesCache, `messagesCache, `fromMessageToken, `queried)
      ensures answer.Answer? ==>
        var found := Contribution(answer.value, old(fromMessageToken), iso) + old(messagesCache);
        && fromMessageToken == Remaining([answer.value], old(fromMessageToken), iso)
        && if |found| < scrollbackLength && old(datesCache) != [] then
             var last := |old(datesCache)| - 1;
             && pending == AwaitLogs(old(datesCache)[last]) && datesCache == old(datesCache)[..last]
             && messagesCache == found && fetched == old(fetched)
             && queried == old(queried) + [old(datesCache)[last]]
           else
             && pending == Idle && datesCache == [] && messagesCache == []
             && fetched == old(fetched) + [Emitted(found, messageQueue, scrollbackLength, process)]
             && queried == old(queried)
    {
      if answer.Error? {
        pending := Idle;
        fetched := fetched + [[]];
        return;
      }
      var queuedMessageTokens := if messageQueue.Some? then messageQueue.value else [];
      hide Contribution, Remaining, Emitted;
      var allMessages := UpToAnchor(answer.value);
      allMessages := allMessages + messagesCache;

      if |allMessages| < scrollbackLength {
        if datesCache != [] {
          messagesCache := allMessages;
          QueryLogs();
          return;
        }
      }

      EmitLast(allMessages, queuedMessageTokens);
    }

    /** The end of a fetch that went well: both caches are empty again. */
    method EmitLast(allMessages: seq<Message>, queuedMessageTokens: seq<string>)
      requires queuedMessageTokens == if messageQueue.Some? then messageQueue.value else []
      modifies `pending, `datesCache, `messagesCache, `fetched
      ensures pending == Idle && datesCache == [] && messagesCache == []
      ensures fetched == old(fetched) + [Emitted(allMessages, messageQueue, scrollbackLength, process)]
    {
      hide Emitted;
      EmittedIs(allMessages, messageQueue, scrollbackLength, process);
      var messages := ProcessLast(allMessages, queuedMessageTokens);
      messagesCache := [];
      datesCache := [];
      pending := Idle;
      fetched := fetched + [messages];
    }

    /** While the anchor is not found yet, a day counts up to it, or not at all. */
    method UpToAnchor(day: seq<Message>) returns (allMessages: seq<Message>)
      modifies `fromMessageToken
      ensures allMessages == Contribution(day, old(fromMessageToken), iso)
      ensures fromMessageToken == Remaining([day], old(fromMessageToken), iso)
    {
      RemainingOne(day, fromMessageToken, iso);
      allMessages := day;
      if fromMessageToken != "" {
        var i := FindAnchor(allMessages);
        if i < |allMessages| {
          allMessages := allMessages[..i];
          fromMessageToken := "";
        } else {
          allMessages := [];
        }
      }
    }

    /** The search for the anchor in one day. */
    method FindAnchor(allMessages: seq<Message>) returns (i: nat)
      ensures i == FirstMatch(allMessages, fromMessageToken, iso)
      ensures i <= |allMessages|
      ensures forall k :: 0 <= k < i ==>
        var m := allMessages[k];
        if m.token == "" then iso(m.time) + m.body != fromMessageToken else m.token != fromMessageToken
      ensures i < |allMessages| ==>
        var m := allMessages[i];
        if m.token == "" then iso(m.time) + m.body == fromMessageToken else m.token == fromMessageToken
    {
      i := 0;
      while i < |allMessages|
        invariant i <= |allMessages|
        invariant forall k :: 0 <= k < i ==>
          var m := allMessages[k];
          if m.token == "" then iso(m.time) + m.body != fromMessageToken else m.token != fromMessageToken
        invariant FirstMatch(allMessages, fromMessageToken, iso)
          == i + FirstMatch(allMessages[i..], fromMessageToken, iso)
      {
        if allMessages[i].token == "" {
          var token := iso(allMessages[i].time) + allMessages[i].body;
          if token == fromMessageToken { return; }
        } else {
          if allMessages[i].token == fromMessageToken { return; }
        }
        i := i + 1;
      }
    }

    /** The loop over the last messages that skips the queued ones. */
    method ProcessLast(allMessages: seq<Message>, queuedMessageTokens: seq<string>) returns (messages: seq<Message>)
      ensures messages == Map(process, Unqueued(LastN(allMessages, scrollbackLength), queuedMessageTokens))
    {
      hide LastN, Unqueued;
      messages := [];
      UnqueuedAll([], queuedMessageTokens);
      var i := Max(|allMessages| - scrollbackLength, 0);
      ghost var start := i;
      assert i <= |allMessages| ==> allMessages[start..i] == [];
      while i < |allMessages|
        invariant start <= i && (i <= |allMessages| || i == start)
        invariant messages == Map(process,
          Unqueued(if i <= |allMessages| then allMessages[start..i] else [], queuedMessageTokens))
      {
        var message := allMessages[i];
        assert allMessages[start..i + 1] == allMessages[start..i] + [message];
        UnqueuedAppend(allMessages[start..i], message, queuedMessageTokens);
        if message.token !in queuedMessageTokens {
          messages := messages + [process(message)];
        }
        i := i + 1;
      }
      LastIs(allMessages, scrollbackLength);
    }

    /** A whole fetch without errors, answered by a logger that knows the given days.  Whatever an
        earlier fetch left in the cache is taken for newer messages. */
    method Fetch(n: int, anchor: string, dates: seq<Date>, logs: Date -> seq<Message>)
      requires pending == Idle
      modifies this
      ensures pending == Idle
      ensures unchanged(`scrollbackLength, `accountSet, `contactValid, `messageQueue)
      ensures n > 0 && accountSet && contactValid && dates != [] ==>
        var days := Map(logs, dates);
        && fetched == old(fetched)
          + [Emitted(Before(days, anchor, iso) + old(messagesCache), messageQueue, scrollbackLength, process)]
        && datesCache == [] && messagesCache == []
        && exists k: nat :: StopsAt(days, anchor, iso, |old(messagesCache)|, scrollbackLength, k)
                         && queried == old(queried) + Reverse(dates[k..])
      ensures !(n > 0 && accountSet && contactValid && dates != []) ==>
        && fetched == old(fetched) + [[]] && queried == old(queried)
        && datesCache == old(datesCache) && messagesCache == old(messagesCache)
    {
      hide Before, Remaining, Contribution, Emitted, StopsAt, Reverse;
      FetchHistory(n, anchor);
      if pending == Idle { return; }
      OnDatesFinished(Answer(dates));
      if pending == Idle { return; }
      ghost var days, stale, k: int := Map(logs, dates), old(messagesCache), |dates| - 1;
      FetchStarts(days, anchor, iso, stale, scrollbackLength);
      ReverseLast(dates);
      while pending.AwaitLogs?
        invariant pending == Idle || pending.AwaitLogs?
        invariant unchanged(`scrollbackLength, `accountSet, `contactValid, `messageQueue)
        invariant pending.AwaitLogs? ==> 0 <= k < |dates|
        invariant pending.AwaitLogs? ==> fetched == old(fetched) && datesCache == dates[..k] && pending.date == dates[k]
        invariant pending.AwaitLogs? ==>
          Collected(days, anchor, iso, stale, scrollbackLength, k, messagesCache, fromMessageToken)
        invariant pending.AwaitLogs? ==> queried == old(queried) + Reverse(dates[k..])
        invariant pending == Idle ==>
          fetched == old(fetched)
            + [Emitted(Before(days, anchor, iso) + stale, messageQueue, scrollbackLength, process)]
        invariant pending == Idle ==> datesCache == [] && messagesCache == []
        invariant pending == Idle ==> exists k: nat ::
          StopsAt(days, anchor, iso, |stale|, scrollbackLength, k) && k < |dates|
            && queried == old(queried) + Reverse(dates[k..])
        decreases |datesCache|, pending.AwaitLogs?
      {
        FetchRound(days, anchor, iso, stale, scrollbackLength, messageQueue, process, k, messagesCache,
          fromMessageToken);
        ReverseStep(dates, k);
        OnEventsFinished(Answer(logs(pending.date)));
        k := k - 1;
      }
    }

    /** A fetch that ends in an error: the days newer than `k` arrive and are not enough, the query for
        day `k` fails.  What those days gave stays in the cache. */
    method FailAt(n: int, anchor: string, dates: seq<Date>, logs: Date -> seq<Message>, k: nat)
      requires pending == Idle && n > 0 && accountSet && contactValid && k < |dates|
      requires Reaches(Map(logs, dates), anchor, iso, |messagesCache|, scrollbackLength, k)
      modifies this
      ensures pending == Idle && fetched == old(fetched) + [[]]
      ensures unchanged(`scrollbackLength, `accountSet, `contactValid, `messageQueue)
      ensures messagesCache == Before(Map(logs, dates)[k + 1..], anchor, iso) + old(messagesCache)
    {
      hide Before, Remaining, Contribution, Emitted, StopsAt;
      FetchHistory(n, anchor);
      OnDatesFinished(Answer(dates));
      ghost var days, stale := Map(logs, dates), old(messagesCache);
      FetchStarts(days, anchor, iso, stale, scrollbackLength);
      var at := |dates| - 1;
      while at > k
        invariant k <= at < |dates| && pending == AwaitLogs(dates[at]) && datesCache == dates[..at]
        invariant unchanged(`scrollbackLength, `accountSet, `contactValid, `messageQueue)
        invariant fetched == old(fetched)
        invariant Collected(days, anchor, iso, stale, scrollbackLength, at, messagesCache, fromMessageToken)
      {
        FetchRound(days, anchor, iso, stale, scrollbackLength, messageQueue, process, at, messagesCache,
          fromMessageToken);
        DayAdded(days, anchor, iso, stale, at);
        OnEventsFinished(Answer(logs(pending.date)));
        at := at - 1;
      }
      OnEventsFinished(Error);
    }

    /** The same fetch once more, this time without an error: it is right exactly if the days that had
        arrived before the error gave no message. */
    method RetryAfterError(n: int, anchor: string, dates: seq<Date>, logs: Date -> seq<Message>, k: nat)
      requires pending == Idle && n > 0 && accountSet && contactValid && k < |dates|
      requires messagesCache == [] && Reaches(Map(logs, dates), anchor, iso, 0, scrollbackLength, k)
      requires AllDiffer(Before(Map(logs, dates), anchor, iso), messageQueue, process)
      modifies this
      ensures
        var days := Map(logs, dates);
        && |fetched| == |old(fetched)| + 2 && fetched[..|old(fetched)|] == old(fetched)
        && fetched[|fetched| - 1] ==
             Emitted(Before(days, anchor, iso) + Before(days[k + 1..], anchor, iso),
                     messageQueue, scrollbackLength, process)
        && (fetched[|fetched| - 1] == Emitted(Before(days, anchor, iso), messageQueue, scrollbackLength, process)
            <==> Before(days[k + 1..], anchor, iso) == [])
    {
      hide Before, Emitted, StopsAt, Reverse, AllDiffer, Reaches;
      ghost var days := Map(logs, dates);
      ghost var older := BeforeSuffix(days, anchor, iso, k + 1);
      ghost var stale := Before(days[k + 1..], anchor, iso);
      ReachedShort(days, anchor, iso, scrollbackLength, k);
      FailAt(n, anchor, dates, logs, k);
      assert messagesCache == stale by { assert stale + [] == stale; }
      Fetch(n, anchor, dates, logs);
      StaleRepeats(older, stale, messageQueue, scrollbackLength, process);
    }
  }

  /** The days newer than `k` do not give enough messages, so day `k` is asked for. */
  ghost predicate Reaches(days: seq<seq<Message>>, anchor: string, iso: int -> string, stale: nat, length: int,
                          k: nat) {
    forall e :: k < e < |days| ==> |Before(days[e..], anchor, iso)| + stale < length
  }

  lemma ReachedShort(days: seq<seq<Message>>, anchor: string, iso: int -> string, length: int, k: nat)
    requires k < |days| && Reaches(days, anchor, iso, 0, length, k)
    ensures |Before(days[k + 1..], anchor, iso)| < length || Before(days[k + 1..], anchor, iso) == []
  {
    if k + 1 == |days| { assert days[k + 1..] == []; }
  }

  /** No message is queued, and no two come out alike. */
  ghost predicate AllDiffer(all: seq<Message>, queue: Option<seq<string>>, process: Message -> Message) {
    && (forall m :: m in all ==> m.token !in Tokens(queue))
    && (forall i, j :: 0 <= i < j < |all| ==> process(all[i]) != process(all[j]))
  }

  /** When the newest messages come twice, the answer is the same only if there are none of them. */
  lemma StaleRepeats(older: seq<Message>, stale: seq<Message>, queue: Option<seq<string>>, length: int,
                     process: Message -> Message)
    requires (|stale| < length || stale == []) && AllDiffer(older + stale, queue, process)
    ensures
      Emitted((older + stale) + stale, queue, length, process) == Emitted(older + stale, queue, length, process) <==>
        stale == []
  {
    var all := older + stale;
    if stale == [] {
      assert all + stale == all;
    } else {
      forall m | m in all + stale ensures m in all { }
      NothingQueued(all, queue, length, process);
      NothingQueued(all + stale, queue, length, process);
      RepeatDiffers(older, stale, length, process);
    }
  }

  lemma NothingQueued(all: seq<Message>, queue: Option<seq<string>>, length: int, process: Message -> Message)
    requires forall m :: m in all ==> m.token !in Tokens(queue)
    ensures Emitted(all, queue, length, process) == Map(process, LastN(all, length))
  {
    UnqueuedAll(LastN(all, length), Tokens(queue));
  }

  lemma RepeatDiffers(older: seq<Message>, stale: seq<Message>, length: int, process: Message -> Message)
    requires 0 < |stale| < length
    requires forall i, j :: 0 <= i < j < |older + stale| ==> process((older + stale)[i]) != process((older + stale)[j])
    ensures Map(process, LastN((older + stale) + stale, length)) != Map(process, LastN(older + stale, length))
  {
    var all := older + stale;
    var twice, once := LastN(all + stale, length), LastN(all, length);
    if |all| >= length {
      var at := length - 1 - |stale|;
      assert twice[at] == all[|all| - 1];
      assert once[at] == all[|all| - 1 - |stale|];
      assert process(twice[at]) != process(once[at]);
    }
  }

  /** The days newer than `k` are read, and were not enough. */
  ghost predicate Collected(days: seq<seq<Message>>, anchor: string, iso: int -> string, stale: seq<Message>,
                            length: int, k: nat, cache: seq<Message>, remaining: string)
    requires k < |days|
  {
    && cache == Before(days[k + 1..], anchor, iso) + stale
    && remaining == Remaining(days[k + 1..], anchor, iso)
    && forall e :: k < e < |days| ==> |Before(days[e..], anchor, iso)| + |stale| < length
  }

  lemma EmittedIs(all: seq<Message>, queue: Option<seq<string>>, length: int, process: Message -> Message)
    ensures Emitted(all, queue, length, process)
         == Map(process, Unqueued(LastN(all, length), if queue.Some? then queue.value else []))
  {
  }

  lemma LastIs(all: seq<Message>, length: int)
    ensures
      var start := Max(|all| - length, 0);
      LastN(all, length) == if start <= |all| then all[start..|all|] else []
  {
  }

  lemma RemainingOne(day: seq<Message>, anchor: string, iso: int -> string)
    ensures Remaining([day], anchor, iso) == if anchor == "" || Contains(day, anchor, iso) then "" else anchor
  {
    assert [day][1..] == [];
  }

  lemma FetchStarts(days: seq<seq<Message>>, anchor: string, iso: int -> string, stale: seq<Message>, length: int)
    ensures days != [] ==> Collected(days, anchor, iso, stale, length, |days| - 1, stale, anchor)
  {
    assert days[|days|..] == [];
  }

  lemma ReverseLast(dates: seq<Date>)
    ensures dates != [] ==> Reverse(dates[|dates| - 1..]) == [dates[|dates| - 1]]
  {
  }

  lemma ReverseStep(dates: seq<Date>, k: nat)
    requires k < |dates|
    ensures k > 0 ==> Reverse(dates[k - 1..]) == Reverse(dates[k..]) + [dates[k - 1]]
  {
    if k > 0 { assert dates[k - 1..][1..] == dates[k..]; }
  }

  /** One more day: either it was the last one needed, and older days would change nothing, or the
      next older one is read. */
  lemma FetchRound(days: seq<seq<Message>>, anchor: string, iso: int -> string, stale: seq<Message>, length: int,
                   queue: Option<seq<string>>, process: Message -> Message,
                   k: nat, cache: seq<Message>, remaining: string)
    requires k < |days| && Collected(days, anchor, iso, stale, length, k, cache, remaining)
    ensures
      var found := Contribution(days[k], remaining, iso) + cache;
      if |found| < length && k > 0 then
        Collected(days, anchor, iso, stale, length, k - 1, found, Remaining([days[k]], remaining, iso))
      else
        && StopsAt(days, anchor, iso, |stale|, length, k)
        && Emitted(found, queue, length, process) == Emitted(Before(days, anchor, iso) + stale, queue, length, process)
  {
    hide Emitted, LastN;
    DayAdded(days, anchor, iso, stale, k);
    var found := Contribution(days[k], remaining, iso) + cache;
    var older := BeforeSuffix(days, anchor, iso, k);
    assert Before(days, anchor, iso) + stale == older + found;
    if |found| >= length {
      EmittedOfSuffix(older, found, queue, length, process);
    } else if k == 0 {
      assert days[0..] == days;
    }
  }

  lemma DayAdded(days: seq<seq<Message>>, anchor: string, iso: int -> string, stale: seq<Message>, k: nat)
    requires k < |days|
    ensures
      var remaining := Remaining(days[k + 1..], anchor, iso);
      && Contribution(days[k], remaining, iso) + (Before(days[k + 1..], anchor, iso) + stale)
        == Before(days[k..], anchor, iso) + stale
      && Remaining([days[k]], remaining, iso) == Remaining(days[k..], anchor, iso)
  {
    var tail := days[k..];
    assert tail[0] == days[k] && tail[1..] == days[k + 1..];
    RemainingCases(days[k + 1..], anchor, iso);
    RemainingOne(days[k], Remaining(days[k + 1..], anchor, iso), iso);
  }

  lemma EmittedOfSuffix(older: seq<Message>, found: seq<Message>, queue: Option<seq<string>>, length: int,
                        process: Message -> Message)
    requires |found| >= length
    ensures Emitted(older + found, queue, length, process) == Emitted(found, queue, length, process)
  {
    LastOfSuffix(older, found, length);
  }

  /** A fetch that starts with something in the cache is right for every log exactly when the cache is
      empty after all: an earlier fetch that failed half way spoils the next one. */
  lemma StaleCacheSpoils(stale: seq<Message>, length: int, process: Message -> Message, iso: int -> string)
    requires length > 0
    ensures stale == [] <==>
      forall days: seq<seq<Message>>, anchor, queue :: days != [] ==>
        Emitted(Before(days, anchor, iso) + stale, queue, length, process)
          == Emitted(Before(days, anchor, iso), queue, length, process)
  {
    hide Emitted;
    if stale == [] {
      forall days: seq<seq<Message>>, anchor, queue | days != []
        ensures Emitted(Before(days, anchor, iso) + stale, queue, length, process)
          == Emitted(Before(days, anchor, iso), queue, length, process)
      {
        assert Before(days, anchor, iso) + stale == Before(days, anchor, iso);
      }
    } else {
      var nothing: seq<seq<Message>> := [[]];
      EmittedSizes(stale, length, process);
      assert Before(nothing[1..], "", iso) == [];
      assert Before(nothing, "", iso) == [] && Before(nothing, "", iso) + stale == stale;
      assert Emitted(Before(nothing, "", iso) + stale, None, length, process)
        != Emitted(Before(nothing, "", iso), None, length, process);
    }
  }

  lemma EmittedSizes(all: seq<Message>, length: int, process: Message -> Message)
    requires length > 0 && all != []
    ensures Emitted(all, None, length, process) != [] && Emitted([], None, length, process) == []
  {
    UnqueuedAll(LastN(all, length), []);
  }
}
