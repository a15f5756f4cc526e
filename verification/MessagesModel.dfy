/** The list of messages shown in a conversation: paging back through the log, new messages, and
    delivery reports that find the message they are about by its token. */
module MessagesModel {
  import opened Sequences
  import opened ChatHistory
  import opened Scrollback

  datatype DeliveryStatus = Unknown | Delivered | Read | Failed

  datatype Row = Row(message: Message, status: DeliveryStatus, reportTime: Option<int>)

  datatype ReportStatus = PermanentlyFailed | TemporarilyFailed | ReportDelivered | ReportRead | Accepted
    | ReportUnknown

  /** What arrives on the channel: a text, or a report about a message sent earlier. */
  datatype Received =
    | Text(token: string, sent: Option<int>, received: int, body: string, sender: string)
    | Report(originalToken: Option<string>, status: ReportStatus, received: int)

  function StatusOf(report: ReportStatus): DeliveryStatus {
    match report
    case PermanentlyFailed => Failed
    case TemporarilyFailed => Failed
    case ReportDelivered => Delivered
    case ReportRead => Read
    case _ => Unknown
  }

  /** What a report makes of the status of a message. */
  ghost predicate Reported(report: ReportStatus, status: DeliveryStatus) {
    && (report == PermanentlyFailed || report == TemporarilyFailed <==> status == Failed)
    && (report == ReportDelivered <==> status == Delivered)
    && (report == ReportRead <==> status == Read)
    && (report == Accepted || report == ReportUnknown <==> status == Unknown)
  }

  function NewRow(message: Message): Row {
    Row(message, Unknown, None)
  }

  function MessageOf(text: Received): Message
    requires text.Text?
  {
    Message(text.token, if text.sent.Some? then text.sent.value else text.received, text.body, text.sender)
  }

  function Messages(rows: seq<Row>): (r: seq<Message>)
    ensures |r| == |rows| && forall i :: 0 <= i < |rows| ==> r[i] == rows[i].message
  {
    seq(|rows|, i requires 0 <= i < |rows| => rows[i].message)
  }

  /** The rows of freshly added messages. */
  function NewRows(messages: seq<Message>): (r: seq<Row>)
    ensures |r| == |messages|
    ensures forall i :: 0 <= i < |messages| ==> r[i] == NewRow(messages[i]) == Row(messages[i], Unknown, None)
  {
    seq(|messages|, i requires 0 <= i < |messages| => NewRow(messages[i]))
  }

  /** The fetched messages before the first one that is `first` again. */
  function UpTo(fetched: seq<Message>, first: Message): seq<Message> {
    if fetched == [] || SameMessage(fetched[0], first) then [] else [fetched[0]] + UpTo(fetched[1..], first)
  }

  /** Everything before place `i` differs from `first` in text, time or sender; what is at `i` does not. */
  ghost predicate StopsBefore(fetched: seq<Message>, first: Message, i: nat) {
    && i <= |fetched|
    && (forall k :: 0 <= k < i ==>
          fetched[k].body != first.body || fetched[k].time != first.time || fetched[k].sender != first.sender)
    && (i < |fetched| ==>
          fetched[i].body == first.body && fetched[i].time == first.time && fetched[i].sender == first.sender)
  }

  function Page(fetched: seq<Message>, rows: seq<Row>): seq<Message> {
    if rows == [] then fetched else UpTo(fetched, rows[0].message)
  }

  /** The row a text goes to: that of the newest message that is older than it, the top when there is
      none, the end when the text does not say when it was sent. */
  ghost predicate GoesTo(rows: seq<Row>, sent: Option<int>, row: nat) {
    match sent
    case None => row == |rows|
    case Some(at) =>
      && (forall i :: row < i < |rows| ==> at <= rows[i].message.time)
      && ((row < |rows| && at > rows[row].message.time) || (row == 0 && (rows == [] || at <= rows[0].message.time)))
  }

  /** Persistent indexes at or below an insertion move with their rows. */
  function Shifted(index: map<string, nat>, row: nat, count: nat): (r: map<string, nat>)
    ensures r.Keys == index.Keys
    ensures forall t :: t in index ==> r[t] == if index[t] >= row then index[t] + count else index[t]
  {
    map t | t in index :: if index[t] >= row then index[t] + count else index[t]
  }

  /** Every message carries a serial number of its own.  A recorded token leads to the row of the
      message that was sent last with it. */
  ghost predicate Tracks(rows: seq<Row>, index: map<string, nat>, serials: seq<nat>, next: nat,
                         made: map<nat, Message>, sent: map<string, nat>) {
    && NoDup(serials) && (forall s :: s in serials ==> s < next)
    && Made(rows, serials, made)
    && Leads(index, serials, sent)
  }

  ghost predicate Made(rows: seq<Row>, serials: seq<nat>, made: map<nat, Message>) {
    |serials| == |rows| && forall i :: 0 <= i < |rows| ==> serials[i] in made && rows[i].message == made[serials[i]]
  }

  ghost predicate Leads(index: map<string, nat>, serials: seq<nat>, sent: map<string, nat>) {
    index.Keys == sent.Keys && forall t :: t in index ==> index[t] < |serials| && serials[index[t]] == sent[t]
  }

  /** The next `count` serial numbers. */
  function Fresh(next: nat, count: nat): (r: seq<nat>)
    ensures |r| == count && forall i :: 0 <= i < count ==> r[i] == next + i
    ensures forall s :: s in r <==> next <= s < next + count
  {
    if count == 0 then [] else Fresh(next, count - 1) + [next + count - 1]
  }

  function Recorded(made: map<nat, Message>, next: nat, added: seq<Row>): (r: map<nat, Message>)
    ensures forall s :: s in made && s < next ==> s in r && r[s] == made[s]
    ensures forall s :: next <= s < next + |added| ==> s in r && r[s] == added[s - next].message
  {
    made + map s: nat | s in Fresh(next, |added|) :: added[s - next].message
  }

  /** Inserting rows anywhere keeps every token on its message. */
  lemma TracksInsertion(rows: seq<Row>, index: map<string, nat>, serials: seq<nat>, next: nat,
                        made: map<nat, Message>, sent: map<string, nat>, row: nat, added: seq<Row>)
    requires Tracks(rows, index, serials, next, made, sent) && row <= |rows|
    ensures Tracks(rows[..row] + added + rows[row..], Shifted(index, row, |added|),
                   serials[..row] + Fresh(next, |added|) + serials[row..],
                   next + |added|, Recorded(made, next, added), sent)
    ensures forall s :: s in serials ==> s in Recorded(made, next, added) && Recorded(made, next, added)[s] == made[s]
  {
    hide Recorded, Fresh, Shifted, Made, Leads;
    MadeAlike(rows, serials, made);
    InsertionDistinct(serials, next, row, |added|);
    InsertionRecorded(rows, serials, next, made, row, added);
    InsertionLeads(serials, index, sent, next, row, |added|);
  }

  lemma MadeAlike(rows: seq<Row>, serials: seq<nat>, made: map<nat, Message>)
    requires Made(rows, serials, made)
    ensures |serials| == |rows| && forall s :: s in serials ==> s in made
  {
    forall s | s in serials ensures s in made {
      var i :| 0 <= i < |serials| && serials[i] == s;
    }
  }

  lemma InsertionLeads(serials: seq<nat>, index: map<string, nat>, sent: map<string, nat>, next: nat, row: nat,
                       count: nat)
    requires row <= |serials| && Leads(index, serials, sent)
    ensures Leads(Shifted(index, row, count), serials[..row] + Fresh(next, count) + serials[row..], sent)
  {
    hide Fresh;
  }

  lemma InsertionRecorded(rows: seq<Row>, serials: seq<nat>, next: nat, made: map<nat, Message>, row: nat,
                          added: seq<Row>)
    requires Made(rows, serials, made) && row <= |rows| && forall s :: s in serials ==> s < next
    ensures Made(rows[..row] + added + rows[row..], serials[..row] + Fresh(next, |added|) + serials[row..],
                 Recorded(made, next, added))
    ensures forall s :: s in serials ==> s in Recorded(made, next, added) && Recorded(made, next, added)[s] == made[s]
  {
    hide Recorded, Fresh;
    MadeAlike(rows, serials, made);
    var numbers, all := serials[..row] + Fresh(next, |added|) + serials[row..], rows[..row] + added + rows[row..];
    forall i | 0 <= i < |all|
      ensures numbers[i] in Recorded(made, next, added) && all[i].message == Recorded(made, next, added)[numbers[i]]
    {
      if i < row {
        assert serials[i] in serials;
      } else if i < row + |added| {
        assert numbers[i] == next + (i - row);
      } else {
        assert serials[i - |added|] in serials;
      }
    }
  }

  lemma InsertionDistinct(serials: seq<nat>, next: nat, row: nat, count: nat)
    requires NoDup(serials) && row <= |serials| && forall s :: s in serials ==> s < next
    ensures
      var all := serials[..row] + Fresh(next, count) + serials[row..];
      NoDup(all) && forall s :: s in all ==> s < next + count
  {
    var all := serials[..row] + Fresh(next, count) + serials[row..];
    forall i | 0 <= i < |all|
      ensures all[i] == if i < row then serials[i] else if i < row + count then next + (i - row) else serials[i - count]
      ensures all[i] < next + count
    {
      if i < row { assert serials[i] in serials; }
      if i >= row + count { assert serials[i - count] in serials; }
    }
    forall i, j | 0 <= i < j < |all| ensures all[i] != all[j] {
      if i < row { assert serials[i] in serials; }
      if j >= row + count { assert serials[j - count] in serials; }
    }
  }

  /** Rewriting a row's status keeps every token on its message too. */
  lemma TracksReport(rows: seq<Row>, index: map<string, nat>, serials: seq<nat>, next: nat,
                     made: map<nat, Message>, sent: map<string, nat>, row: nat, changed: Row)
    requires Tracks(rows, index, serials, next, made, sent) && row < |rows| && changed.message == rows[row].message
    ensures Tracks(rows[row := changed], index, serials, next, made, sent)
  {
  }

  /** Recording a token for the message in the last row. */
  lemma TracksToken(rows: seq<Row>, index: map<string, nat>, serials: seq<nat>, next: nat,
                    made: map<nat, Message>, sent: map<string, nat>, token: string)
    requires Tracks(rows, index, serials, next, made, sent) && rows != []
    ensures Tracks(rows, index[token := |rows| - 1], serials, next, made, sent[token := serials[|rows| - 1]])
  {
  }

  class MessagesModel {
    const logManager: ScrollbackManager
    var messages: seq<Row>
    var messagesByMessageToken: map<string, nat>
    var logsLoaded: bool
    ghost var serials: seq<nat>
    ghost var next: nat
    ghost var made: map<nat, Message>
    ghost var sent: map<string, nat>

    ghost predicate Valid()
      reads this
    {
      Tracks(messages, messagesByMessageToken, serials, next, made, sent)
    }

    constructor (logManager: ScrollbackManager, configuredLength: int)
      modifies logManager`scrollbackLength
      ensures Valid() && messages == [] && !logsLoaded && sent == map[]
      ensures this.logManager == logManager && logManager.scrollbackLength == configuredLength
    {
      this.logManager := logManager;
      messages, messagesByMessageToken, logsLoaded := [], map[], false;
      serials, next, made, sent := [], 0, map[], map[];
      new;
      logManager.scrollbackLength := configuredLength;
    }

    /** `beginInsertRows` to `endInsertRows`. */
    method InsertRows(row: nat, added: seq<Row>)
      requires Valid() && row <= |messages|
      modifies `messages, `messagesByMessageToken, `serials, `next, `made
      ensures Valid()
      ensures messages == old(messages)[..row] + added + old(messages)[row..]
      ensures messagesByMessageToken == Shifted(old(messagesByMessageToken), row, |added|)
      ensures serials == old(serials)[..row] + Fresh(old(next), |added|) + old(serials)[row..]
      ensures next == old(next) + |added| && made == Recorded(old(made), old(next), added)
      ensures forall s :: s in old(serials) ==> s in made && made[s] == old(made)[s]
    {
      hide Tracks, Recorded;
      SerialCount(messages, messagesByMessageToken, serials, next, made, sent);
      TracksInsertion(messages, messagesByMessageToken, serials, next, made, sent, row, added);
      messages := messages[..row] + added + messages[row..];
      messagesByMessageToken := Shifted(messagesByMessageToken, row, |added|);
      serials := serials[..row] + Fresh(next, |added|) + serials[row..];
      made, next := Recorded(made, next, added), next + |added|;
    }

    method OnHistoryFetched(fetched: seq<Message>)
      requires Valid()
      modifies `messages, `messagesByMessageToken, `serials, `next, `made, `logsLoaded
      ensures Valid() && logsLoaded
      ensures messages == NewRows(Page(fetched, old(messages))) + old(messages)
      ensures exists i: nat ::
        && i <= |fetched| && messages == NewRows(fetched[..i]) + old(messages)
        && (old(messages) == [] ==> i == |fetched|)
        && (old(messages) != [] ==> StopsBefore(fetched, old(messages)[0].message, i))
      ensures forall s :: s in old(serials) ==> s in made && made[s] == old(made)[s]
    {
      hide Tracks, NewRows, UpTo, StopsBefore;
      Known(messages, messagesByMessageToken, serials, next, made, sent);
      var messagesToAdd := fetched;
      ghost var i := |fetched|;
      assert fetched[..i] == fetched;
      if messages != [] {
        var stop := FindShown(fetched, messages[0].message);
        i := stop;
        messagesToAdd := fetched[..stop];
      }
      EmptyPage(messages);
      if messagesToAdd != [] {
        InsertRows(0, NewRows(messagesToAdd));
      }
      assert messages == NewRows(fetched[..i]) + old(messages);
      logsLoaded := true;
    }

    /** The search for the first message shown among those fetched. */
    method FindShown(fetched: seq<Message>, first: Message) returns (i: nat)
      ensures StopsBefore(fetched, first, i) && UpTo(fetched, first) == fetched[..i]
    {
      i := 0;
      while i < |fetched| && !SameMessage(fetched[i], first)
        invariant i <= |fetched|
        invariant forall k :: 0 <= k < i ==> !SameMessage(fetched[k], first)
      {
        i := i + 1;
      }
      if i < |fetched| {
        UpToFirst(fetched, first, i);
      } else {
        UpToAll(fetched, first);
      }
    }

    method OnMessageReceived(message: Received)
      requires Valid()
      modifies `messages, `messagesByMessageToken, `serials, `next, `made
      ensures Valid()
      ensures message.Text? ==>
        var sent := if message.sent.Some? then message.sent.value else message.received;
        var processed := logManager.process(Message(message.token, sent, message.body, message.sender));
        exists row: nat ::
        && row <= |old(messages)| && GoesTo(old(messages), message.sent, row)
        && messages == old(messages)[..row] + [Row(processed, Unknown, None)] + old(messages)[row..]
        && next == old(next) + 1 && serials == old(serials)[..row] + [old(next)] + old(serials)[row..]
      ensures message.Report? ==> serials == old(serials)
      ensures message.Report? ==>
        if message.originalToken.Some? && message.originalToken.value in sent then
          exists row: nat :: row < |messages| && serials[row] == sent[message.originalToken.value] &&
            messages == old(messages)[row :=
              Row(old(messages)[row].message, StatusOf(message.status), Some(message.received))]
        else messages == old(messages)
      ensures message.Report? && message.originalToken.Some? ==>
        forall row :: 0 <= row < |messages| && message.originalToken.value in sent
                      && serials[row] == sent[message.originalToken.value] ==>
          messages[row].reportTime == Some(message.received) && Reported(message.status, messages[row].status)
      ensures forall s :: s in old(serials) ==> s in made && made[s] == old(made)[s]
    {
      match message
      case Report(originalToken, status, received) =>
        OnReport(originalToken, status, received);
      case Text(_, at, _, _, _) =>
        var newMessageIndex := 0;
        if at.Some? {
          newMessageIndex := RowOlderThan(at.value);
        } else {
          newMessageIndex := |messages|;
        }
        var row := NewRow(logManager.process(MessageOf(message)));
        assert Fresh(next, 1) == [next];
        InsertRows(newMessageIndex, [row]);
    }

    method OnReport(originalToken: Option<string>, status: ReportStatus, received: int)
      requires Valid()
      modifies `messages
      ensures Valid()
      ensures
        if originalToken.Some? && originalToken.value in sent then
          exists row: nat :: row < |messages| && serials[row] == sent[originalToken.value] &&
            messages == old(messages)[row := Row(old(messages)[row].message, StatusOf(status), Some(received))]
        else messages == old(messages)
      ensures originalToken.Some? && originalToken.value in sent ==>
        forall row :: 0 <= row < |messages| && serials[row] == sent[originalToken.value] ==>
          messages[row].reportTime == Some(received) && Reported(status, messages[row].status)
    {
      if originalToken == None { return; }
      if originalToken.value !in messagesByMessageToken { return; }
      var row := messagesByMessageToken[originalToken.value];
      if row >= |messages| { return; }
      var originalMessage := messages[row];
      originalMessage := originalMessage.(reportTime := Some(received));
      match status {
        case PermanentlyFailed => originalMessage := originalMessage.(status := Failed);
        case TemporarilyFailed => originalMessage := originalMessage.(status := Failed);
        case ReportDelivered => originalMessage := originalMessage.(status := Delivered);
        case ReportRead => originalMessage := originalMessage.(status := Read);
        case _ => originalMessage := originalMessage.(status := Unknown);
      }
      TracksReport(messages, messagesByMessageToken, serials, next, made, sent, row, originalMessage);
      messages := messages[row := originalMessage];
    }

    /** The loop from the end that looks for an older message. */
    method RowOlderThan(at: int) returns (row: nat)
      ensures GoesTo(messages, Some(at), row) && row <= |messages|
    {
      row := 0;
      var i := |messages| - 1;
      while i >= 0
        invariant -1 <= i < |messages|
        invariant forall k :: i < k < |messages| ==> at <= messages[k].message.time
      {
        if at > messages[i].message.time {
          row := i;
          return;
        }
        i := i - 1;
      }
    }

    method OnMessageSent(message: Message, messageToken: string)
      requires Valid()
      modifies `messages, `messagesByMessageToken, `serials, `next, `made, `sent
      ensures Valid()
      ensures messages == old(messages) + [Row(logManager.process(message), Unknown, None)]
      ensures sent == if messageToken == "" then old(sent) else old(sent)[messageToken := old(next)]
      ensures next == old(next) + 1 && serials == old(serials) + [old(next)]
      ensures old(next) in made && made[old(next)] == logManager.process(message)
      ensures forall s :: s in old(serials) ==> s in made && made[s] == old(made)[s]
    {
      hide Tracks;
      var newMessageIndex := |messages|;
      var newMessage := logManager.process(message);
      SerialCount(messages, messagesByMessageToken, serials, next, made, sent);
      assert Fresh(next, 1) == [next];
      InsertRows(newMessageIndex, [NewRow(newMessage)]);
      if messageToken != "" {
        TracksToken(messages, messagesByMessageToken, serials, next, made, sent, messageToken);
        messagesByMessageToken := messagesByMessageToken[messageToken := newMessageIndex];
        sent := sent[messageToken := serials[newMessageIndex]];
      }
    }

    /** `setContactData`: the first load, unless there has been one, from the call to the end of the fetch. */
    method SetContactData(account: bool, contactValid: bool, dates: seq<Date>, logs: Date -> seq<Message>)
      requires Valid() && logManager.pending == Idle
      modifies `messages, `messagesByMessageToken, `serials, `next, `made, `logsLoaded, logManager
      ensures Valid() && logManager.pending == Idle && logsLoaded
      ensures unchanged(logManager`messageQueue, logManager`scrollbackLength)
      ensures logManager.accountSet == account && (account ==> logManager.contactValid == contactValid)
      ensures forall s :: s in old(serials) ==> s in made && made[s] == old(made)[s]
      ensures old(logsLoaded) ==> messages == old(messages)
      ensures !old(logsLoaded) ==>
        var fetches := logManager.scrollbackLength > 0 && account && logManager.contactValid && dates != [];
        if fetches then
          && logManager.messagesCache == []
          && var fetched := Emitted(
               Before(Map(logs, dates), "", logManager.iso) + old(logManager.messagesCache),
               logManager.messageQueue, logManager.scrollbackLength, logManager.process);
             messages == NewRows(Page(fetched, old(messages))) + old(messages)
        else messages == old(messages) && logManager.messagesCache == old(logManager.messagesCache)
    {
      hide Tracks, NewRows, Before, StopsAt, Emitted;
      Known(messages, messagesByMessageToken, serials, next, made, sent);
      logManager.accountSet := account;
      if account {
        logManager.contactValid := contactValid;
      }
      if !logsLoaded {
        logManager.Fetch(logManager.scrollbackLength, "", dates, logs);
        EmptyPage(messages);
        OnHistoryFetched(logManager.fetched[|logManager.fetched| - 1]);
      }
    }

    /** One page further back in the log, from the call to the end of the fetch it starts. */
    method FetchMoreHistory(dates: seq<Date>, logs: Date -> seq<Message>)
      requires Valid() && logManager.pending == Idle
      modifies `messages, `messagesByMessageToken, `serials, `next, `made, `logsLoaded, logManager
      ensures Valid() && logManager.pending == Idle && logsLoaded == old(logsLoaded)
      ensures forall s :: s in old(serials) ==> s in made && made[s] == old(made)[s]
      ensures unchanged(logManager`accountSet, logManager`contactValid, logManager`messageQueue)
      ensures
        if old(messages) != [] && old(logsLoaded) && logManager.accountSet && logManager.contactValid
          && dates != [] then
          && logManager.messagesCache == []
          && var first := old(messages)[0].message;
             var anchor := if first.token != "" then first.token else logManager.iso(first.time) + first.body;
             var fetched := Emitted(
               Before(Map(logs, dates), anchor, logManager.iso) + old(logManager.messagesCache),
               logManager.messageQueue, 10, logManager.process);
             messages == NewRows(UpTo(fetched, first)) + old(messages)
        else messages == old(messages) && logManager.messagesCache == old(logManager.messagesCache)
    {
      hide Tracks, NewRows, Before, StopsAt, Emitted;
      Known(messages, messagesByMessageToken, serials, next, made, sent);
      if messages == [] || !logsLoaded {
        return;
      }
      logsLoaded := false;
      var message := messages[0].message;
      var token := if message.token == "" then logManager.iso(message.time) + message.body else message.token;
      logManager.scrollbackLength := 10;
      logManager.Fetch(|messages| + 10, token, dates, logs);
      EmptyPage(messages);
      OnHistoryFetched(logManager.fetched[|logManager.fetched| - 1]);
    }

    /** One page, when the rows begin with the log from message `j` on: it is the right one exactly under
        the condition on the key of the first message shown. */
    method FetchPage(dates: seq<Date>, logs: Date -> seq<Message>, ghost j: nat)
      requires Valid() && logsLoaded && logManager.pending == Idle && logManager.messagesCache == []
      requires logManager.accountSet && logManager.contactValid && dates != []
      requires Distinguished(Map(logs, dates), logManager.iso, logManager.process, logManager.messageQueue)
      requires ShowsFrom(messages, Concat(Map(logs, dates)), j, logManager.process)
      modifies this, logManager
      ensures Valid() && logsLoaded && logManager.pending == Idle && logManager.messagesCache == []
      ensures unchanged(logManager`accountSet, logManager`contactValid, logManager`messageQueue)
      ensures
        var log := Concat(Map(logs, dates));
        messages == NewRows(Map(logManager.process, log[Max(0, j - 10)..j])) + old(messages)
        <==> KeyFitsPage(log, logManager.iso, j, Key(logManager.process(log[j]), logManager.iso))
    {
      hide Tracks, NewRows, Before, Emitted, UpTo, Distinguished, ShowsFrom, Concat, KeyFitsPage;
      ghost var days := Map(logs, dates);
      FirstShown(messages, Concat(days), j, logManager.process);
      PageIff(days, j, logManager.iso, logManager.process, logManager.messageQueue);
      ghost var log, first := Concat(days), messages[0].message;
      ghost var found := Before(days, Key(first, logManager.iso), logManager.iso);
      ghost var page := UpTo(Emitted(found + [], logManager.messageQueue, 10, logManager.process), first);
      RowsTell(page, Map(logManager.process, log[Max(0, j - 10)..j]), messages);
      FetchMoreHistory(dates, logs);
    }

    /** Paging back `pages` times. */
    method PageBack(pages: nat, dates: seq<Date>, logs: Date -> seq<Message>, ghost j: nat)
      requires Valid() && logsLoaded && logManager.pending == Idle && logManager.messagesCache == []
      requires logManager.accountSet && logManager.contactValid && dates != []
      requires Pageable(Map(logs, dates), logManager.iso, logManager.process, logManager.messageQueue)
      requires ShowsFrom(messages, Concat(Map(logs, dates)), j, logManager.process)
      modifies this, logManager
      ensures Valid()
      ensures
        var log := Concat(Map(logs, dates));
        messages == NewRows(Map(logManager.process, log[Max(0, j - 10 * pages)..j])) + old(messages)
      ensures ShowsFrom(messages, Concat(Map(logs, dates)), Max(0, j - 10 * pages), logManager.process)
    {
      hide Tracks, NewRows, Before, Emitted, UpTo, Pageable, Distinguished, KeyFitsPage, ShowsFrom, Concat;
      ghost var days := Map(logs, dates);
      ghost var at := j;
      PagesStart(days, messages, j, logManager.process);
      var i := 0;
      while i < pages
        invariant i <= pages && at == Max(0, j - 10 * i)
        invariant Valid() && logsLoaded && logManager.pending == Idle && logManager.messagesCache == []
        invariant unchanged(logManager`accountSet, logManager`contactValid, logManager`messageQueue)
        invariant ShowsFrom(messages, Concat(days), at, logManager.process)
        invariant at <= j <= |Concat(days)|
        invariant messages == NewRows(Map(logManager.process, Concat(days)[at..j])) + old(messages)
      {
        PagesStart(days, messages, at, logManager.process);
        PageableDistinguished(days, logManager.iso, logManager.process, logManager.messageQueue);
        PageStep(days, at, logManager.iso, logManager.process, logManager.messageQueue);
        PageJoins(days, at, j, logManager.process, old(messages));
        FetchPage(dates, logs, at);
        at := Max(0, at - 10);
        i := i + 1;
      }
    }
  }

  /** A recorded token leads to the message sent last with it, wherever that is by now; no other row
      carries that message's number. */
  lemma TokenLeadsToMessage(rows: seq<Row>, index: map<string, nat>, serials: seq<nat>, next: nat,
                            made: map<nat, Message>, sent: map<string, nat>, token: string, row: nat)
    requires Tracks(rows, index, serials, next, made, sent) && token in sent && row < |rows|
    ensures token in index && (serials[row] == sent[token] <==> row == index[token])
    ensures serials[row] == sent[token] ==> sent[token] in made && rows[row].message == made[sent[token]]
  {
    assert token in index.Keys;
  }

  lemma Known(rows: seq<Row>, index: map<string, nat>, serials: seq<nat>, next: nat,
              made: map<nat, Message>, sent: map<string, nat>)
    requires Tracks(rows, index, serials, next, made, sent)
    ensures forall s :: s in serials ==> s in made
  {
    forall s | s in serials ensures s in made {
      var i :| 0 <= i < |serials| && serials[i] == s;
    }
  }

  lemma SerialCount(rows: seq<Row>, index: map<string, nat>, serials: seq<nat>, next: nat,
                    made: map<nat, Message>, sent: map<string, nat>)
    requires Tracks(rows, index, serials, next, made, sent)
    ensures |serials| == |rows| && serials[..|rows|] == serials && serials[|rows|..] == []
  {
  }

  // ---- paging -----------------------------------------------------------------------------------

  /** A log whose messages can be told apart, also when they are processed, and are not queued. */
  ghost predicate Distinguished(days: seq<seq<Message>>, iso: int -> string, process: Message -> Message,
                                queue: Option<seq<string>>) {
    var log := Concat(days);
    && DistinctKeys(log, iso)
    && (forall i, k :: 0 <= i < k < |log| ==>
          var a, b := process(log[i]), process(log[k]);
          a.body != b.body || a.time != b.time || a.sender != b.sender)
    && (forall m :: m in log ==> m.token !in Tokens(queue))
  }

  /** A log that can be paged through: moreover, processing keeps the keys. */
  ghost predicate Pageable(days: seq<seq<Message>>, iso: int -> string, process: Message -> Message,
                           queue: Option<seq<string>>) {
    var log := Concat(days);
    && Distinguished(days, iso, process, queue)
    && (forall i :: 0 <= i < |log| ==> Key(process(log[i]), iso) == Key(log[i], iso) != "")
  }

  /** When the rows begin with message `j` of the log, the key of its processed form leads to the right
      page: it is that of message `j`, or of a later one near the beginning of the log, or nothing is
      older and nothing has that key. */
  ghost predicate KeyFitsPage(log: seq<Message>, iso: int -> string, j: nat, key: string) {
    if key == "" then |log| <= 10
    else
      || (exists i :: 0 <= i < |log| && Key(log[i], iso) == key && (i == j || j < i <= 10))
      || (j == 0 && forall i :: 0 <= i < |log| ==> Key(log[i], iso) != key)
  }

  /** The rows begin with the log from message `j` on. */
  ghost predicate ShowsFrom(rows: seq<Row>, log: seq<Message>, j: nat, process: Message -> Message) {
    j < |log| && |rows| >= |log| - j && Messages(rows[..|log| - j]) == Map(process, log[j..])
  }

  lemma {:induction false} UpToAll(fetched: seq<Message>, first: Message)
    requires forall i :: 0 <= i < |fetched| ==> !SameMessage(fetched[i], first)
    ensures UpTo(fetched, first) == fetched
  {
    if fetched != [] { UpToAll(fetched[1..], first); }
  }

  lemma FirstShown(rows: seq<Row>, log: seq<Message>, j: nat, process: Message -> Message)
    requires ShowsFrom(rows, log, j, process)
    ensures rows != [] && j < |log| && rows[0].message == process(log[j])
  {
    assert rows[0].message == Messages(rows[..|log| - j])[0] == process(log[j..][0]);
  }

  lemma EmptyPage(rows: seq<Row>)
    ensures NewRows(Page([], rows)) + rows == rows
  {
  }

  /** Different pages give different rows. */
  lemma RowsTell(a: seq<Message>, b: seq<Message>, rows: seq<Row>)
    ensures NewRows(a) + rows == NewRows(b) + rows <==> a == b
  {
    if NewRows(a) + rows == NewRows(b) + rows {
      assert |NewRows(a) + rows| == |a| + |rows| && |NewRows(b) + rows| == |b| + |rows|;
      forall i | 0 <= i < |a| ensures a[i] == b[i] {
        assert (NewRows(a) + rows)[i] == NewRow(a[i]) && (NewRows(b) + rows)[i] == NewRow(b[i]);
      }
    }
  }

  /** What is emitted of a log up to message `a`. */
  lemma EmittedUpTo(log: seq<Message>, a: nat, process: Message -> Message, queue: Option<seq<string>>)
    requires a <= |log| && forall m :: m in log ==> m.token !in Tokens(queue)
    ensures Emitted(log[..a] + [], queue, 10, process) == Map(process, log[Max(0, a - 10)..a])
  {
    var last := log[Max(0, a - 10)..a];
    assert log[..a] + [] == log[..a];
    assert LastN(log[..a], 10) == last;
    UnqueuedAll(last, Tokens(queue));
  }

  lemma {:induction false} UpToFirst(fetched: seq<Message>, first: Message, n: nat)
    requires n < |fetched| && SameMessage(fetched[n], first)
    requires forall i :: 0 <= i < n ==> !SameMessage(fetched[i], first)
    ensures UpTo(fetched, first) == fetched[..n]
  {
    if n > 0 { UpToFirst(fetched[1..], first, n - 1); }
  }

  /** The page that an anchor at message `a` gives, where the list begins with message `j`. */
  lemma PageFrom(log: seq<Message>, a: nat, j: nat, process: Message -> Message)
    requires a <= |log| && j < |log|
    requires forall i, k :: 0 <= i < k < |log| ==> !SameMessage(process(log[i]), process(log[k]))
    ensures
      var low := Max(0, a - 10);
      UpTo(Map(process, log[low..a]), process(log[j])) == Map(process, log[low..if low <= j < a then j else a])
  {
    var low := Max(0, a - 10);
    var fetched := Map(process, log[low..a]);
    if low <= j < a {
      assert fetched[j - low] == process(log[j]);
      UpToFirst(fetched, process(log[j]), j - low);
      assert log[low..a][..j - low] == log[low..j];
    } else {
      UpToAll(fetched, process(log[j]));
    }
  }

  /** Two stretches of the log come out alike only if they are the same, or both empty. */
  lemma StretchesDiffer(log: seq<Message>, a: nat, b: nat, c: nat, d: nat, process: Message -> Message)
    requires a <= b <= |log| && c <= d <= |log|
    requires forall i, k :: 0 <= i < k < |log| ==> !SameMessage(process(log[i]), process(log[k]))
    ensures Map(process, log[a..b]) == Map(process, log[c..d]) <==> (a == b && c == d) || (a == c && b == d)
  {
    var x, y := Map(process, log[a..b]), Map(process, log[c..d]);
    assert |x| == b - a && |y| == d - c;
    if x == y && a < b {
      assert x[0] == process(log[a]) && y[0] == process(log[c]);
    }
  }

  lemma PageFromIff(log: seq<Message>, a: nat, j: nat, process: Message -> Message)
    requires a <= |log| && j < |log|
    requires forall i, k :: 0 <= i < k < |log| ==> !SameMessage(process(log[i]), process(log[k]))
    ensures
      UpTo(Map(process, log[Max(0, a - 10)..a]), process(log[j])) == Map(process, log[Max(0, j - 10)..j])
      <==> a == j || j < a <= 10
  {
    hide Map, UpTo, SameMessage;
    PageFrom(log, a, j, process);
    var low := Max(0, a - 10);
    StretchesDiffer(log, low, if low <= j < a then j else a, Max(0, j - 10), j, process);
  }

  lemma OneKey(log: seq<Message>, iso: int -> string, i: nat, key: string)
    requires DistinctKeys(log, iso) && i < |log| && Key(log[i], iso) == key
    ensures forall k :: 0 <= k < |log| && Key(log[k], iso) == key ==> k == i
  {
  }

  lemma AllDifferent(days: seq<seq<Message>>, iso: int -> string, process: Message -> Message,
                     queue: Option<seq<string>>)
    requires Distinguished(days, iso, process, queue)
    ensures DistinctKeys(Concat(days), iso) && forall m :: m in Concat(days) ==> m.token !in Tokens(queue)
    ensures forall i, k :: 0 <= i < k < |Concat(days)| ==>
      !SameMessage(process(Concat(days)[i]), process(Concat(days)[k]))
  {
    hide DistinctKeys, Concat;
  }

  /** Exactly when one page is the ten log messages before the first one shown. */
  lemma PageIff(days: seq<seq<Message>>, j: nat, iso: int -> string, process: Message -> Message,
                queue: Option<seq<string>>)
    requires Distinguished(days, iso, process, queue) && j < |Concat(days)|
    ensures
      var log := Concat(days);
      var first := process(log[j]);
      var page := UpTo(Emitted(Before(days, Key(first, iso), iso) + [], queue, 10, process), first);
      page == Map(process, log[Max(0, j - 10)..j]) <==> KeyFitsPage(log, iso, j, Key(first, iso))
  {
    hide Emitted, UpTo, Before, Map, SameMessage, Key, Concat, Distinguished, DistinctKeys;
    AllDifferent(days, iso, process, queue);
    var log := Concat(days);
    var key := Key(process(log[j]), iso);
    if key == "" {
      BeforeWithoutAnchor(days, iso);
      assert log[..|log|] == log;
      EmittedUpTo(log, |log|, process, queue);
      PageFromIff(log, |log|, j, process);
    } else if i :| 0 <= i < |log| && Key(log[i], iso) == key {
      BeforeInLog(days, iso, i);
      EmittedUpTo(log, i, process, queue);
      PageFromIff(log, i, j, process);
      OneKey(log, iso, i, key);
    } else {
      KeyNotInLog(days, key, iso);
      NothingEmitted(queue, process, process(log[j]));
      assert |Map(process, log[Max(0, j - 10)..j])| == j - Max(0, j - 10);
    }
  }

  lemma NothingEmitted(queue: Option<seq<string>>, process: Message -> Message, first: Message)
    ensures UpTo(Emitted([] + [], queue, 10, process), first) == []
  {
  }

  lemma PageableDistinguished(days: seq<seq<Message>>, iso: int -> string, process: Message -> Message,
                              queue: Option<seq<string>>)
    requires Pageable(days, iso, process, queue)
    ensures Distinguished(days, iso, process, queue)
  {
  }

  /** One page: the ten log messages before the first one shown, no gap, no duplicate. */
  lemma PageStep(days: seq<seq<Message>>, j: nat, iso: int -> string, process: Message -> Message,
                 queue: Option<seq<string>>)
    requires Pageable(days, iso, process, queue) && j < |Concat(days)|
    ensures
      var log := Concat(days);
      var first := process(log[j]);
      var page := UpTo(Emitted(Before(days, Key(first, iso), iso) + [], queue, 10, process), first);
      KeyFitsPage(log, iso, j, Key(first, iso)) && page == Map(process, log[Max(0, j - 10)..j])
  {
    hide Emitted, UpTo, Before, Concat, Distinguished;
    PageIff(days, j, iso, process, queue);
  }

  lemma PagesStart(days: seq<seq<Message>>, rows: seq<Row>, j: nat, process: Message -> Message)
    requires ShowsFrom(rows, Concat(days), j, process)
    ensures j < |Concat(days)| && NewRows(Map(process, Concat(days)[j..j])) + rows == rows
  {
  }

  /** Pages fit together. */
  lemma PageJoins(days: seq<seq<Message>>, at: nat, j: nat, process: Message -> Message, rows: seq<Row>)
    requires at <= j <= |Concat(days)|
    requires ShowsFrom(NewRows(Map(process, Concat(days)[at..j])) + rows, Concat(days), at, process)
    ensures
      var log, older := Concat(days), Max(0, at - 10);
      var before := NewRows(Map(process, log[at..j])) + rows;
      var after := NewRows(Map(process, log[older..at])) + before;
      && after == NewRows(Map(process, log[older..j])) + rows
      && ShowsFrom(after, log, older, process)
  {
    hide Concat, Map, NewRows, Messages;
    var log, older := Concat(days), Max(0, at - 10);
    var left, right := log[older..at], log[at..j];
    var added, before := NewRows(Map(process, left)), NewRows(Map(process, right)) + rows;
    RowsConcat(process, left, right);
    RowsConcat(process, left, log[at..]);
    Stretches(log, older, at, j);
    TakeBoth(added, before, |log| - at);
    assert |added| == at - older;
    MessagesConcat(added, before[..|log| - at]);
    MessagesOfRows(Map(process, left));
  }

  lemma Stretches(log: seq<Message>, a: nat, b: nat, c: nat)
    requires a <= b <= c <= |log|
    ensures log[a..c] == log[a..b] + log[b..c] && log[a..] == log[a..b] + log[b..]
  {
  }

  lemma TakeBoth(a: seq<Row>, b: seq<Row>, n: nat)
    requires n <= |b|
    ensures (a + b)[..|a| + n] == a + b[..n]
  {
  }

  lemma RowsConcat(process: Message -> Message, a: seq<Message>, b: seq<Message>)
    ensures Map(process, a + b) == Map(process, a) + Map(process, b)
    ensures NewRows(Map(process, a + b)) == NewRows(Map(process, a)) + NewRows(Map(process, b))
    ensures |NewRows(Map(process, a))| == |a|
  {
  }

  lemma MessagesConcat(a: seq<Row>, b: seq<Row>)
    ensures Messages(a + b) == Messages(a) + Messages(b)
  {
  }

  lemma MessagesOfRows(messages: seq<Message>)
    ensures Messages(NewRows(messages)) == messages
  {
  }
}
