/** Conversations from the first load on. */
module HistoryRuns {
  import opened Sequences
  import opened EscapePasses
  import opened ChatHistory
  import opened Scrollback
  import opened MessagesModel

  ghost predicate New(model: MessagesModel, days: seq<seq<Message>>)
    reads model, model.logManager
  {
    var m := model.logManager;
    && model.Valid() && model.messages == [] && !model.logsLoaded
    && m.pending == Idle && m.messagesCache == [] && m.scrollbackLength > 0
    && Concat(days) != [] && Pageable(days, m.iso, m.process, m.messageQueue)
  }

  /** The first load shows the end of the log. */
  method LoadEnd(model: MessagesModel, dates: seq<Date>, logs: Date -> seq<Message>)
    requires New(model, Map(logs, dates))
    modifies model, model.logManager
    ensures model.Valid() && model.logsLoaded
    ensures
      var m := model.logManager;
      m.pending == Idle && m.messagesCache == [] && m.accountSet && m.contactValid
        && m.messageQueue == old(m.messageQueue)
    ensures
      var log := Concat(Map(logs, dates));
      var j := Max(0, |log| - old(model.logManager.scrollbackLength));
      && model.messages == NewRows(Map(model.logManager.process, log[j..]))
      && ShowsFrom(model.messages, log, j, model.logManager.process)
  {
    hide Pageable, ShowsFrom, Tracks, Concat, Before, Emitted, NewRows, Page;
    ghost var days, m := Map(logs, dates), model.logManager;
    NoDays(days);
    FirstLoad(days, m.iso, m.process, m.messageQueue, m.scrollbackLength);
    ghost var rows := NewRows(Map(m.process, Concat(days)[Max(0, |Concat(days)| - m.scrollbackLength)..]));
    assert rows + [] == rows;
    model.SetContactData(true, true, dates, logs);
  }

  /** A new conversation loads its history and then pages back: it shows the end of the log, and all of it
      once there have been enough pages. */
  method WholeConversation(model: MessagesModel, dates: seq<Date>, logs: Date -> seq<Message>, pages: nat)
    requires New(model, Map(logs, dates))
    modifies model, model.logManager
    ensures model.Valid()
    ensures
      var log, first := Concat(Map(logs, dates)), old(model.logManager.scrollbackLength);
      && model.messages == NewRows(Map(model.logManager.process, log[Max(0, |log| - first - 10 * pages)..]))
      && (first + 10 * pages >= |log| ==> model.messages == NewRows(Map(model.logManager.process, log)))
  {
    hide Pageable, ShowsFrom, Tracks, Concat, NewRows;
    ghost var days, first := Map(logs, dates), model.logManager.scrollbackLength;
    ghost var log := Concat(days);
    ghost var j := Max(0, |log| - first);
    NoDays(days);
    LoadEnd(model, dates, logs);
    model.PageBack(pages, dates, logs, j);
    Joined(log, Max(0, j - 10 * pages), j, model.logManager.process);
  }

  lemma NoDays(days: seq<seq<Message>>)
    requires Concat(days) != []
    ensures days != []
  {
  }

  lemma FirstLoad(days: seq<seq<Message>>, iso: int -> string, process: Message -> Message,
                  queue: Option<seq<string>>, n: int)
    requires n > 0 && Concat(days) != [] && Pageable(days, iso, process, queue)
    ensures
      var log := Concat(days);
      var j := Max(0, |log| - n);
      && Page(Emitted(Before(days, "", iso) + [], queue, n, process), []) == Map(process, log[j..])
      && ShowsFrom(NewRows(Map(process, log[j..])) + [], log, j, process)
  {
    var log := Concat(days);
    var j := Max(0, |log| - n);
    hide Concat, Before, Pageable, Emitted, ShowsFrom;
    NotQueued(days, iso, process, queue);
    BeforeWithoutAnchor(days, iso);
    EmittedEnd(log, n, process, queue);
    ShowsEnd(log, j, process);
  }

  lemma NotQueued(days: seq<seq<Message>>, iso: int -> string, process: Message -> Message, queue: Option<seq<string>>)
    requires Pageable(days, iso, process, queue)
    ensures forall m :: m in Concat(days) ==> m.token !in Tokens(queue)
  {
    hide DistinctKeys, SameMessage, Key, Concat;
  }

  lemma EmittedEnd(log: seq<Message>, n: int, process: Message -> Message, queue: Option<seq<string>>)
    requires n > 0 && forall m :: m in log ==> m.token !in Tokens(queue)
    ensures Emitted(log + [], queue, n, process) == Map(process, log[Max(0, |log| - n)..])
  {
    var end := log[Max(0, |log| - n)..];
    assert log + [] == log && LastN(log, n) == end;
    UnqueuedAll(end, Tokens(queue));
  }

  lemma ShowsEnd(log: seq<Message>, j: nat, process: Message -> Message)
    requires j < |log|
    ensures ShowsFrom(NewRows(Map(process, log[j..])) + [], log, j, process)
  {
    hide NewRows, Map;
    var rows := NewRows(Map(process, log[j..]));
    RowsConcat(process, log[j..], []);
    assert (rows + [])[..|log| - j] == rows;
    MessagesOfRows(Map(process, log[j..]));
  }

  lemma Joined(log: seq<Message>, a: nat, b: nat, process: Message -> Message)
    requires a <= b <= |log|
    ensures NewRows(Map(process, log[a..b])) + NewRows(Map(process, log[b..])) == NewRows(Map(process, log[a..]))
    ensures log[0..] == log
  {
    Stretches(log, a, b, |log|);
    RowsConcat(process, log[a..b], log[b..]);
  }

  /** Fetching what comes before message `j` of the log, with its token or its time and text as the anchor:
      exactly the messages before it, although texts may repeat. */
  method FetchBefore(manager: ScrollbackManager, n: int, anchor: string, dates: seq<Date>, logs: Date -> seq<Message>,
                     ghost j: nat)
    requires manager.pending == Idle && manager.messagesCache == [] && n > 0 && manager.scrollbackLength > 0
    requires manager.accountSet && manager.contactValid && WritesTimes(manager.iso)
    requires
      var log := Concat(Map(logs, dates));
      && j < |log| && Told(log, manager.iso) && (forall m :: m in log ==> m.token !in Tokens(manager.messageQueue))
      && anchor == if log[j].token != "" then log[j].token else manager.iso(log[j].time) + log[j].body
    modifies manager
    ensures
      var log := Concat(Map(logs, dates));
      manager.fetched == old(manager.fetched)
        + [Map(manager.process, log[Max(0, j - old(manager.scrollbackLength))..j])]
  {
    hide Concat, Before, Emitted, Told, WritesTimes, Tokens, StopsAt;
    ghost var days := Map(logs, dates);
    ghost var log := Concat(days);
    NoDays(days);
    BeforeByFields(days, manager.iso, j);
    EmittedEnd(log[..j], manager.scrollbackLength, manager.process, manager.messageQueue);
    assert log[..j][Max(0, j - manager.scrollbackLength)..] == log[Max(0, j - manager.scrollbackLength)..j];
    manager.Fetch(n, anchor, dates, logs);
  }

  /** What the escape filter makes of a message without links. */
  function Escaped(m: Message): Message {
    m.(body := Passes(m.body))
  }

  /** A conversation of two messages without tokens, of which the newer one has a character to escape: the
      older one is never found. */
  method EditedBodyEndsPaging(iso: int -> string) returns (model: MessagesModel, log: seq<Message>)
    ensures |log| == 2 && model.messages == [NewRow(Escaped(log[1]))] && model.logsLoaded
    ensures DistinctKeys(log, iso) && !SameMessage(Escaped(log[0]), Escaped(log[1]))
  {
    log := [Message("", 0, "a", "s"), Message("", 0, "<", "s")];
    EscapedBodies(iso);
    hide Escaped, DistinctKeys, SameMessage, Key;
    model := ShowOnlyLast(log, iso);
  }

  /** The last message is shown, its key is not in the log, and the user asks for more. */
  method ShowOnlyLast(log: seq<Message>, iso: int -> string) returns (model: MessagesModel)
    requires |log| == 2 && Key(Escaped(log[1]), iso) != ""
    requires Key(Escaped(log[1]), iso) != Key(log[0], iso) && Key(Escaped(log[1]), iso) != Key(log[1], iso)
    ensures model.messages == [NewRow(Escaped(log[1]))] && model.logsLoaded
  {
    hide Escaped, Emitted, Before, Key, UpTo, Tracks, NewRow;
    OneDay(log, iso);
    var manager := new ScrollbackManager(Escaped, iso);
    model := new MessagesModel(manager, 1);
    var logs := (d: Date) => log;
    assert Map(logs, [0]) == [log];
    model.SetContactData(true, true, [0], logs);
    ghost var rows := [NewRow(Escaped(log[1]))];
    assert NewRows([Escaped(log[1])]) + [] == rows;
    assert model.messages == rows;
    assert rows[0].message == Escaped(log[1]) by { RowMessage(Escaped(log[1])); }
    KeyIs(Escaped(log[1]), iso);
    model.FetchMoreHistory([0], logs);
    assert NewRows([]) + rows == rows;
  }

  lemma KeyIs(m: Message, iso: int -> string)
    ensures Key(m, iso) == if m.token != "" then m.token else iso(m.time) + m.body
  {
  }

  lemma RowMessage(m: Message)
    ensures NewRow(m).message == m
  {
  }

  lemma EscapedBodies(iso: int -> string)
    ensures
      var a, b := Message("", 0, "a", "s"), Message("", 0, "<", "s");
      && DistinctKeys([a, b], iso) && !SameMessage(Escaped(a), Escaped(b))
      && Key(Escaped(b), iso) != Key(a, iso) && Key(Escaped(b), iso) != Key(b, iso) && Key(Escaped(b), iso) != ""
  {
    EscapeChanges();
    hide Passes;
    OtherText(iso(0), Passes("<"), "<");
    OtherText(iso(0), Passes("<"), "a");
    OtherText(iso(0), "a", "<");
    assert |iso(0) + Passes("<")| >= |Passes("<")|;
  }

  lemma OtherText(time: string, a: string, b: string)
    requires a != b
    ensures time + a != time + b
  {
    assert (time + a)[|time|..] == a && (time + b)[|time|..] == b;
  }

  lemma EscapeChanges()
    ensures Passes("<") != "<" && Passes("<") != "a" && Passes("<") != Passes("a") && Passes("<") != ""
  {
    PlainTexts();
    hide Passes, Encoded, Decode, Normalised;
    PassesRoundTrip("<");
    PassesRoundTrip("a");
  }

  lemma PlainTexts()
    ensures !Encoded("<") && Decode("a") == "a" && Decode("") == ""
    ensures Normalised("<") == "<" && Normalised("a") == "a"
  {
    assert Token("<") == "" && Token("a") == "";
    hide Token;
    assert "a"[1..] == "" && "<"[1..] == "";
  }

  lemma OneDay(log: seq<Message>, iso: int -> string)
    requires |log| == 2 && Key(Escaped(log[1]), iso) != ""
    requires Key(Escaped(log[1]), iso) != Key(log[0], iso) && Key(Escaped(log[1]), iso) != Key(log[1], iso)
    ensures Page(Emitted(Before([log], "", iso) + [], None, 1, Escaped), []) == [Escaped(log[1])]
    ensures UpTo(Emitted(Before([log], Key(Escaped(log[1]), iso), iso) + [], None, 10, Escaped), Escaped(log[1])) == []
  {
    assert Concat([log]) == log by { assert [log][1..] == [] && log + [] == log; }
    hide Escaped, Key, Concat, Before, Emitted;
    BeforeWithoutAnchor([log], iso);
    EmittedEnd(log, 1, Escaped, None);
    assert Map(Escaped, log[1..]) == [Escaped(log[1])];
    forall m | m in Concat([log]) ensures Key(m, iso) != Key(Escaped(log[1]), iso) {
      assert m == log[0] || m == log[1];
    }
    KeyNotInLog([log], Key(Escaped(log[1]), iso), iso);
    NothingEmitted(None, Escaped, Escaped(log[1]));
  }
}
