/** Converting a Kopete log, which covers a month, into documents that cover a day each. */
module LogsImporter {
  import opened Sequences
  import opened TextReplace

  /** A moment in UTC. */
  datatype Time = Time(year: int, month: int, day: int, seconds: nat)

  datatype KopeteMessage = KopeteMessage(time: string, from: string, nick: string, text: string)

  datatype KtpMessage = KtpMessage(time: Time, id: string, name: string, isUser: bool, text: string)

  datatype HeadElement = DateElement(year: int, month: int) | ContactElement(kind: string, contactId: string)
    | OtherElement

  datatype Head = Head(year: int, month: int, meId: string, contactId: string)

  datatype KopeteLog = KopeteLog(heads: seq<seq<HeadElement>>, messages: seq<KopeteMessage>)

  /** A document together with what its path is made of. */
  datatype Document = Document(muc: bool, contactId: string, year: int, month: int, day: int, messages: seq<KtpMessage>)

  /** How the year and the month of the head and the time of a message give a moment in UTC, if they do. */
  type Clock = f: (int, int, string) -> Option<Time> | forall y, m, s :: f(y, m, s).Some? ==> f(y, m, s).value.day > 0
    witness (y, m, s) => None

  // ---- what a log says -----------------------------------------------------------------------------

  /** Later elements of the head override earlier ones. */
  function HeadOf(elements: seq<HeadElement>): Head
    decreases |elements|
  {
    if elements == [] then Head(0, 0, "", "")
    else
      var before := HeadOf(elements[..|elements| - 1]);
      match elements[|elements| - 1]
      case DateElement(y, m) => before.(year := y, month := m)
      case ContactElement(kind, id) => if kind == "myself" then before.(meId := id) else before.(contactId := id)
      case OtherElement => before
  }

  /** Two elements say the same kind of thing: the date, who oneself is, or who the contact is. */
  predicate OfKind(a: HeadElement, b: HeadElement) {
    || (a.DateElement? && b.DateElement?)
    || (a.ContactElement? && b.ContactElement? && (a.kind == "myself" <==> b.kind == "myself"))
  }

  ghost predicate LastOf(elements: seq<HeadElement>, k: nat)
    requires k < |elements|
  {
    forall l :: k < l < |elements| ==> !OfKind(elements[l], elements[k])
  }

  ghost predicate Says(head: Head, e: HeadElement) {
    match e
    case DateElement(y, m) => head.year == y && head.month == m
    case ContactElement(kind, id) => if kind == "myself" then head.meId == id else head.contactId == id
    case OtherElement => true
  }

  lemma {:induction false} HeadByElements(elements: seq<HeadElement>)
    ensures forall k :: 0 <= k < |elements| && LastOf(elements, k) ==> Says(HeadOf(elements), elements[k])
    ensures (forall k :: 0 <= k < |elements| ==> !elements[k].DateElement?) ==>
      HeadOf(elements).year == 0 && HeadOf(elements).month == 0
    ensures (forall k :: 0 <= k < |elements| ==> !OfKind(elements[k], ContactElement("myself", ""))) ==>
      HeadOf(elements).meId == ""
    ensures (forall k :: 0 <= k < |elements| ==> !OfKind(elements[k], ContactElement("", ""))) ==>
      HeadOf(elements).contactId == ""
    decreases |elements|
  {
    if elements != [] {
      var before, last := elements[..|elements| - 1], elements[|elements| - 1];
      HeadByElements(before);
      hide LastOf, Says;
      assert forall k :: 0 <= k < |before| ==> before[k] == elements[k];
      forall k | 0 <= k < |elements| && LastOf(elements, k) ensures Says(HeadOf(elements), elements[k]) {
        if k < |before| { LastBefore(elements, k); }
        StillSays(elements, k);
      }
    }
  }

  lemma LastBefore(elements: seq<HeadElement>, k: nat)
    requires k < |elements| - 1 && LastOf(elements, k)
    ensures LastOf(elements[..|elements| - 1], k) && !OfKind(elements[|elements| - 1], elements[k])
  {
    var before := elements[..|elements| - 1];
    forall l | k < l < |before| ensures !OfKind(before[l], before[k]) { assert before[l] == elements[l]; }
  }

  /** One more element changes only what it is about. */
  lemma StillSays(elements: seq<HeadElement>, k: nat)
    requires k < |elements|
    requires k < |elements| - 1 ==>
      Says(HeadOf(elements[..|elements| - 1]), elements[k]) && !OfKind(elements[|elements| - 1], elements[k])
    ensures Says(HeadOf(elements), elements[k])
  {
  }

  /** A message whose time cannot be parsed is skipped. */
  function TimedOne(clock: Clock, head: Head, message: KopeteMessage): (r: seq<(Time, KopeteMessage)>)
    ensures |r| <= 1 && forall k :: 0 <= k < |r| ==> r[k].0.day > 0
  {
    match clock(head.year, head.month, message.time)
    case None => []
    case Some(t) => [(t, message)]
  }

  function Timed(clock: Clock, head: Head, messages: seq<KopeteMessage>): (r: seq<(Time, KopeteMessage)>)
    ensures forall k :: 0 <= k < |r| ==> r[k].0.day > 0
    decreases |messages|
  {
    if messages == [] then []
    else Timed(clock, head, messages[..|messages| - 1]) + TimedOne(clock, head, messages[|messages| - 1])
  }

  lemma TimedNothing(clock: Clock, head: Head)
    ensures Timed(clock, head, []) == []
  {
  }

  lemma TimedNext(clock: Clock, head: Head, messages: seq<KopeteMessage>, k: nat)
    requires k < |messages|
    ensures Timed(clock, head, messages[..k + 1])
      == Timed(clock, head, messages[..k]) + TimedOne(clock, head, messages[k])
  {
    assert messages[..k + 1][..k] == messages[..k];
  }

  /** The sender of a message in a chat room begins with the room. */
  predicate FromRoom(contactId: string, sender: string) {
    contactId <= sender && |sender| > |contactId|
  }

  ghost predicate RoomSeen(contactId: string, timed: seq<(Time, KopeteMessage)>) {
    exists k :: 0 <= k < |timed| && FromRoom(contactId, timed[k].1.from)
  }

  function Convert(head: Head, muc: bool, time: Time, m: KopeteMessage): KtpMessage
    requires head.contactId != ""
  {
    var sender := if muc then ReplaceAll(m.from, head.contactId, "") else m.from;
    KtpMessage(time, sender, m.nick, sender == head.meId, m.text)
  }

  /** Only the room itself is taken off: what separates it from the sender stays in front, so the user of
      the log is recognised only if its own identity looks like that. */
  lemma RoomStripped(head: Head, time: Time, m: KopeteMessage, rest: string)
    requires head.contactId != "" && m.from == head.contactId + rest && !Occurs(rest, head.contactId)
    ensures Convert(head, true, time, m).id == rest
    ensures Convert(head, true, time, m).isUser <==> head.meId == rest
  {
    assert m.from[|head.contactId|..] == rest;
    ReplaceNothing(rest, head.contactId, "");
  }

  /** All messages as they appear in the documents: from the first one on that comes from a room, senders
      lose the name of the room. */
  ghost function Converted(head: Head, timed: seq<(Time, KopeteMessage)>): (r: seq<KtpMessage>)
    requires head.contactId != ""
    ensures |r| == |timed|
    ensures forall k :: 0 <= k < |r| ==>
      r[k] == Convert(head, RoomSeen(head.contactId, timed[..k + 1]), timed[k].0, timed[k].1)
  {
    seq(|timed|, k requires 0 <= k < |timed| =>
      Convert(head, RoomSeen(head.contactId, timed[..k + 1]), timed[k].0, timed[k].1))
  }

  lemma ConvertedStep(head: Head, timed: seq<(Time, KopeteMessage)>, next: (Time, KopeteMessage))
    requires head.contactId != ""
    ensures var muc := RoomSeen(head.contactId, timed) || FromRoom(head.contactId, next.1.from);
      && RoomSeen(head.contactId, timed + [next]) == muc
      && Converted(head, timed + [next]) == Converted(head, timed) + [Convert(head, muc, next.0, next.1)]
  {
    hide Convert, RoomSeen, FromRoom;
    var all := timed + [next];
    RoomSeenStep(head.contactId, timed, next);
    forall k | 0 <= k < |timed| ensures Converted(head, all)[k] == Converted(head, timed)[k] {
      assert all[..k + 1] == timed[..k + 1];
    }
    assert all[..|timed| + 1] == all;
  }

  lemma RoomSeenStep(contactId: string, timed: seq<(Time, KopeteMessage)>, next: (Time, KopeteMessage))
    ensures RoomSeen(contactId, timed + [next]) <==> RoomSeen(contactId, timed) || FromRoom(contactId, next.1.from)
  {
    var all := timed + [next];
    if RoomSeen(contactId, timed) {
      var k :| 0 <= k < |timed| && FromRoom(contactId, timed[k].1.from);
      assert all[k] == timed[k];
    }
    assert all[|timed|] == next;
  }

  // ---- splitting by day ------------------------------------------------------------------------------

  function Contents(documents: seq<Document>): seq<KtpMessage>
    decreases |documents|
  {
    if documents == [] then []
    else Contents(documents[..|documents| - 1]) + documents[|documents| - 1].messages
  }

  lemma ContentsAppend(documents: seq<Document>, d: Document)
    ensures Contents(documents + [d]) == Contents(documents) + d.messages
  {
    assert (documents + [d])[..|documents|] == documents;
  }

  ghost predicate OneDay(d: Document) {
    d.messages != [] && forall m :: m in d.messages ==> m.time.day == d.day
  }

  /** Each document has messages of one day of the month only, and the next one is of another day. */
  ghost predicate DayByDay(documents: seq<Document>) {
    && (forall i :: 0 <= i < |documents| ==> OneDay(documents[i]))
    && (forall i :: 0 < i < |documents| ==> documents[i - 1].day != documents[i].day)
  }

  /** Every document is filed by the head of the log, and under chat rooms if a message up to its end came
      from a room. */
  ghost predicate Filed(head: Head, timed: seq<(Time, KopeteMessage)>, documents: seq<Document>) {
    forall i :: 0 <= i < |documents| ==> FiledAt(head, timed, documents, i)
  }

  ghost predicate FiledAt(head: Head, timed: seq<(Time, KopeteMessage)>, documents: seq<Document>, i: nat)
    requires i < |documents|
  {
    var d, n := documents[i], |Contents(documents[..i + 1])|;
    && d.contactId == head.contactId && d.year == head.year && d.month == head.month
    && n <= |timed| && d.muc == RoomSeen(head.contactId, timed[..n])
  }

  lemma FiledMore(head: Head, timed: seq<(Time, KopeteMessage)>, documents: seq<Document>, next: (Time, KopeteMessage))
    requires Filed(head, timed, documents)
    ensures Filed(head, timed + [next], documents)
  {
    hide RoomSeen, Contents;
    forall i | 0 <= i < |documents| ensures FiledAt(head, timed + [next], documents, i) {
      assert FiledAt(head, timed, documents, i);
      var n := |Contents(documents[..i + 1])|;
      assert (timed + [next])[..n] == timed[..n];
    }
  }

  lemma FiledOneMore(head: Head, timed: seq<(Time, KopeteMessage)>, documents: seq<Document>, d: Document)
    requires Filed(head, timed, documents) && |Contents(documents)| + |d.messages| == |timed|
    requires d.contactId == head.contactId && d.year == head.year && d.month == head.month
    requires d.muc == RoomSeen(head.contactId, timed)
    ensures Filed(head, timed, documents + [d])
  {
    hide RoomSeen, Contents;
    var all := documents + [d];
    ContentsAppend(documents, d);
    forall i | 0 <= i < |all| ensures FiledAt(head, timed, all, i) {
      if i < |documents| {
        assert FiledAt(head, timed, documents, i);
        assert all[..i + 1] == documents[..i + 1];
      } else {
        assert all[..i + 1] == all && timed[..|timed|] == timed;
      }
    }
  }

  /** What one log adds to the documents saved. */
  ghost predicate SavedFrom(head: Head, timed: seq<(Time, KopeteMessage)>, documents: seq<Document>)
    requires head.contactId != ""
  {
    if timed == [] then documents == [Document(false, head.contactId, head.year, head.month, 0, [])]
    else
      && Contents(documents) == Converted(head, timed)
      && DayByDay(documents)
      && Filed(head, timed, documents)
  }

  /** Between two messages: `timed` have been converted, `added` saved, and `current` is being written. */
  ghost predicate InProgress(head: Head, timed: seq<(Time, KopeteMessage)>, added: seq<Document>, current: Document)
    requires head.contactId != ""
  {
    && current.contactId == head.contactId && current.year == head.year && current.month == head.month
    && current.muc == RoomSeen(head.contactId, timed)
    && if timed == [] then current.day == 0 && current.messages == [] && added == []
       else
         && current.day > 0
         && Contents(added) + current.messages == Converted(head, timed)
         && DayByDay(added + [current])
         && Filed(head, timed, added)
  }

  lemma SameDay(head: Head, timed: seq<(Time, KopeteMessage)>, added: seq<Document>, current: Document,
                next: (Time, KopeteMessage), muc: bool)
    requires head.contactId != "" && InProgress(head, timed, added, current) && next.0.day > 0
    requires current.day == 0 || current.day == next.0.day
    requires muc == (current.muc || FromRoom(head.contactId, next.1.from))
    ensures InProgress(head, timed + [next], added,
      current.(muc := muc, day := next.0.day, messages := current.messages + [Convert(head, muc, next.0, next.1)]))
  {
    hide RoomSeen, Convert, FromRoom, Filed, Contents;
    var m := Convert(head, muc, next.0, next.1);
    var after := current.(muc := muc, day := next.0.day, messages := current.messages + [m]);
    assert m.time == next.0 by { ConvertTime(head, muc, next); }
    ConvertedStep(head, timed, next);
    assert (added + [current])[|added|] == current;
    FiledNothing(head, timed);
    FiledMore(head, timed, added, next);
    assert Contents([]) == [] by { ContentsNothing(); }
    assert Contents(added) + after.messages == Contents(added) + current.messages + [m];
    assert OneDay(after);
    assert forall k :: 0 <= k < |added| ==> (added + [current])[k] == (added + [after])[k] == added[k];
    assert DayByDay(added + [after]);
  }

  lemma NextDay(head: Head, timed: seq<(Time, KopeteMessage)>, added: seq<Document>, current: Document,
                next: (Time, KopeteMessage), muc: bool)
    requires head.contactId != "" && InProgress(head, timed, added, current) && next.0.day > 0
    requires current.day != 0 && current.day != next.0.day
    requires muc == (current.muc || FromRoom(head.contactId, next.1.from))
    ensures InProgress(head, timed + [next], added + [current],
      Document(muc, head.contactId, head.year, head.month, next.0.day, [Convert(head, muc, next.0, next.1)]))
  {
    hide RoomSeen, Convert, FromRoom, Filed, Contents;
    var m := Convert(head, muc, next.0, next.1);
    var after := Document(muc, head.contactId, head.year, head.month, next.0.day, [m]);
    assert m.time == next.0 by { ConvertTime(head, muc, next); }
    ConvertedStep(head, timed, next);
    ContentsAppend(added, current);
    assert |timed| == |Contents(added)| + |current.messages|;
    FiledOneMore(head, timed, added, current);
    FiledMore(head, timed, added + [current], next);
    assert OneDay(after);
    var was, now := added + [current], added + [current] + [after];
    assert forall k :: 0 <= k < |was| ==> now[k] == was[k];
    assert now[|now| - 1] == after && was[|was| - 1] == current;
    assert DayByDay(now);
  }

  lemma ConvertTime(head: Head, muc: bool, next: (Time, KopeteMessage))
    requires head.contactId != ""
    ensures Convert(head, muc, next.0, next.1).time == next.0
  {
  }

  lemma ContentsNothing()
    ensures Contents([]) == []
  {
  }

  lemma FiledNothing(head: Head, timed: seq<(Time, KopeteMessage)>)
    ensures Filed(head, timed, [])
  {
  }

  lemma LastDocument(head: Head, timed: seq<(Time, KopeteMessage)>, added: seq<Document>, current: Document)
    requires head.contactId != "" && InProgress(head, timed, added, current)
    ensures SavedFrom(head, timed, added + [current])
  {
    hide Contents, Converted, Filed, DayByDay;
    ContentsAppend(added, current);
    if timed != [] {
      FiledOneMore(head, timed, added, current);
    } else {
      assert !current.muc;
      assert added + [current] == [current];
    }
  }

  // ---- what this determines -----------------------------------------------------------------------------

  lemma ContentsLast(documents: seq<Document>)
    requires documents != [] && DayByDay(documents)
    ensures
      var ms, last := Contents(documents), documents[|documents| - 1];
      && DayByDay(documents[..|documents| - 1])
      && last.messages != [] && last.messages <= ms[|ms| - |last.messages|..]
      && ms == Contents(documents[..|documents| - 1]) + last.messages
      && ms[|ms| - 1].time.day == last.day
  {
    var last := documents[|documents| - 1];
    assert OneDay(last);
    assert last.messages[|last.messages| - 1] in last.messages;
    assert forall k :: 0 <= k < |documents| - 1 ==> documents[..|documents| - 1][k] == documents[k];
  }

  /** The message before the last document is of another day. */
  lemma BeforeLast(documents: seq<Document>)
    requires documents != [] && DayByDay(documents)
    ensures
      var ms, last := Contents(documents), documents[|documents| - 1];
      var n := |ms| - |last.messages|;
      && n >= 0 && (n == 0 ==> |documents| == 1) && (n > 0 ==> ms[n - 1].time.day != last.day)
      && forall k :: n <= k < |ms| ==> ms[k].time.day == last.day
  {
    hide Contents;
    ContentsLast(documents);
    var ms, last := Contents(documents), documents[|documents| - 1];
    var n := |ms| - |last.messages|;
    assert OneDay(last);
    forall k | n <= k < |ms| ensures ms[k].time.day == last.day {
      assert ms[k] == last.messages[k - n];
    }
    var init := documents[..|documents| - 1];
    if init != [] {
      ContentsLast(init);
      assert init[|init| - 1] == documents[|documents| - 2];
      assert documents[|documents| - 2].day != last.day;
      assert ms[n - 1] == Contents(init)[n - 1];
    } else {
      ContentsNothing();
    }
  }

  /** The split into days is determined by the messages. */
  lemma {:induction false} SplitUnique(a: seq<Document>, b: seq<Document>)
    requires DayByDay(a) && DayByDay(b) && Contents(a) == Contents(b)
    ensures |a| == |b| && forall i :: 0 <= i < |a| ==> a[i].day == b[i].day && a[i].messages == b[i].messages
    decreases |a|
  {
    hide Contents, DayByDay;
    if a == [] || b == [] {
      ContentsNothing();
      if a != [] { ContentsLast(a); }
      if b != [] { ContentsLast(b); }
    } else {
      ContentsLast(a);
      ContentsLast(b);
      BeforeLast(a);
      BeforeLast(b);
      var x, y := a[|a| - 1], b[|b| - 1];
      assert |x.messages| == |y.messages|;
      var n := |Contents(a)| - |x.messages|;
      assert x.messages == Contents(a)[n..] == y.messages;
      assert Contents(a[..|a| - 1]) == Contents(a)[..n] == Contents(b[..|b| - 1]);
      SplitUnique(a[..|a| - 1], b[..|b| - 1]);
      forall i | 0 <= i < |a| ensures a[i].day == b[i].day && a[i].messages == b[i].messages {
        if i < |a| - 1 { assert a[i] == a[..|a| - 1][i] && b[i] == b[..|b| - 1][i]; }
      }
    }
  }

  /** Everything that is saved from a log is determined. */
  lemma SavedUnique(head: Head, timed: seq<(Time, KopeteMessage)>, a: seq<Document>, b: seq<Document>)
    requires head.contactId != "" && SavedFrom(head, timed, a) && SavedFrom(head, timed, b)
    ensures a == b
  {
    hide RoomSeen, DayByDay;
    if timed != [] {
      SplitUnique(a, b);
      forall i | 0 <= i < |a| ensures a[i] == b[i] {
        SameContents(a[..i + 1], b[..i + 1]);
        assert FiledAt(head, timed, a, i) && FiledAt(head, timed, b, i);
      }
    }
  }

  lemma {:induction false} SameContents(a: seq<Document>, b: seq<Document>)
    requires |a| == |b| && forall i :: 0 <= i < |a| ==> a[i].messages == b[i].messages
    ensures Contents(a) == Contents(b)
    decreases |a|
  {
    if a != [] {
      SameContents(a[..|a| - 1], b[..|b| - 1]);
    }
  }

  /** What is saved are the times, names and texts of the log, one for one. */
  lemma SavedTexts(head: Head, timed: seq<(Time, KopeteMessage)>, documents: seq<Document>, k: nat)
    requires head.contactId != "" && SavedFrom(head, timed, documents) && k < |timed|
    ensures |Contents(documents)| == |timed|
    ensures
      var m := Contents(documents)[k];
      m.time == timed[k].0 && m.name == timed[k].1.nick && m.text == timed[k].1.text
  {
    hide DayByDay, Filed, RoomSeen, Contents;
    assert Contents(documents)[k] == Converted(head, timed)[k];
  }

  predicate SameDate(a: Time, b: Time) {
    a.year == b.year && a.month == b.month && a.day == b.day
  }

  ghost predicate OneDate(d: Document) {
    forall k :: 0 < k < |d.messages| ==> SameDate(d.messages[k - 1].time, d.messages[k].time)
  }

  ghost predicate OneDateEach(documents: seq<Document>) {
    forall i :: 0 <= i < |documents| ==> OneDate(documents[i])
  }

  /** Two messages in a row that are of the same day of different months. */
  ghost predicate JumpAt(times: seq<Time>, k: int) {
    0 < k < |times| && times[k - 1].day == times[k].day && !SameDate(times[k - 1], times[k])
  }

  ghost predicate Jump(times: seq<Time>) {
    exists k :: JumpAt(times, k)
  }

  function Times(ms: seq<KtpMessage>): (r: seq<Time>)
    ensures |r| == |ms| && forall k :: 0 <= k < |r| ==> r[k] == ms[k].time
  {
    seq(|ms|, k requires 0 <= k < |ms| => ms[k].time)
  }

  lemma {:induction false} OneDateIff(documents: seq<Document>)
    requires DayByDay(documents)
    ensures OneDateEach(documents) <==> !Jump(Times(Contents(documents)))
    decreases |documents|
  {
    hide DayByDay, Contents;
    if documents == [] {
      ContentsNothing();
    } else {
      var init, last := documents[..|documents| - 1], documents[|documents| - 1];
      ContentsLast(documents);
      BeforeLast(documents);
      OneDateIff(init);
      JumpSplit(Contents(init), last);
      assert OneDateEach(documents) <==> OneDateEach(init) && OneDate(last) by {
        assert documents == init + [last];
      }
    }
  }

  lemma JumpSplit(before: seq<KtpMessage>, last: Document)
    requires forall m :: m in last.messages ==> m.time.day == last.day
    requires before != [] ==> before[|before| - 1].time.day != last.day
    ensures Jump(Times(before + last.messages)) <==> Jump(Times(before)) || !OneDate(last)
  {
    hide SameDate;
    if Jump(Times(before + last.messages)) { JumpAfter(before, last); }
    if Jump(Times(before)) || !OneDate(last) { JumpBefore(before, last); }
  }

  lemma JumpAfter(before: seq<KtpMessage>, last: Document)
    requires forall m :: m in last.messages ==> m.time.day == last.day
    requires before != [] ==> before[|before| - 1].time.day != last.day
    requires Jump(Times(before + last.messages))
    ensures Jump(Times(before)) || !OneDate(last)
  {
    hide SameDate;
    var all, n := Times(before + last.messages), |before|;
    var k :| JumpAt(all, k);
    if k < n {
      assert JumpAt(Times(before), k);
    } else if k > n {
      assert !SameDate(last.messages[k - n - 1].time, last.messages[k - n].time);
    }
  }

  lemma JumpBefore(before: seq<KtpMessage>, last: Document)
    requires forall m :: m in last.messages ==> m.time.day == last.day
    requires Jump(Times(before)) || !OneDate(last)
    ensures Jump(Times(before + last.messages))
  {
    hide SameDate;
    var all, n := Times(before + last.messages), |before|;
    if Jump(Times(before)) {
      var k :| JumpAt(Times(before), k);
      assert JumpAt(all, k);
    } else {
      var k :| 0 < k < |last.messages| && !SameDate(last.messages[k - 1].time, last.messages[k].time);
      assert last.messages[k - 1] in last.messages && last.messages[k] in last.messages;
      assert JumpAt(all, n + k);
    }
  }

  /** Only the day of the month is compared: the documents hold one date each exactly if no two messages
      in a row are of the same day of different months. */
  lemma SavedDates(head: Head, timed: seq<(Time, KopeteMessage)>, documents: seq<Document>)
    requires head.contactId != "" && SavedFrom(head, timed, documents)
    ensures OneDateEach(documents) <==> !Jump(seq(|timed|, k requires 0 <= k < |timed| => timed[k].0))
  {
    hide RoomSeen, Filed, DayByDay;
    var times := seq(|timed|, k requires 0 <= k < |timed| => timed[k].0);
    if timed == [] {
      assert OneDate(documents[0]);
    } else {
      forall k | 0 <= k < |timed| ensures Times(Contents(documents))[k] == times[k] {
        assert Contents(documents)[k] == Converted(head, timed)[k];
      }
      assert Times(Contents(documents)) == times;
      OneDateIff(documents);
    }
  }

  /** A log whose first message, just after local midnight, is still of the last day of the month before in
      UTC, and whose second message is of the last day of its own month: one document holds both. */
  lemma MonthsShareDocument(head: Head, a: KopeteMessage, b: KopeteMessage, documents: seq<Document>)
    requires head.contactId != ""
    requires SavedFrom(head, [(Time(2012, 12, 31, 84600), a), (Time(2013, 1, 31, 43200), b)], documents)
    ensures |documents| == 1 && !OneDate(documents[0])
  {
    var timed := [(Time(2012, 12, 31, 84600), a), (Time(2013, 1, 31, 43200), b)];
    var ms := Converted(head, timed);
    var d := Document(false, "", 0, 0, 31, ms);
    hide RoomSeen, Filed, Converted;
    assert ms[0].time == timed[0].0 && ms[1].time == timed[1].0;
    assert Contents([d]) == ms by { ContentsNothing(); ContentsAppend([], d); assert [] + [d] == [d]; }
    assert OneDay(d) && DayByDay([d]);
    SplitUnique(documents, [d]);
    assert documents[0].messages == ms;
    assert !SameDate(ms[0].time, ms[1].time);
  }

  class Importer {
    const clock: Clock
    var day: int
    var month: int
    var year: int
    var isMUCLog: bool
    var meId: string
    var contactId: string
    var document: seq<KtpMessage>
    var saved: seq<Document>
    var errors: nat

    ghost function TheHead(): Head reads this {
      Head(year, month, meId, contactId)
    }

    constructor (clock: Clock)
      ensures this.clock == clock && saved == [] && errors == 0
    {
      this.clock := clock;
      day, month, year, isMUCLog := 0, 0, 0, false;
      meId, contactId, document, saved, errors := "", "", [], [], 0;
    }

    method InitKTpDocument()
      modifies `document
      ensures document == []
    {
      document := [];
    }

    method SaveKTpDocument()
      modifies `saved
      ensures saved == old(saved) + [Document(isMUCLog, contactId, year, month, day, document)]
    {
      saved := saved + [Document(isMUCLog, contactId, year, month, day, document)];
    }

    method ConvertKopeteMessage(message: KopeteMessage) returns (r: Option<KtpMessage>)
      requires contactId != ""
      modifies `day, `isMUCLog, `document, `saved
      ensures
        match clock(year, month, message.time)
        case None => r == None && unchanged(this)
        case Some(t) =>
          && day == t.day
          && isMUCLog == (old(isMUCLog) || (contactId <= message.from && message.from != contactId))
          && r == Some(Convert(TheHead(), isMUCLog, t, message))
          && r.value.time == t && r.value.name == message.nick && r.value.text == message.text
          && r.value.id == (if isMUCLog then ReplaceAll(message.from, contactId, "") else message.from)
          && r.value.isUser == (r.value.id == meId)
          && if old(day) == 0 || old(day) == t.day then
               saved == old(saved) && document == old(document)
             else
               && saved == old(saved) + [Document(old(isMUCLog), contactId, year, month, old(day), old(document))]
               && document == []
    {
      var time := clock(year, month, message.time);
      if time.None? {
        return None;
      }
      if day == 0 {
        day := time.value.day;
      }
      if time.value.day != day {
        SaveKTpDocument();
        day := time.value.day;
        InitKTpDocument();
      }
      var sender := message.from;
      if !isMUCLog && contactId <= sender && |sender| > |contactId| {
        isMUCLog := true;
      }
      if isMUCLog {
        sender := ReplaceAll(sender, contactId, "");
      }
      r := Some(KtpMessage(time.value, sender, message.nick, sender == meId, message.text));
    }

    /** Reads the first head; the last element of each kind counts. */
    method ReadHead(elements: seq<HeadElement>)
      modifies `year, `month, `meId, `contactId
      requires year == 0 && month == 0 && meId == "" && contactId == ""
      ensures TheHead() == HeadOf(elements)
      ensures forall k :: 0 <= k < |elements| && LastOf(elements, k) ==>
        match elements[k]
        case DateElement(y, m) => year == y && month == m
        case ContactElement(kind, id) => if kind == "myself" then meId == id else contactId == id
        case OtherElement => true
      ensures (forall k :: 0 <= k < |elements| ==> !elements[k].DateElement?) ==> year == 0 && month == 0
      ensures (forall k :: 0 <= k < |elements| ==> !OfKind(elements[k], ContactElement("myself", ""))) ==> meId == ""
      ensures (forall k :: 0 <= k < |elements| ==> !OfKind(elements[k], ContactElement("", ""))) ==> contactId == ""
    {
      HeadByElements(elements);
      var k := 0;
      while k < |elements|
        invariant 0 <= k <= |elements| && TheHead() == HeadOf(elements[..k])
      {
        assert elements[..k + 1][..k] == elements[..k];
        match elements[k] {
          case DateElement(y, m) => year, month := y, m;
          case ContactElement(kind, id) =>
            if kind == "myself" { meId := id; } else { contactId := id; }
          case OtherElement =>
        }
        k := k + 1;
      }
      assert elements[..k] == elements;
    }

    ghost function Current(): Document reads this {
      Document(isMUCLog, contactId, year, month, day, document)
    }

    ghost predicate Converting(head: Head, timed: seq<(Time, KopeteMessage)>, added: seq<Document>)
      requires head.contactId != ""
      reads this
    {
      TheHead() == head && InProgress(head, timed, added, Current())
    }

    /** One round of the loop over the messages. */
    method AppendConverted(message: KopeteMessage, ghost timed: seq<(Time, KopeteMessage)>, ghost added: seq<Document>)
      returns (ghost more: seq<(Time, KopeteMessage)>, ghost now: seq<Document>)
      requires contactId != "" && Converting(TheHead(), timed, added)
      modifies `day, `isMUCLog, `document, `saved
      ensures more == timed + TimedOne(clock, TheHead(), message)
      ensures Converting(TheHead(), more, now) && TheHead() == old(TheHead())
      ensures added <= now && saved == old(saved) + now[|added|..]
    {
      hide InProgress, Convert;
      ghost var head, was := TheHead(), Current();
      more, now := timed, added;
      var r := ConvertKopeteMessage(message);
      if r.Some? {
        ghost var t := clock(year, month, message.time).value;
        document := document + [r.value];
        more := timed + [(t, message)];
        if was.day == 0 || was.day == t.day {
          SameDay(head, timed, added, was, (t, message), isMUCLog);
          assert Current() == was.(muc := isMUCLog, day := t.day, messages := was.messages + [r.value]);
        } else {
          NextDay(head, timed, added, was, (t, message), isMUCLog);
          assert document == [r.value];
          now := added + [was];
        }
      }
    }

    method ConvertMessages(messages: seq<KopeteMessage>) returns (ghost added: seq<Document>)
      requires contactId != "" && day == 0 && !isMUCLog && document == []
      modifies `day, `isMUCLog, `document, `saved
      ensures TheHead() == old(TheHead()) && saved == old(saved) + added
      ensures Converting(TheHead(), Timed(clock, TheHead(), messages), added)
    {
      ghost var timed: seq<(Time, KopeteMessage)> := [];
      added := [];
      assert Converting(TheHead(), timed, added);
      hide InProgress, Timed, TimedOne;
      assert Timed(clock, TheHead(), []) == [] by { TimedNothing(clock, TheHead()); }
      assert messages[..0] == [];
      var k := 0;
      while k < |messages|
        invariant 0 <= k <= |messages| && timed == Timed(clock, TheHead(), messages[..k])
        invariant TheHead() == old(TheHead()) && Converting(TheHead(), timed, added)
        invariant saved == old(saved) + added
      {
        TimedNext(clock, TheHead(), messages, k);
        ghost var now;
        timed, now := AppendConverted(messages[k], timed, added);
        assert now == added + now[|added|..];
        added := now;
        k := k + 1;
      }
      assert messages[..k] == messages;
    }

    /** A log without a proper head is not converted at all. From any other, every message whose time can
        be parsed is saved once and in order. */
    method ConvertKopeteLog(log: KopeteLog)
      modifies this
      ensures errors == old(errors) + if log.heads == [] || |log.heads[0]| < 3 then 1 else 0
      ensures log.heads == [] || |log.heads[0]| < 3 ==> saved == old(saved)
      ensures log.heads != [] && |log.heads[0]| >= 3 ==>
        var head := HeadOf(log.heads[0]);
        if head.year == 0 || head.month == 0 || head.meId == "" || head.contactId == "" then saved == old(saved)
        else old(saved) <= saved && SavedFrom(head, Timed(clock, head, log.messages), saved[|old(saved)|..])
    {
      day, month, year, isMUCLog, meId, contactId := 0, 0, 0, false, "", "";
      InitKTpDocument();
      if log.heads == [] {
        errors := errors + 1;
        return;
      }
      if |log.heads[0]| < 3 {
        errors := errors + 1;
        return;
      }
      ReadHead(log.heads[0]);
      if year == 0 || month == 0 || meId == "" || contactId == "" {
        return;
      }
      hide InProgress, SavedFrom, Timed, HeadOf;
      ghost var added := ConvertMessages(log.messages);
      LastDocument(TheHead(), Timed(clock, TheHead(), log.messages), added, Current());
      assert saved + [Current()] == old(saved) + (added + [Current()]);
      SaveKTpDocument();
    }
  }
}
