/** Logged messages, and which of them come before an anchor. */
module ChatHistory {
  import opened Sequences

  datatype Message = Message(token: string, time: int, body: string, sender: string)

  /** Equality of messages as the original defines it: the token does not take part. */
  predicate SameMessage(a: Message, b: Message) {
    a.body == b.body && a.time == b.time && a.sender == b.sender
  }

  /** What identifies a message: its token, or its written time and its text when it has none. */
  function Key(m: Message, iso: int -> string): string {
    if m.token == "" then iso(m.time) + m.body else m.token
  }

  /** The place of the first message with that key; the length when there is none. */
  function FirstMatch(day: seq<Message>, key: string, iso: int -> string): (i: nat)
    ensures i <= |day|
    ensures i < |day| ==> Key(day[i], iso) == key
    ensures forall k :: 0 <= k < i ==> Key(day[k], iso) != key
  {
    if day == [] || Key(day[0], iso) == key then 0 else 1 + FirstMatch(day[1..], key, iso)
  }

  predicate Contains(day: seq<Message>, key: string, iso: int -> string) {
    FirstMatch(day, key, iso) < |day|
  }

  function Concat(days: seq<seq<Message>>): seq<Message> {
    if days == [] then [] else days[0] + Concat(days[1..])
  }

  /** The anchor that is still to be found after these days; empty when there is none. */
  function Remaining(days: seq<seq<Message>>, anchor: string, iso: int -> string): string {
    if days == [] then anchor
    else if Remaining(days[1..], anchor, iso) == "" then ""
    else if Contains(days[0], anchor, iso) then ""
    else anchor
  }

  /** What one day, in the light of the newer ones, contributes. */
  function Contribution(day: seq<Message>, remaining: string, iso: int -> string): seq<Message> {
    if remaining == "" then day
    else if Contains(day, remaining, iso) then day[..FirstMatch(day, remaining, iso)]
    else []
  }

  /** The messages of the days, oldest day first, that come before the anchor. */
  function Before(days: seq<seq<Message>>, anchor: string, iso: int -> string): seq<Message> {
    if days == [] then []
    else Contribution(days[0], Remaining(days[1..], anchor, iso), iso) + Before(days[1..], anchor, iso)
  }

  lemma {:induction false} RemainingCases(days: seq<seq<Message>>, anchor: string, iso: int -> string)
    ensures Remaining(days, anchor, iso) == "" || Remaining(days, anchor, iso) == anchor
    ensures anchor != "" ==>
      (Remaining(days, anchor, iso) == "" <==> exists d :: 0 <= d < |days| && Contains(days[d], anchor, iso))
  {
    if days != [] {
      RemainingCases(days[1..], anchor, iso);
      if anchor != "" {
        if d :| 0 <= d < |days| && Contains(days[d], anchor, iso) {
          if d > 0 { assert days[1..][d - 1] == days[d]; }
        }
        if d :| 0 <= d < |days[1..]| && Contains(days[1..][d], anchor, iso) {
          assert days[d + 1] == days[1..][d];
        }
      }
    }
  }

  /** Without an anchor, everything. */
  lemma {:induction false} BeforeWithoutAnchor(days: seq<seq<Message>>, iso: int -> string)
    ensures Before(days, "", iso) == Concat(days) && Remaining(days, "", iso) == ""
  {
    if days != [] { BeforeWithoutAnchor(days[1..], iso); }
  }

  /** When no day has the anchor, nothing. */
  lemma {:induction false} BeforeUnknownAnchor(days: seq<seq<Message>>, anchor: string, iso: int -> string)
    requires anchor != "" && forall d :: 0 <= d < |days| ==> !Contains(days[d], anchor, iso)
    ensures Before(days, anchor, iso) == [] && Remaining(days, anchor, iso) == anchor
  {
    if days != [] {
      forall d | 0 <= d < |days[1..]| ensures !Contains(days[1..][d], anchor, iso) {
        assert days[1..][d] == days[d + 1];
      }
      BeforeUnknownAnchor(days[1..], anchor, iso);
    }
  }

  /** With an anchor: all older days, and the newest day that has it up to its first match. */
  lemma {:induction false} BeforeKnownAnchor(days: seq<seq<Message>>, anchor: string, iso: int -> string, d: nat)
    requires anchor != "" && d < |days| && Contains(days[d], anchor, iso)
    requires forall e :: d < e < |days| ==> !Contains(days[e], anchor, iso)
    ensures Before(days, anchor, iso) == Concat(days[..d]) + days[d][..FirstMatch(days[d], anchor, iso)]
    ensures Remaining(days, anchor, iso) == ""
  {
    if d == 0 {
      forall e | 0 <= e < |days[1..]| ensures !Contains(days[1..][e], anchor, iso) {
        assert days[1..][e] == days[e + 1];
      }
      BeforeUnknownAnchor(days[1..], anchor, iso);
    } else {
      assert days[1..][d - 1] == days[d];
      forall e | d - 1 < e < |days[1..]| ensures !Contains(days[1..][e], anchor, iso) {
        assert days[1..][e] == days[e + 1];
      }
      BeforeKnownAnchor(days[1..], anchor, iso, d - 1);
      assert days[..d][0] == days[0] && days[..d][1..] == days[1..][..d - 1];
    }
  }

  /** The newer days give a suffix of the whole answer. */
  lemma {:induction false} BeforeSuffix(days: seq<seq<Message>>, anchor: string, iso: int -> string, k: nat)
    returns (older: seq<Message>)
    requires k <= |days|
    ensures Before(days, anchor, iso) == older + Before(days[k..], anchor, iso)
    decreases k
  {
    if k == 0 {
      older := [];
      assert days[0..] == days;
    } else {
      var rest := BeforeSuffix(days[1..], anchor, iso, k - 1);
      assert days[1..][k - 1..] == days[k..];
      older := Contribution(days[0], Remaining(days[1..], anchor, iso), iso) + rest;
    }
  }

  // ---- the last n messages -------------------------------------------------------------------

  function LastN<T>(s: seq<T>, n: int): (r: seq<T>)
    ensures |r| <= |s| && (n <= 0 ==> r == [])
    ensures n > 0 ==> |r| == if n < |s| then n else |s|
  {
    if n <= 0 then [] else if n < |s| then s[|s| - n..] else s
  }

  /** A suffix that is long enough already decides the last n. */
  lemma LastOfSuffix<T>(older: seq<T>, suffix: seq<T>, n: int)
    requires n <= |suffix|
    ensures LastN(older + suffix, n) == LastN(suffix, n)
  {
    if n > 0 {
      assert (older + suffix)[|older| + |suffix| - n..] == suffix[|suffix| - n..];
    }
  }

  /** The messages without those that are still queued on the channel. */
  function Unqueued(s: seq<Message>, queue: seq<string>): (r: seq<Message>)
    ensures forall m :: m in r <==> m in s && m.token !in queue
  {
    if s == [] then [] else (if s[0].token in queue then [] else [s[0]]) + Unqueued(s[1..], queue)
  }

  lemma {:induction false} UnqueuedAll(s: seq<Message>, queue: seq<string>)
    requires forall m :: m in s ==> m.token !in queue
    ensures Unqueued(s, queue) == s
  {
    if s != [] { UnqueuedAll(s[1..], queue); }
  }

  lemma {:induction false} UnqueuedAppend(s: seq<Message>, m: Message, queue: seq<string>)
    ensures Unqueued(s + [m], queue) == Unqueued(s, queue) + if m.token in queue then [] else [m]
  {
    if s == [] {
      assert s + [m] == [m];
      assert [m][1..] == [];
    } else {
      assert (s + [m])[0] == s[0] && (s + [m])[1..] == s[1..] + [m];
      UnqueuedAppend(s[1..], m, queue);
    }
  }

  // ---- anchors in a log with distinct keys ------------------------------------------------------

  ghost predicate DistinctKeys(log: seq<Message>, iso: int -> string) {
    forall i, j :: 0 <= i < j < |log| ==> Key(log[i], iso) != Key(log[j], iso)
  }

  lemma {:induction false} DayInLog(days: seq<seq<Message>>, d: nat, k: nat) returns (i: nat)
    requires d < |days| && k < |days[d]|
    ensures i < |Concat(days)| && Concat(days)[i] == days[d][k]
    decreases d
  {
    if d == 0 {
      i := k;
    } else {
      assert days[1..][d - 1] == days[d];
      var rest := DayInLog(days[1..], d - 1, k);
      i := |days[0]| + rest;
    }
  }

  /** When keys are distinct, what comes before the key of message `j` is the log up to `j`. */
  lemma {:induction false} BeforeInLog(days: seq<seq<Message>>, iso: int -> string, j: nat)
    requires DistinctKeys(Concat(days), iso) && j < |Concat(days)|
    requires Key(Concat(days)[j], iso) != ""
    ensures Before(days, Key(Concat(days)[j], iso), iso) == Concat(days)[..j]
    ensures Remaining(days, Key(Concat(days)[j], iso), iso) == ""
  {
    var log, key := Concat(days), Key(Concat(days)[j], iso);
    var first, rest := days[0], Concat(days[1..]);
    assert log == first + rest;
    if j < |first| {
      AnchorInFirstDay(days, iso, j);
    } else {
      assert rest[j - |first|] == log[j];
      RestDistinct(first, rest, iso);
      BeforeInLog(days[1..], iso, j - |first|);
      assert log[..j] == first + rest[..j - |first|];
    }
  }

  lemma RestDistinct(first: seq<Message>, rest: seq<Message>, iso: int -> string)
    requires DistinctKeys(first + rest, iso)
    ensures DistinctKeys(rest, iso)
  {
    forall i, j | 0 <= i < j < |rest| ensures Key(rest[i], iso) != Key(rest[j], iso) {
      assert (first + rest)[|first| + i] == rest[i] && (first + rest)[|first| + j] == rest[j];
    }
  }

  lemma AnchorInFirstDay(days: seq<seq<Message>>, iso: int -> string, j: nat)
    requires days != [] && j < |days[0]| && DistinctKeys(Concat(days), iso)
    requires Key(days[0][j], iso) != ""
    ensures Before(days, Key(days[0][j], iso), iso) == Concat(days)[..j]
    ensures Remaining(days, Key(days[0][j], iso), iso) == ""
  {
    var log, key := Concat(days), Key(days[0][j], iso);
    assert log[j] == days[0][j];
    assert forall i :: 0 <= i < |Concat(days[1..])| ==> log[|days[0]| + i] == Concat(days[1..])[i];
    forall d | 0 <= d < |days[1..]| ensures !Contains(days[1..][d], key, iso) {
      var k := FirstMatch(days[1..][d], key, iso);
      if k < |days[1..][d]| {
        var i := DayInLog(days[1..], d, k);
      }
    }
    BeforeUnknownAnchor(days[1..], key, iso);
    var k := FirstMatch(days[0], key, iso);
    assert k <= j;
    assert log[k] == days[0][k] && log[j] == days[0][j];
  }

  /** A key that no message of the log has finds nothing. */
  lemma KeyNotInLog(days: seq<seq<Message>>, key: string, iso: int -> string)
    requires key != "" && forall m :: m in Concat(days) ==> Key(m, iso) != key
    ensures Before(days, key, iso) == []
  {
    forall d | 0 <= d < |days| ensures !Contains(days[d], key, iso) {
      var k := FirstMatch(days[d], key, iso);
      if k < |days[d]| {
        var i := DayInLog(days, d, k);
      }
    }
    BeforeUnknownAnchor(days, key, iso);
  }

  /** An anchor taken from a processed message finds its place exactly when processing kept the key,
      or when nothing is to be found and nothing is. */
  lemma ProcessedAnchor(days: seq<seq<Message>>, iso: int -> string, j: nat, key: string)
    requires DistinctKeys(Concat(days), iso) && j < |Concat(days)| && key != ""
    ensures Before(days, key, iso) == Concat(days)[..j] <==>
      Key(Concat(days)[j], iso) == key || (j == 0 && forall m :: m in Concat(days) ==> Key(m, iso) != key)
  {
    var log := Concat(days);
    if m :| m in log && Key(m, iso) == key {
      var i :| 0 <= i < |log| && log[i] == m;
      BeforeInLog(days, iso, i);
      assert |log[..i]| == i && |log[..j]| == j;
    } else {
      KeyNotInLog(days, key, iso);
    }
  }

  // ---- anchors by the fields of a message ---------------------------------------------------------

  /** How times are written: every one in its own way, and all equally long. */
  ghost predicate WritesTimes(iso: int -> string) {
    && (forall a, b :: iso(a) == iso(b) ==> a == b)
    && (forall a, b :: |iso(a)| == |iso(b)|)
  }

  /** Messages with tokens have different ones; without, they differ in time or text, so that texts may
      repeat; and no token looks like a time and a text. */
  ghost predicate Told(log: seq<Message>, iso: int -> string) {
    && (forall i, j :: 0 <= i < j < |log| && log[i].token != "" && log[j].token != "" ==> log[i].token != log[j].token)
    && (forall i, j :: 0 <= i < j < |log| && log[i].token == "" && log[j].token == "" ==>
          log[i].time != log[j].time || log[i].body != log[j].body)
    && (forall i, j :: 0 <= i < |log| && 0 <= j < |log| && log[i].token != "" && log[j].token == "" ==>
          log[i].token != iso(log[j].time) + log[j].body)
  }

  lemma TimesTell(iso: int -> string, a: int, x: string, b: int, y: string)
    requires WritesTimes(iso) && iso(a) + x == iso(b) + y
    ensures a == b && x == y
  {
    var n := |iso(a)|;
    assert n == |iso(b)|;
    assert (iso(a) + x)[..n] == iso(a) && (iso(b) + y)[..n] == iso(b);
    assert (iso(a) + x)[n..] == x && (iso(b) + y)[n..] == y;
  }

  lemma TimesNotEmpty(iso: int -> string, a: int)
    requires WritesTimes(iso)
    ensures iso(a) != ""
  {
    assert |iso(a)| == |iso(a + 1)| && (iso(a) == iso(a + 1) ==> a == a + 1);
  }

  lemma ToldDistinct(log: seq<Message>, iso: int -> string)
    requires WritesTimes(iso) && Told(log, iso)
    ensures DistinctKeys(log, iso)
  {
    hide WritesTimes;
    forall i, j | 0 <= i < j < |log| ensures Key(log[i], iso) != Key(log[j], iso) {
      if log[i].token == "" && log[j].token == "" && Key(log[i], iso) == Key(log[j], iso) {
        TimesTell(iso, log[i].time, log[i].body, log[j].time, log[j].body);
      }
    }
  }

  /** A message is found by its token, or by its time and text, and what comes before it is the log up to
      it, although texts repeat. */
  lemma BeforeByFields(days: seq<seq<Message>>, iso: int -> string, j: nat)
    requires WritesTimes(iso) && Told(Concat(days), iso) && j < |Concat(days)|
    ensures
      var m := Concat(days)[j];
      var anchor := if m.token != "" then m.token else iso(m.time) + m.body;
      Before(days, anchor, iso) == Concat(days)[..j]
  {
    hide Before, WritesTimes, Told;
    var m := Concat(days)[j];
    ToldDistinct(Concat(days), iso);
    TimesNotEmpty(iso, m.time);
    assert Key(m, iso) != "" by { assert |iso(m.time) + m.body| >= |iso(m.time)|; }
    BeforeInLog(days, iso, j);
  }
}
