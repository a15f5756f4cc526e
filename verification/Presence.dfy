/** Presences and their order. */
module Presence {

  datatype PresenceType = Unset | Offline | Available | Away | ExtendedAway | Hidden | Busy | Unknown | Error

  datatype Presence = Presence(kind: PresenceType, status: string, message: string)

  function SortPriority(kind: PresenceType): nat {
    match kind
    case Available => 0
    case Busy => 1
    case Away => 2
    case ExtendedAway => 3
    case Hidden => 4
    case Error => 5
    case Unknown => 5
    case Unset => 5
    case Offline => 6
  }

  /** `operator ==`: the status name does not count, nor does the difference between the three types
      without a presence. */
  predicate Same(a: Presence, b: Presence) {
    SortPriority(a.kind) == SortPriority(b.kind) && a.message == b.message
  }

  /** `QString`'s `operator <`: by character. */
  predicate StringLess(a: string, b: string) {
    if b == "" then false
    else if a == "" then true
    else if a[0] != b[0] then a[0] < b[0]
    else StringLess(a[1..], b[1..])
  }

  /** `operator <`: further away from being available, then by message. */
  predicate Less(a: Presence, b: Presence) {
    if SortPriority(a.kind) > SortPriority(b.kind) then true
    else if SortPriority(a.kind) == SortPriority(b.kind) then StringLess(a.message, b.message)
    else false
  }

  predicate Greater(a: Presence, b: Presence) {
    Less(b, a)
  }

  const OFFLINE := Presence(Offline, "offline", "")

  lemma {:induction false} StringTrichotomy(a: string, b: string)
    ensures a == b ==> !StringLess(a, b) && !StringLess(b, a)
    ensures a != b ==> (StringLess(a, b) <==> !StringLess(b, a))
  {
    if a != "" && b != "" {
      assert a == [a[0]] + a[1..] && b == [b[0]] + b[1..];
      StringTrichotomy(a[1..], b[1..]);
    }
  }

  lemma {:induction false} StringTransitive(a: string, b: string, c: string)
    requires StringLess(a, b) && StringLess(b, c)
    ensures StringLess(a, c)
  {
    if a != "" && a[0] == b[0] && b[0] == c[0] {
      StringTransitive(a[1..], b[1..], c[1..]);
    }
  }

  /** `<`, `==` and `>` exclude each other and one of them always holds. */
  lemma Trichotomy(a: Presence, b: Presence)
    ensures Same(a, b) ==> !Less(a, b) && !Greater(a, b)
    ensures !Same(a, b) ==> (Less(a, b) <==> !Greater(a, b))
  {
    StringTrichotomy(a.message, b.message);
  }

  lemma LessTransitive(a: Presence, b: Presence, c: Presence)
    requires Less(a, b) && Less(b, c)
    ensures Less(a, c)
  {
    if SortPriority(a.kind) == SortPriority(b.kind) == SortPriority(c.kind) {
      StringTransitive(a.message, b.message, c.message);
    }
  }

  /** Equal presences compare alike. */
  lemma SameCompares(a: Presence, b: Presence, c: Presence)
    requires Same(a, b)
    ensures Less(a, c) <==> Less(b, c)
    ensures Less(c, a) <==> Less(c, b)
    ensures Same(a, c) <==> Same(b, c)
  {
  }

  /** Nothing is below being offline without a message. */
  lemma OfflineIsLeast(a: Presence)
    ensures !Less(a, OFFLINE)
    ensures !Same(a, OFFLINE) ==> Less(OFFLINE, a)
  {
    Trichotomy(a, OFFLINE);
  }

  /** From the most to the least available. */
  const AVAILABILITY := [Available, Busy, Away, ExtendedAway, Hidden, Unknown, Offline]

  /** What counts first is how available one is, whatever the messages say; the three types without a
      presence are all the same. */
  lemma ByAvailability(i: nat, j: nat, a: Presence, b: Presence)
    requires i < j < |AVAILABILITY| && a.kind == AVAILABILITY[i] && b.kind == AVAILABILITY[j]
    ensures Greater(a, b) && !Same(a, b)
    ensures SortPriority(a.kind) < SortPriority(b.kind)
    ensures SortPriority(Unknown) == SortPriority(Error) == SortPriority(Unset)
  {
  }

  /** Then messages count: the first character in which they differ decides. */
  lemma {:induction false} ByFirstDifference(common: string, x: char, y: char, u: string, v: string)
    requires x != y
    ensures StringLess(common + [x] + u, common + [y] + v) <==> x < y
  {
    var a, b := common + [x] + u, common + [y] + v;
    if common == "" {
      assert a[0] == x && b[0] == y;
    } else {
      assert a[0] == common[0] == b[0];
      assert a[1..] == common[1..] + [x] + u && b[1..] == common[1..] + [y] + v;
      ByFirstDifference(common[1..], x, y, u, v);
    }
  }

  /** And a message is less than what it is the beginning of. */
  lemma {:induction false} ByBeginning(common: string, more: string)
    requires more != ""
    ensures StringLess(common, common + more)
  {
    if common == "" {
      assert common + more == more;
    } else {
      assert (common + more)[0] == common[0] && (common + more)[1..] == common[1..] + more;
      ByBeginning(common[1..], more);
    }
  }
}
