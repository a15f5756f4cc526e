/** Collecting the days of a log from several backends that answer in any order. */
module LoggerDates {
  import opened Sequences

  type Date = int
  type Operation = nat

  /** A backend; one that handles the account may still not start an operation. */
  datatype Plugin = Plugin(handlesAccount: bool, starts: bool)

  ghost predicate Ascending(dates: seq<Date>) {
    forall i, j :: 0 <= i < j < |dates| ==> dates[i] < dates[j]
  }

  ghost function Elements(dates: seq<Date>): set<Date> {
    set d | d in dates
  }

  lemma NoElements(dates: seq<Date>)
    ensures dates != [] ==> Elements(dates) != {}
  {
    if dates != [] { assert dates[0] in Elements(dates); }
  }

  lemma ElementsAppend(dates: seq<Date>, d: Date)
    ensures Elements(dates + [d]) == Elements(dates) + {d}
  {
  }

  /** A date list in strictly ascending order is determined by its dates. */
  lemma {:induction false} AscendingUnique(a: seq<Date>, b: seq<Date>)
    requires Ascending(a) && Ascending(b) && Elements(a) == Elements(b)
    ensures a == b
    decreases |a|
  {
    if a == [] {
      NoElements(b);
    } else {
      assert a[0] in Elements(b) by { assert a[0] in Elements(a); }
      assert b[0] in Elements(a) by { assert b[0] in Elements(b); }
      assert a[0] == b[0];
      forall d ensures d in Elements(a[1..]) <==> d in Elements(b[1..]) {
        assert d in Elements(a) <==> d == a[0] || d in a[1..];
        assert d in Elements(b) <==> d == b[0] || d in b[1..];
        assert a[0] !in a[1..] && b[0] !in b[1..];
      }
      AscendingUnique(a[1..], b[1..]);
    }
  }

  function Insert(d: Date, dates: seq<Date>): (r: seq<Date>)
    ensures multiset(r) == multiset(dates) + multiset{d}
  {
    if dates == [] || d <= dates[0] then [d] + dates
    else
      assert dates == [dates[0]] + dates[1..];
      [dates[0]] + Insert(d, dates[1..])
  }

  /** `std::sort` on dates. */
  function Sort(dates: seq<Date>): (r: seq<Date>)
    ensures multiset(r) == multiset(dates)
  {
    if dates == [] then []
    else
      assert dates == [dates[0]] + dates[1..];
      Insert(dates[0], Sort(dates[1..]))
  }

  lemma SameElements(a: seq<Date>, b: seq<Date>)
    requires multiset(a) == multiset(b)
    ensures forall d :: d in a <==> d in b
  {
    forall d ensures d in a <==> d in b {
      assert d in a <==> d in multiset(a);
      assert d in b <==> d in multiset(b);
    }
  }

  lemma {:induction false} InsertAscending(d: Date, dates: seq<Date>)
    requires Ascending(dates) && d !in dates
    ensures Ascending(Insert(d, dates))
  {
    if dates != [] && d > dates[0] {
      InsertAscending(d, dates[1..]);
      var rest := Insert(d, dates[1..]);
      SameElements(rest, dates[1..] + [d]);
      forall k | 0 <= k < |rest| ensures dates[0] < rest[k] { assert rest[k] in rest; }
    }
  }

  lemma {:induction false} SortAscending(dates: seq<Date>)
    requires NoDup(dates)
    ensures Ascending(Sort(dates))
  {
    if dates != [] {
      SortAscending(dates[1..]);
      SameElements(Sort(dates[1..]), dates[1..]);
      InsertAscending(dates[0], Sort(dates[1..]));
    }
  }

  class PendingLoggerDates {
    var runningOps: set<Operation>
    var dates: seq<Date>
    var finished: nat

    /** One operation per backend that handles the account and starts one; without any backend there is
        nothing to wait for. */
    constructor (plugins: seq<Plugin>)
      ensures runningOps == set k | 0 <= k < |plugins| && plugins[k].handlesAccount && plugins[k].starts
      ensures dates == [] && finished == if plugins == [] then 1 else 0
    {
      runningOps, dates, finished := {}, [], 0;
      new;
      if plugins == [] {
        finished := finished + 1;
        return;
      }
      var k := 0;
      while k < |plugins|
        invariant k <= |plugins| && dates == [] && finished == 0
        invariant runningOps == set i | 0 <= i < k && plugins[i].handlesAccount && plugins[i].starts
      {
        if plugins[k].handlesAccount && plugins[k].starts {
          runningOps := runningOps + {k};
        }
        k := k + 1;
      }
    }

    method OperationFinished(op: Operation, newDates: seq<Date>)
      requires op in runningOps && NoDup(dates)
      modifies this
      ensures runningOps == old(runningOps) - {op}
      ensures NoDup(dates) && Elements(dates) == Elements(old(dates)) + Elements(newDates)
      ensures finished == old(finished) + if runningOps == {} then 1 else 0
      ensures runningOps == {} ==> Ascending(dates)
    {
      runningOps := runningOps - {op};
      var existingDates := dates;
      var i := 0;
      while i < |newDates|
        invariant i <= |newDates| && NoDup(existingDates)
        invariant runningOps == old(runningOps) - {op} && dates == old(dates) && finished == old(finished)
        invariant Elements(existingDates) == Elements(dates) + Elements(newDates[..i])
      {
        var date := newDates[i];
        assert newDates[..i + 1] == newDates[..i] + [date];
        ElementsAppend(newDates[..i], date);
        ElementsAppend(existingDates, date);
        if date !in existingDates {
          existingDates := existingDates + [date];
        }
        i := i + 1;
      }
      assert newDates[..i] == newDates;
      dates := existingDates;

      if runningOps == {} {
        var allDates := Sort(dates);
        SortAscending(dates);
        SameElements(allDates, dates);
        dates := allDates;
        finished := finished + 1;
      }
    }
  }

  /** The dates of all backends. */
  ghost function Union(ops: seq<Operation>, answers: map<Operation, seq<Date>>): set<Date>
    requires forall op :: op in ops ==> op in answers
  {
    if ops == [] then {} else Elements(answers[ops[0]]) + Union(ops[1..], answers)
  }

  lemma {:induction false} UnionElements(ops: seq<Operation>, answers: map<Operation, seq<Date>>)
    requires forall op :: op in ops ==> op in answers
    ensures forall d :: d in Union(ops, answers) <==> exists op :: op in ops && d in answers[op]
  {
    if ops != [] { UnionElements(ops[1..], answers); }
  }

  lemma {:induction false} UnionAppend(ops: seq<Operation>, op: Operation, answers: map<Operation, seq<Date>>)
    requires op in answers && forall o :: o in ops ==> o in answers
    ensures Union(ops + [op], answers) == Union(ops, answers) + Elements(answers[op])
  {
    if ops == [] {
      assert ops + [op] == [op] && [op][1..] == [];
    } else {
      assert (ops + [op])[0] == ops[0] && (ops + [op])[1..] == ops[1..] + [op];
      UnionAppend(ops[1..], op, answers);
    }
  }

  lemma StillRunning(order: seq<Operation>, i: nat, running: set<Operation>)
    requires i <= |order| && forall op :: op in running <==> op in order[i..]
    ensures running == {} <==> i == |order|
  {
    if i < |order| { assert order[i] in order[i..]; }
  }

  /** All operations finish, in the given order: finished is emitted once, with the last of them, and
      then the dates are the union of all answers in ascending order. */
  method FinishAll(pending: PendingLoggerDates, order: seq<Operation>, answers: map<Operation, seq<Date>>)
    requires pending.dates == [] && pending.finished == 0 && pending.runningOps != {}
    requires NoDup(order) && forall op :: op in order <==> op in pending.runningOps
    requires forall op :: op in order ==> op in answers
    modifies pending
    ensures pending.finished == 1 && pending.runningOps == {}
    ensures Ascending(pending.dates)
    ensures forall d :: d in pending.dates <==> exists op :: op in order && d in answers[op]
  {
    ghost var all := pending.runningOps;
    var i := 0;
    while i < |order|
      invariant i <= |order|
      invariant forall op :: op in pending.runningOps <==> op in order[i..]
      invariant NoDup(pending.dates) && Elements(pending.dates) == Union(order[..i], answers)
      invariant pending.finished == if i == |order| then 1 else 0
      invariant i == |order| ==> Ascending(pending.dates)
    {
      assert order[i..][0] == order[i] && order[i..][1..] == order[i + 1..];
      assert order[..i + 1] == order[..i] + [order[i]];
      UnionAppend(order[..i], order[i], answers);
      pending.OperationFinished(order[i], answers[order[i]]);
      i := i + 1;
      StillRunning(order, i, pending.runningOps);
    }
    assert order[..i] == order;
    UnionElements(order, answers);
    forall d ensures d in pending.dates <==> d in Union(order, answers) {
      assert d in pending.dates <==> d in Elements(pending.dates);
    }
  }

  /** So two orders of completion give the same list. */
  lemma OrderDoesNotMatter(first: seq<Date>, second: seq<Date>, ops: seq<Operation>, others: seq<Operation>,
                           answers: map<Operation, seq<Date>>)
    requires multiset(ops) == multiset(others)
    requires forall op :: op in ops ==> op in answers
    requires forall op :: op in others ==> op in answers
    requires Ascending(first) && forall d :: d in first <==> exists op :: op in ops && d in answers[op]
    requires Ascending(second) && forall d :: d in second <==> exists op :: op in others && d in answers[op]
    ensures first == second
  {
    SameElements(ops, others);
    forall d ensures d in Elements(first) <==> d in Elements(second) {
      assert (exists op :: op in ops && d in answers[op]) <==> (exists op :: op in others && d in answers[op]);
    }
    AscendingUnique(first, second);
  }
}
