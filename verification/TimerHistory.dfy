/** What becomes of a timer: which timers are set after any run, that a cancelled one never fires,
    and that one that is left alone fires at the first expiry past its deadline. */
module TimerHistory {
  import opened TimerSpec

  // ----- the timers that are set ----------------------------------------------------------

  /** The timers by number, without any order. */
  datatype Table = Table(live: map<nat, Entry>, next: nat, clock: int)

  function TableStep(t: Table, op: Op, kind: Kind, total: nat): (r: Table) {
    match op
    case Set(interval, param, now) =>
      if |t.live| >= total then t
      else
        var n := if kind.Appending? then kind.own else interval;
        t.(live := t.live[t.next := Entry(t.next, now + n, param, n)], next := t.next + 1)
    case Cancel(serial) => t.(live := t.live - {serial})
    case Update(serial, now) =>
      if serial in t.live then
        var e := t.live[serial];
        t.(live := t.live[serial := Entry(serial, now + e.interval, e.param, e.interval)])
      else t
    case Expire(now) => if now <= t.clock then t else t.(live := NotDue(t.live, now), clock := now)
  }

  function NotDue(live: map<nat, Entry>, now: int): (r: map<nat, Entry>) {
    map k | k in live && now < live[k].due :: live[k]
  }

  function TableAfter(total: nat, ops: seq<Op>, kind: Kind): (t: Table) {
    if ops == [] then Table(map[], 0, 0)
    else TableStep(TableAfter(total, ops[..|ops| - 1], kind), ops[|ops| - 1], kind, total)
  }

  /** The list has the timers of the table, each once. */
  ghost predicate Lists(s: seq<Entry>, live: map<nat, Entry>) {
    && Unique(s) && (forall k :: k in live ==> live[k].serial == k)
    && forall e :: e in s <==> e.serial in live && live[e.serial] == e
  }

  ghost predicate Agrees(s: State, t: Table, total: nat) {
    && Lists(s.active, t.live) && Numbered(s.active, s.next) && s.next == t.next && s.clock == t.clock
    && s.free + |s.active| == total
  }

  /** So the list is as long as the table. */
  lemma {:induction false} ListedSize(s: seq<Entry>, live: map<nat, Entry>)
    requires Lists(s, live)
    ensures |s| == |live|
  {
    EachListed(s, live);
    if s == [] {
      assert live == map[];
    } else {
      var last, rest := s[|s| - 1], s[..|s| - 1];
      assert last in s && s == rest + [last];
      var less := live - {last.serial};
      RestListed(s, live);
      ListedSize(rest, less);
      assert live.Keys == less.Keys + {last.serial};
      assert |live| == |live.Keys| && |less| == |less.Keys|;
    }
  }

  lemma EachListed(s: seq<Entry>, live: map<nat, Entry>)
    requires Lists(s, live)
    ensures forall k :: k in live ==> live[k] in s
  {}

  lemma RestListed(s: seq<Entry>, live: map<nat, Entry>)
    requires s != [] && Lists(s, live)
    ensures Lists(s[..|s| - 1], live - {s[|s| - 1].serial})
  {
    var last, rest := s[|s| - 1], s[..|s| - 1];
    forall e ensures e in rest <==> e.serial in live - {last.serial} && live[e.serial] == e {
      assert s == rest + [last];
      assert e in s <==> e in rest || e == last;
      if e in rest { OthersDiffer(s, e); }
    }
  }

  lemma OthersDiffer(s: seq<Entry>, e: Entry)
    requires s != [] && Unique(s) && e in s[..|s| - 1]
    ensures e.serial != s[|s| - 1].serial
  {}

  /** One operation on the list and on the table. */
  lemma StepAgrees(s: State, t: Table, op: Op, kind: Kind, total: nat)
    requires Agrees(s, t, total) && Sorted(s.active)
    ensures Agrees(Step(s, op, kind).1, TableStep(t, op, kind, total), total)
    ensures op.Expire? && s.clock < op.now ==>
              forall e :: e in Step(s, op, kind).0 <==> e.serial in t.live && t.live[e.serial] == e && e.due <= op.now
  {
    hide Placed, Without, Find, DueCount, Sorted, Unique, Lists;
    ListedSize(s.active, t.live);
    StepNumbered(s, op, kind);
    match op
    case Set(interval, param, now) =>
      if s.free > 0 {
        var e := NewEntry(s, interval, param, now, kind);
        PlacedListed(s.active, t.live, e, kind.Appending?, s.next);
      }
    case Cancel(serial) =>
      var i := Find(s.active, serial);
      if i < |s.active| { RemovedListed(s.active, t.live, i); } else { NothingListed(s.active, t.live, serial); }
    case Update(serial, now) =>
      var i := Find(s.active, serial);
      if i < |s.active| {
        var e := Renewed(s.active[i], now);
        RemovedListed(s.active, t.live, i);
        PlacedAgain(Without(s.active, i), t.live - {serial}, e, kind.Appending?);
        assert (t.live - {serial})[serial := e] == t.live[serial := e];
      } else {
        NothingListed(s.active, t.live, serial);
      }
    case Expire(now) =>
      if s.clock < now { DueListed(s.active, t.live, now); }
  }

  lemma PlacedListed(s: seq<Entry>, live: map<nat, Entry>, e: Entry, append: bool, next: nat)
    requires Lists(s, live) && Numbered(s, next) && e.serial == next
    ensures Lists(Placed(s, e, append), live[e.serial := e]) && |Placed(s, e, append)| == |s| + 1
  {
    hide Placed;
    EachListed(s, live);
    PlacedAgain(s, live, e, append);
    assert e.serial !in live;
  }

  lemma PlacedAgain(s: seq<Entry>, live: map<nat, Entry>, e: Entry, append: bool)
    requires Lists(s, live) && e.serial !in live
    ensures Lists(Placed(s, e, append), live[e.serial := e]) && |Placed(s, e, append)| == |s| + 1
  {
    hide Placed;
    var r := Placed(s, e, append);
    forall i | 0 <= i < |s| ensures s[i].serial != e.serial { assert s[i] in s; }
    PlacedUnique(s, e, append);
    PlacedMembers(s, e, append);
    PlacedMultiset(s, e, append);
    forall x ensures x in r <==> x in s || x == e {
      assert x in multiset(r) <==> x in multiset(s) || x == e;
    }
  }

  lemma PlacedUnique(s: seq<Entry>, e: Entry, append: bool)
    requires Unique(s) && forall i :: 0 <= i < |s| ==> s[i].serial != e.serial
    ensures Unique(Placed(s, e, append))
  {
    InsertedUnique(s, e);
  }

  lemma RemovedListed(s: seq<Entry>, live: map<nat, Entry>, i: nat)
    requires Lists(s, live) && i < |s|
    ensures s[i].serial in live && live[s[i].serial] == s[i]
    ensures Lists(Without(s, i), live - {s[i].serial}) && |Without(s, i)| == |s| - 1
  {
    var r := Without(s, i);
    assert s[i] in s;
    WithoutGood(s, i);
    forall e ensures e in r <==> e in s && e.serial != s[i].serial {
      if e in s && e.serial != s[i].serial {
        var k :| 0 <= k < |s| && s[k] == e;
        assert r[if k < i then k else k - 1] == e;
      }
    }
  }

  lemma NothingListed(s: seq<Entry>, live: map<nat, Entry>, serial: nat)
    requires Lists(s, live) && Find(s, serial) == |s|
    ensures serial !in live && live - {serial} == live
  {
    EachListed(s, live);
  }

  lemma DueListed(s: seq<Entry>, live: map<nat, Entry>, now: int)
    requires Lists(s, live) && Sorted(s)
    ensures var n := DueCount(s, now);
            && Lists(s[n..], NotDue(live, now))
            && forall e :: e in s[..n] <==> e.serial in live && live[e.serial] == e && e.due <= now
  {
    hide Sorted, DueCount;
    LaterIsNotDue(s, now);
    var n := DueCount(s, now);
    assert s == s[..n] + s[n..];
    forall j | n <= j < |s| ensures now < s[j].due {}
    forall e ensures e in s[n..] <==> e in s && now < e.due {}
    forall e ensures e in s[..n] <==> e in s && e.due <= now {}
  }

  // ----- runs -----------------------------------------------------------------------------

  /** After every run of the sorting queue the list has exactly the timers that were set and have
      been neither cancelled nor fired, each with its last deadline. */
  lemma {:induction false} SortingRunAgrees(total: nat, ops: seq<Op>)
    ensures Agrees(Run(Start(total), ops, Sorting).1, TableAfter(total, ops, Sorting), total)
  {
    hide Step, TableStep;
    if ops != [] {
      var front := ops[..|ops| - 1];
      SortingRunAgrees(total, front);
      SortingRunSorted(total, front);
      StepAgrees(Run(Start(total), front, Sorting).1, TableAfter(total, front, Sorting), ops[|ops| - 1], Sorting,
        total);
    }
  }

  /** So has the appending queue, while the clock does not go back. */
  lemma {:induction false} AppendingRunAgrees(total: nat, ops: seq<Op>, own: nat, latest: int)
    requires Clocked(ops, latest)
    ensures Agrees(Run(Start(total), ops, Appending(own)).1, TableAfter(total, ops, Appending(own)), total)
  {
    hide Step, TableStep, Clocked;
    if ops != [] {
      var front := ops[..|ops| - 1];
      ClockedFront(ops, latest);
      AppendingRunAgrees(total, front, own, latest);
      AppendingRunSorted(total, front, own, latest);
      StepAgrees(Run(Start(total), front, Appending(own)).1, TableAfter(total, front, Appending(own)),
                 ops[|ops| - 1], Appending(own), total);
    }
  }

  // ----- the fate of one timer ------------------------------------------------------------

  /** A number that was given out and is not on the list. */
  ghost predicate Gone(s: State, serial: nat) {
    serial < s.next && forall e :: e in s.active ==> e.serial != serial
  }

  lemma StaysGone(s: State, op: Op, kind: Kind, serial: nat)
    requires Gone(s, serial)
    ensures Gone(Step(s, op, kind).1, serial)
    ensures forall e :: e in Step(s, op, kind).0 ==> e.serial != serial
  {
    hide Placed, Without, Find;
    match op
    case Set(interval, param, now) =>
      PlacedMembers(s.active, NewEntry(s, interval, param, now, kind), kind.Appending?);
    case Cancel(other) =>
      var i := Find(s.active, other);
      if i < |s.active| { WithoutGood(s.active, i); }
    case Update(other, now) =>
      var i := Find(s.active, other);
      if i < |s.active| {
        WithoutGood(s.active, i);
        PlacedMembers(Without(s.active, i), Renewed(s.active[i], now), kind.Appending?);
      }
    case Expire(now) =>
  }

  /** A cancelled timer is off the list for good, whatever is done before and after, and no later
      expiry fires it. */
  lemma {:induction false} CancelledNeverFires(total: nat, before: seq<Op>, serial: nat, after: seq<Op>, kind: Kind)
    requires serial < Run(Start(total), before, kind).1.next
    ensures var r := Run(Start(total), before + [Cancel(serial)] + after, kind);
            && Gone(r.1, serial)
            && forall k, e :: |before| < k < |before| + 1 + |after| && e in r.0[k] ==> e.serial != serial
  {
    hide Step;
    var ops := before + [Cancel(serial)] + after;
    if after == [] {
      assert ops[..|ops| - 1] == before;
      RunNumbered(total, before, kind);
      CancelRemoves(Run(Start(total), before, kind).1, serial, kind);
    } else {
      var front := after[..|after| - 1];
      assert ops[..|ops| - 1] == before + [Cancel(serial)] + front;
      CancelledNeverFires(total, before, serial, front, kind);
      StaysGone(Run(Start(total), ops[..|ops| - 1], kind).1, ops[|ops| - 1], kind, serial);
    }
  }

  lemma CancelRemoves(s: State, serial: nat, kind: Kind)
    requires Numbered(s.active, s.next) && serial < s.next
    ensures Gone(Step(s, Cancel(serial), kind).1, serial)
  {
    hide Without, Find;
    var i := Find(s.active, serial);
    if i < |s.active| { WithoutGood(s.active, i); }
  }

  /** An operation that neither cancels nor updates timer `e` and is no expiry at its deadline or after. */
  predicate Spares(op: Op, e: Entry) {
    match op
    case Set(_, _, _) => true
    case Cancel(serial) => serial != e.serial
    case Update(serial, _) => serial != e.serial
    case Expire(now) => now < e.due
  }

  lemma Stays(s: State, op: Op, kind: Kind, e: Entry)
    requires e in s.active && Spares(op, e)
    ensures e in Step(s, op, kind).1.active && e !in Step(s, op, kind).0
  {
    hide Placed, Without, Find, DueCount;
    match op
    case Set(interval, param, now) =>
      if s.free > 0 { StillPlaced(s.active, NewEntry(s, interval, param, now, kind), kind.Appending?, e); }
    case Cancel(other) =>
      var i := Find(s.active, other);
      if i < |s.active| { StillWithout(s.active, i, e); }
    case Update(other, now) =>
      var i := Find(s.active, other);
      if i < |s.active| {
        StillWithout(s.active, i, e);
        StillPlaced(Without(s.active, i), Renewed(s.active[i], now), kind.Appending?, e);
      }
    case Expire(now) => StillNotDue(s.active, now, e);
  }

  lemma StillNotDue(s: seq<Entry>, now: int, e: Entry)
    requires e in s && now < e.due
    ensures var n := DueCount(s, now); e in s[n..] && e !in s[..n]
  {
    hide DueCount;
    var n := DueCount(s, now);
    assert s == s[..n] + s[n..];
    forall x | x in s[..n] ensures x.due <= now {}
  }

  lemma StillPlaced(s: seq<Entry>, x: Entry, append: bool, e: Entry)
    requires e in s
    ensures e in Placed(s, x, append)
  {
    hide Placed;
    PlacedMultiset(s, x, append);
    assert e in multiset(s);
    assert e in multiset(Placed(s, x, append));
  }

  lemma StillWithout(s: seq<Entry>, i: nat, e: Entry)
    requires e in s && i < |s| && e.serial != s[i].serial
    ensures e in Without(s, i)
  {
    var k :| 0 <= k < |s| && s[k] == e;
    assert Without(s, i)[if k < i then k else k - 1] == e;
  }

  /** A timer set at `now` for an interval, on the sorting queue: nothing fires it while it is spared,
      and the first expiry with a new clock reading at or past `now + interval` does. */
  lemma {:induction false} SetFires(total: nat, before: seq<Op>, interval: nat, param: int, now: int,
                                    after: seq<Op>, late: int)
    requires Run(Start(total), before, Sorting).1.free > 0
    requires forall k :: 0 <= k < |after| ==> Spares(after[k], SetEntry(total, before, interval, param, now))
    ensures var e := SetEntry(total, before, interval, param, now);
            var r := Run(Start(total), before + [Set(interval, param, now)] + after, Sorting);
            && e.due == now + interval && e.param == param && e in r.1.active
            && (forall k :: |before| < k < |before| + 1 + |after| ==> e !in r.0[k])
            && (late >= now + interval && late > r.1.clock ==> e in Step(r.1, Expire(late), Sorting).0)
  {
    hide Step;
    var ops := before + [Set(interval, param, now)] + after;
    var e := SetEntry(total, before, interval, param, now);
    if after == [] {
      assert ops[..|ops| - 1] == before;
      SetPlaces(Run(Start(total), before, Sorting).1, interval, param, now);
    } else {
      var front := after[..|after| - 1];
      assert ops[..|ops| - 1] == before + [Set(interval, param, now)] + front;
      SetFires(total, before, interval, param, now, front, late);
      Stays(Run(Start(total), ops[..|ops| - 1], Sorting).1, ops[|ops| - 1], Sorting, e);
    }
    SortingRunSorted(total, ops);
    Fires(Run(Start(total), ops, Sorting).1, e, late);
  }

  function SetEntry(total: nat, before: seq<Op>, interval: nat, param: int, now: int): (e: Entry) {
    Entry(Run(Start(total), before, Sorting).1.next, now + interval, param, interval)
  }

  lemma SetPlaces(s: State, interval: nat, param: int, now: int)
    requires s.free > 0
    ensures Entry(s.next, now + interval, param, interval) in Step(s, Set(interval, param, now), Sorting).1.active
  {
    hide Placed;
    var e := NewEntry(s, interval, param, now, Sorting);
    PlacedMultiset(s.active, e, false);
    assert e in multiset(Placed(s.active, e, false));
  }

  lemma Fires(s: State, e: Entry, late: int)
    requires Sorted(s.active) && e in s.active
    ensures late > s.clock && late >= e.due ==> e in Step(s, Expire(late), Sorting).0
  {
    hide DueCount, Sorted;
    LaterIsNotDue(s.active, late);
    var n := DueCount(s.active, late);
    assert s.active == s.active[..n] + s.active[n..];
    forall x | x in s.active[n..] ensures late < x.due {}
  }

  lemma OneMore(total: nat, ops: seq<Op>, k: nat, fired: seq<Entry>, t: State)
    requires k < |ops| && Step(Run(Start(total), ops[..k], Sorting).1, ops[k], Sorting) == (fired, t)
    ensures Run(Start(total), ops[..k + 1], Sorting) == (Run(Start(total), ops[..k], Sorting).0 + [fired], t)
  {
    hide Step;
    assert ops[..k + 1][..k] == ops[..k];
  }

  lemma Step0()
    ensures Step(State([], 3, 0, 0), Set(10, 7, 0), Sorting)
         == ([], State([Entry(0, 10, 7, 10)], 2, 1, 0))
  {}

  lemma Step1()
    ensures Step(State([Entry(0, 10, 7, 10)], 2, 1, 0), Set(5, 8, 0), Sorting)
         == ([], State([Entry(1, 5, 8, 5), Entry(0, 10, 7, 10)], 1, 2, 0))
  {
    var s := [Entry(0, 10, 7, 10)];
    InsertedAt(s, Entry(1, 5, 8, 5), 0);
    assert s[..0] + [Entry(1, 5, 8, 5)] + s[0..] == [Entry(1, 5, 8, 5), Entry(0, 10, 7, 10)];
  }

  lemma Step2()
    ensures Step(State([Entry(1, 5, 8, 5), Entry(0, 10, 7, 10)], 1, 2, 0), Set(6, 9, 0), Sorting)
         == ([], State([Entry(1, 5, 8, 5), Entry(2, 6, 9, 6), Entry(0, 10, 7, 10)], 0, 3, 0))
  {
    var s := [Entry(1, 5, 8, 5), Entry(0, 10, 7, 10)];
    InsertedAt(s, Entry(2, 6, 9, 6), 1);
    assert s[..1] + [Entry(2, 6, 9, 6)] + s[1..] == [Entry(1, 5, 8, 5), Entry(2, 6, 9, 6), Entry(0, 10, 7, 10)];
  }

  lemma Step3()
    ensures Step(State([Entry(1, 5, 8, 5), Entry(2, 6, 9, 6), Entry(0, 10, 7, 10)], 0, 3, 0), Cancel(1), Sorting)
         == ([], State([Entry(2, 6, 9, 6), Entry(0, 10, 7, 10)], 1, 3, 0))
  {
    assert Without([Entry(1, 5, 8, 5), Entry(2, 6, 9, 6), Entry(0, 10, 7, 10)], 0)
           == [Entry(2, 6, 9, 6), Entry(0, 10, 7, 10)];
  }

  lemma Step4()
    ensures Step(State([Entry(2, 6, 9, 6), Entry(0, 10, 7, 10)], 1, 3, 0), Update(0, 3), Sorting)
         == ([], State([Entry(2, 6, 9, 6), Entry(0, 13, 7, 10)], 1, 3, 0))
  {
    assert Find([Entry(2, 6, 9, 6), Entry(0, 10, 7, 10)], 0)
           == 1 by { assert [Entry(2, 6, 9, 6), Entry(0, 10, 7, 10)][1..] == [Entry(0, 10, 7, 10)]; }
    assert Without([Entry(2, 6, 9, 6), Entry(0, 10, 7, 10)], 1) == [Entry(2, 6, 9, 6)];
    var s := [Entry(2, 6, 9, 6)];
    InsertedAt(s, Entry(0, 13, 7, 10), 1);
    assert s[..1] + [Entry(0, 13, 7, 10)] + s[1..] == [Entry(2, 6, 9, 6), Entry(0, 13, 7, 10)];
  }

  lemma Step5()
    ensures Step(State([Entry(2, 6, 9, 6), Entry(0, 13, 7, 10)], 1, 3, 0), Expire(12), Sorting)
         == ([Entry(2, 6, 9, 6)], State([Entry(0, 13, 7, 10)], 2, 3, 12))
  {
    var s := [Entry(2, 6, 9, 6), Entry(0, 13, 7, 10)];
    assert s[..1] == [Entry(2, 6, 9, 6)] && s[1..] == [Entry(0, 13, 7, 10)];
  }

  lemma Step6()
    ensures Step(State([Entry(0, 13, 7, 10)], 2, 3, 12), Expire(13), Sorting)
         == ([Entry(0, 13, 7, 10)], State([], 3, 3, 13))
  {
    var s := [Entry(0, 13, 7, 10)];
    assert s[..1] == s && s[1..] == [];
  }

  /** Three timers: one cancelled, one put off, and one that fires on time. */
  lemma OneRun()
    ensures var ops := [Set(10, 7, 0), Set(5, 8, 0), Set(6, 9, 0), Cancel(1), Update(0, 3), Expire(12), Expire(13)];
            Run(Start(3), ops, Sorting).0 == [[], [], [], [], [], [Entry(2, 6, 9, 6)], [Entry(0, 13, 7, 10)]]
  {
    hide Step;
    var ops := [Set(10, 7, 0), Set(5, 8, 0), Set(6, 9, 0), Cancel(1), Update(0, 3), Expire(12), Expire(13)];
    assert ops[..0] == [];
    Step0();
    OneMore(3, ops, 0, [], State([Entry(0, 10, 7, 10)], 2, 1, 0));
    Step1();
    OneMore(3, ops, 1, [], State([Entry(1, 5, 8, 5), Entry(0, 10, 7, 10)], 1, 2, 0));
    Step2();
    OneMore(3, ops, 2, [], State([Entry(1, 5, 8, 5), Entry(2, 6, 9, 6), Entry(0, 10, 7, 10)], 0, 3, 0));
    Step3();
    OneMore(3, ops, 3, [], State([Entry(2, 6, 9, 6), Entry(0, 10, 7, 10)], 1, 3, 0));
    Step4();
    OneMore(3, ops, 4, [], State([Entry(2, 6, 9, 6), Entry(0, 13, 7, 10)], 1, 3, 0));
    Step5();
    OneMore(3, ops, 5, [Entry(2, 6, 9, 6)], State([Entry(0, 13, 7, 10)], 2, 3, 12));
    Step6();
    OneMore(3, ops, 6, [Entry(0, 13, 7, 10)], State([], 3, 3, 13));
    assert ops[..7] == ops;
  }
}
