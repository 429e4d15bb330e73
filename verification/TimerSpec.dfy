/** The timer queues as sequences of deadlines: the sorted queue, the queue that only appends, and
    why clients cannot tell them apart. */
module TimerSpec {
  /** A timer that was set: which one it was, when it is due, what it carries, and how long after
      being set or updated it is due. */
  datatype Entry = Entry(serial: nat, due: int, param: int, interval: nat)

  ghost predicate Sorted(s: seq<Entry>) { forall i, j :: 0 <= i < j < |s| ==> s[i].due <= s[j].due }

  /** The place the scan from the back finds: behind the last entry that is due earlier. */
  function Inserted(s: seq<Entry>, e: Entry): (r: seq<Entry>) {
    if s == [] then [e]
    else
      var last := |s| - 1;
      if e.due > s[last].due then s + [e] else Inserted(s[..last], e) + [s[last]]
  }

  /** The scan stops at the first entry from the back that is due earlier. */
  lemma {:induction false} InsertedAt(s: seq<Entry>, e: Entry, j: nat)
    requires j <= |s| && (j > 0 ==> s[j - 1].due < e.due) && forall k :: j <= k < |s| ==> e.due <= s[k].due
    ensures Inserted(s, e) == s[..j] + [e] + s[j..]
  {
    if j < |s| {
      var last := |s| - 1;
      InsertedAt(s[..last], e, j);
      assert s[j..] == s[j..last] + [s[last]] && s[..last][j..] == s[j..last] && s[..last][..j] == s[..j];
    } else {
      assert s[..j] == s && s[j..] == [];
    }
  }

  function Placed(s: seq<Entry>, e: Entry, append: bool): (r: seq<Entry>) {
    if append then s + [e] else Inserted(s, e)
  }

  lemma {:induction false} InsertedMultiset(s: seq<Entry>, e: Entry)
    ensures multiset(Inserted(s, e)) == multiset(s) + multiset{e}
  {
    if s != [] {
      var last := |s| - 1;
      InsertedMultiset(s[..last], e);
      assert s == s[..last] + [s[last]];
    }
  }

  lemma PlacedMultiset(s: seq<Entry>, e: Entry, append: bool)
    ensures multiset(Placed(s, e, append)) == multiset(s) + multiset{e}
  {
    InsertedMultiset(s, e);
  }

  lemma {:induction false} InsertedSorted(s: seq<Entry>, e: Entry)
    requires Sorted(s)
    ensures Sorted(Inserted(s, e))
  {
    if s != [] {
      var last := |s| - 1;
      if e.due <= s[last].due {
        InsertedSorted(s[..last], e);
        InsertedMultiset(s[..last], e);
        var r := Inserted(s[..last], e);
        forall i | 0 <= i < |r| ensures r[i].due <= s[last].due {
          assert r[i] in multiset(r);
          if r[i] != e { assert r[i] in s[..last]; }
        }
      }
    }
  }

  /** The first entry with a serial number, or the length. */
  function Find(s: seq<Entry>, serial: nat): (i: nat)
    ensures i <= |s| && (i < |s| ==> s[i].serial == serial)
    ensures forall j :: 0 <= j < i ==> s[j].serial != serial
  {
    if s == [] || s[0].serial == serial then 0 else 1 + Find(s[1..], serial)
  }

  function Without(s: seq<Entry>, i: nat): (r: seq<Entry>)
    requires i < |s|
  {
    s[..i] + s[i + 1..]
  }

  /** How many entries at the front are due. */
  function DueCount(s: seq<Entry>, now: int): (n: nat)
    ensures n <= |s| && (forall j :: 0 <= j < n ==> s[j].due <= now) && (n < |s| ==> now < s[n].due)
  {
    if s == [] || now < s[0].due then 0 else 1 + DueCount(s[1..], now)
  }

  // ----- runs -----------------------------------------------------------------------------

  /** The queue that sorts, and the queue that appends and has one interval for all its timers. */
  datatype Kind = Sorting | Appending(own: nat)

  datatype Op =
    | Set(interval: nat, param: int, now: int)
    | Cancel(serial: nat)
    | Update(serial: nat, now: int)
    | Expire(now: int)

  /** `next` numbers the timers; `free` counts those that are not set. */
  datatype State = State(active: seq<Entry>, free: nat, next: nat, clock: int)

  function Start(free: nat): (s: State) { State([], free, 0, 0) }

  function NewEntry(s: State, interval: nat, param: int, now: int, kind: Kind): (e: Entry) {
    var n := if kind.Appending? then kind.own else interval;
    Entry(s.next, now + n, param, n)
  }

  function Renewed(e: Entry, now: int): (r: Entry) { e.(due := now + e.interval) }

  /** One operation: what it fires, and the new state. */
  function Step(s: State, op: Op, kind: Kind): (r: (seq<Entry>, State)) {
    match op
    case Set(interval, param, now) =>
      if s.free == 0 then ([], s)
      else
        ([], State(Placed(s.active, NewEntry(s, interval, param, now, kind), kind.Appending?),
                   s.free - 1, s.next + 1, s.clock))
    case Cancel(serial) =>
      var i := Find(s.active, serial);
      if i == |s.active| then ([], s) else ([], s.(active := Without(s.active, i), free := s.free + 1))
    case Update(serial, now) =>
      var i := Find(s.active, serial);
      if i == |s.active| then ([], s)
      else ([], s.(active := Placed(Without(s.active, i), Renewed(s.active[i], now), kind.Appending?)))
    case Expire(now) =>
      if now <= s.clock then ([], s)
      else
        var n := DueCount(s.active, now);
        (s.active[..n], s.(active := s.active[n..], free := s.free + n, clock := now))
  }

  ghost predicate Unique(s: seq<Entry>) { forall i, j :: 0 <= i < j < |s| ==> s[i].serial != s[j].serial }

  /** Each number is used once, and `next` is still to come. */
  ghost predicate Numbered(s: seq<Entry>, next: nat) {
    Unique(s) && forall i :: 0 <= i < |s| ==> s[i].serial < next
  }

  /** Nothing is due later than one interval from `latest`, the last time a timer was set. */
  ghost predicate Within(s: seq<Entry>, interval: nat, latest: int) {
    forall i :: 0 <= i < |s| ==> s[i].interval == interval && s[i].due <= latest + interval
  }

  /** Two queues that a client cannot tell apart. */
  ghost predicate Alike(s: State, t: State) {
    multiset(s.active) == multiset(t.active) && s.free == t.free && s.next == t.next && s.clock == t.clock
  }

  /** The time of an operation that sets a deadline. */
  function SetsAt(op: Op, latest: int): (now: int) { if op.Set? || op.Update? then op.now else latest }

  lemma SameMembers(s: seq<Entry>, t: seq<Entry>)
    requires multiset(s) == multiset(t)
    ensures forall e :: e in s <==> e in t
    ensures |s| == |t|
  {
    forall e ensures e in s <==> e in t { assert e in multiset(s) <==> e in multiset(t); }
    assert |multiset(s)| == |multiset(t)|;
  }

  lemma {:induction false} InsertedUnique(s: seq<Entry>, e: Entry)
    requires Unique(s) && forall i :: 0 <= i < |s| ==> s[i].serial != e.serial
    ensures Unique(Inserted(s, e))
  {
    if s != [] {
      var last := |s| - 1;
      if e.due <= s[last].due {
        InsertedUnique(s[..last], e);
        InsertedMultiset(s[..last], e);
        var r := Inserted(s[..last], e);
        forall i | 0 <= i < |r| ensures r[i].serial != s[last].serial {
          assert r[i] in multiset(r);
          if r[i] != e { assert r[i] in s[..last]; }
        }
      }
    }
  }

  /** What an expiry at `now` must fire, and what it must leave: exactly the entries that are due. */
  ghost predicate FiresDue(active: seq<Entry>, fired: seq<Entry>, rest: seq<Entry>, now: int) {
    && (forall e :: multiset(fired)[e] == if e.due <= now then multiset(active)[e] else 0)
    && (forall e :: multiset(rest)[e] == if e.due <= now then 0 else multiset(active)[e])
  }

  /** Expiry takes from an ordered queue every entry that is due, and nothing else. */
  lemma DueIsAllDue(s: seq<Entry>, now: int)
    requires Sorted(s)
    ensures var n := DueCount(s, now); FiresDue(s, s[..n], s[n..], now)
  {
    hide Sorted, DueCount;
    LaterIsNotDue(s, now);
    var n := DueCount(s, now);
    assert s == s[..n] + s[n..];
    forall e ensures multiset(s[..n])[e] == if e.due <= now then multiset(s)[e] else 0 {
      OneDue(s[..n], s[n..], e, now);
    }
    forall e ensures multiset(s[n..])[e] == if e.due <= now then 0 else multiset(s)[e] {
      OneDue(s[..n], s[n..], e, now);
    }
  }

  lemma LaterIsNotDue(s: seq<Entry>, now: int)
    requires Sorted(s)
    ensures forall j :: DueCount(s, now) <= j < |s| ==> now < s[j].due
  {}

  lemma OneDue(front: seq<Entry>, back: seq<Entry>, e: Entry, now: int)
    requires (forall i :: 0 <= i < |front| ==> front[i].due <= now)
             && (forall i :: 0 <= i < |back| ==> now < back[i].due)
    ensures multiset(front)[e] == if e.due <= now then multiset(front + back)[e] else 0
    ensures multiset(back)[e] == if e.due <= now then 0 else multiset(front + back)[e]
  {
    if e in multiset(front) { assert e in front; }
    if e in multiset(back) { assert e in back; }
  }

  lemma WithoutMultiset(s: seq<Entry>, i: nat)
    requires i < |s|
    ensures multiset(Without(s, i)) == multiset(s) - multiset{s[i]}
  {
    assert s == s[..i] + [s[i]] + s[i + 1..];
  }

  lemma WithoutGood(s: seq<Entry>, i: nat)
    requires i < |s|
    ensures Sorted(s) ==> Sorted(Without(s, i))
    ensures Unique(s) ==> Unique(Without(s, i))
    ensures Unique(s) ==> forall k :: 0 <= k < |Without(s, i)| ==> Without(s, i)[k].serial != s[i].serial
    ensures forall x :: x in Without(s, i) ==> x in s
  {}

  lemma PlacedMembers(s: seq<Entry>, e: Entry, append: bool)
    ensures |Placed(s, e, append)| == |s| + 1
    ensures forall i :: 0 <= i <= |s| ==> Placed(s, e, append)[i] == e || Placed(s, e, append)[i] in s
  {
    var r := Placed(s, e, append);
    PlacedMultiset(s, e, append);
    assert |multiset(r)| == |multiset(s)| + 1;
    forall i | 0 <= i < |r| ensures r[i] == e || r[i] in s {
      assert r[i] in multiset(r);
      assert r[i] in multiset(s) ==> r[i] in s;
    }
  }

  lemma PlacedNumbered(s: seq<Entry>, e: Entry, append: bool, next: nat)
    requires Numbered(s, next) && e.serial < next && forall i :: 0 <= i < |s| ==> s[i].serial != e.serial
    ensures Numbered(Placed(s, e, append), next)
  {
    InsertedUnique(s, e);
    PlacedMembers(s, e, append);
    forall x | x in s ensures x.serial < next {}
  }

  /** Numbers are never used twice, in either queue. */
  lemma StepNumbered(s: State, op: Op, kind: Kind)
    requires Numbered(s.active, s.next)
    ensures var t := Step(s, op, kind).1; Numbered(t.active, t.next)
  {
    hide Placed, Without, Find;
    match op
    case Set(interval, param, now) =>
      PlacedNumbered(s.active, NewEntry(s, interval, param, now, kind), kind.Appending?, s.next + 1);
    case Cancel(serial) =>
      var i := Find(s.active, serial);
      if i < |s.active| { PartNumbered(s.active, Without(s.active, i), i, s.next); }
    case Update(serial, now) =>
      var i := Find(s.active, serial);
      if i < |s.active| {
        PartNumbered(s.active, Without(s.active, i), i, s.next);
        PlacedNumbered(Without(s.active, i), Renewed(s.active[i], now), kind.Appending?, s.next);
      }
    case Expire(now) =>
  }

  lemma PartNumbered(s: seq<Entry>, r: seq<Entry>, i: nat, next: nat)
    requires i < |s| && r == Without(s, i) && Numbered(s, next)
    ensures Numbered(r, next) && forall k :: 0 <= k < |r| ==> r[k].serial != s[i].serial
  {
    WithoutGood(s, i);
    forall x | x in s ensures x.serial < next {}
    forall k | 0 <= k < |r| ensures r[k].serial < next { assert r[k] in r; }
  }

  /** Every operation on the sorting queue keeps its list in order, whatever the intervals and
      whatever the clock reads. */
  lemma SortingStaysSorted(s: State, op: Op)
    requires Sorted(s.active)
    ensures Sorted(Step(s, op, Sorting).1.active)
  {
    hide Inserted, Without, Find, Sorted;
    match op
    case Set(interval, param, now) => InsertedSorted(s.active, NewEntry(s, interval, param, now, Sorting));
    case Cancel(serial) =>
      var i := Find(s.active, serial);
      if i < |s.active| { WithoutGood(s.active, i); }
    case Update(serial, now) =>
      var i := Find(s.active, serial);
      if i < |s.active| {
        WithoutGood(s.active, i);
        InsertedSorted(Without(s.active, i), Renewed(s.active[i], now));
      }
    case Expire(now) => TailSorted(s.active, DueCount(s.active, now));
  }

  lemma TailSorted(s: seq<Entry>, n: nat)
    requires n <= |s| && Sorted(s)
    ensures Sorted(s[n..])
  {}

  /** The appending queue stays in order while the clock does not go back. */
  lemma AppendingStaysSorted(s: State, op: Op, interval: nat, latest: int)
    requires Sorted(s.active) && Within(s.active, interval, latest) && latest <= SetsAt(op, latest)
    ensures var t := Step(s, op, Appending(interval)).1;
            Sorted(t.active) && Within(t.active, interval, SetsAt(op, latest))
  {
    hide Without, Find, Sorted;
    match op
    case Set(_, param, now) =>
      AppendedGood(s.active, NewEntry(s, interval, param, now, Appending(interval)), interval, latest, now);
    case Cancel(serial) =>
      var i := Find(s.active, serial);
      if i < |s.active| { PartGood(s.active, i, interval, latest); }
    case Update(serial, now) =>
      var i := Find(s.active, serial);
      if i < |s.active| {
        PartGood(s.active, i, interval, latest);
        AppendedGood(Without(s.active, i), Renewed(s.active[i], now), interval, latest, now);
      }
    case Expire(now) => TailSorted(s.active, DueCount(s.active, now));
  }

  /** What an operation would append is not due before the last of the other timers. */
  predicate InTime(s: State, op: Op, interval: nat) {
    match op
    case Set(_, _, now) => s.free == 0 || s.active == [] || s.active[|s.active| - 1].due <= now + interval
    case Update(serial, now) =>
      var i := Find(s.active, serial);
      i == |s.active| ||
      (var r := Without(s.active, i); r == [] || r[|r| - 1].due <= now + s.active[i].interval)
    case _ => true
  }

  /** Exactly when one operation on the appending queue keeps its list in order. */
  lemma AppendingSortedIff(s: State, op: Op, interval: nat)
    requires Sorted(s.active)
    ensures Sorted(Step(s, op, Appending(interval)).1.active) <==> InTime(s, op, interval)
  {
    hide Find, Without, Sorted;
    match op
    case Set(_, param, now) => AppendSorted(s.active, NewEntry(s, interval, param, now, Appending(interval)));
    case Cancel(serial) =>
      var i := Find(s.active, serial);
      if i < |s.active| { WithoutGood(s.active, i); }
    case Update(serial, now) =>
      var i := Find(s.active, serial);
      if i < |s.active| {
        WithoutGood(s.active, i);
        AppendSorted(Without(s.active, i), Renewed(s.active[i], now));
      }
    case Expire(now) => TailSorted(s.active, DueCount(s.active, now));
  }

  lemma AppendSorted(s: seq<Entry>, e: Entry)
    requires Sorted(s)
    ensures Sorted(s + [e]) <==> s == [] || s[|s| - 1].due <= e.due
  {
    if s != [] { assert (s + [e])[|s| - 1] == s[|s| - 1] && (s + [e])[|s|] == e; }
  }

  lemma PartGood(s: seq<Entry>, i: nat, interval: nat, latest: int)
    requires i < |s| && Sorted(s) && Within(s, interval, latest)
    ensures Sorted(Without(s, i)) && Within(Without(s, i), interval, latest)
  {
    WithoutGood(s, i);
    forall x | x in s ensures x.interval == interval && x.due <= latest + interval {}
    var r := Without(s, i);
    forall k | 0 <= k < |r| ensures r[k].interval == interval && r[k].due <= latest + interval { assert r[k] in r; }
  }

  lemma AppendedGood(s: seq<Entry>, e: Entry, interval: nat, latest: int, now: int)
    requires Sorted(s) && Within(s, interval, latest) && latest <= now && e.interval == interval
             && e.due == now + interval
    ensures Sorted(s + [e]) && Within(s + [e], interval, now)
  {}

  /** A number picks the same entry out of two queues with the same entries. */
  lemma FindsSame(s: seq<Entry>, t: seq<Entry>, serial: nat)
    requires Unique(s) && Unique(t) && multiset(s) == multiset(t)
    ensures var i, j := Find(s, serial), Find(t, serial);
            |s| == |t| && (i < |s| <==> j < |t|) && (i < |s| ==> s[i] == t[j])
  {
    SameMembers(s, t);
    var i, j := Find(s, serial), Find(t, serial);
    if i < |s| { assert s[i] in t; }
    if j < |t| { assert t[j] in s; }
  }

  /** One operation on a sorting queue and on an appending one with the same entries: they fire the
      same entries and keep the same entries. */
  lemma StepAlike(s: State, t: State, op: Op, interval: nat)
    requires Sorted(s.active) && Sorted(t.active) && Numbered(s.active, s.next) && Numbered(t.active, t.next)
    requires Alike(s, t) && (op.Set? ==> op.interval == interval)
    ensures var s', t' := Step(s, op, Sorting), Step(t, op, Appending(interval));
            multiset(s'.0) == multiset(t'.0) && Alike(s'.1, t'.1)
  {
    hide Without, Find, Sorted, Unique, DueCount, Placed;
    SameMembers(s.active, t.active);
    match op
    case Set(_, param, now) => SamePlaced(s.active, t.active, NewEntry(s, interval, param, now, Sorting));
    case Cancel(serial) => SameWithout(s.active, t.active, serial);
    case Update(serial, now) =>
      SameWithout(s.active, t.active, serial);
      var i, j := Find(s.active, serial), Find(t.active, serial);
      if i < |s.active| && j < |t.active| {
        SamePlaced(Without(s.active, i), Without(t.active, j), Renewed(s.active[i], now));
      }
    case Expire(now) => SameDue(s.active, t.active, now);
  }

  lemma SamePlaced(s: seq<Entry>, t: seq<Entry>, e: Entry)
    requires multiset(s) == multiset(t)
    ensures multiset(Placed(s, e, false)) == multiset(Placed(t, e, true))
  {
    PlacedMultiset(s, e, false);
    PlacedMultiset(t, e, true);
  }

  lemma SameWithout(s: seq<Entry>, t: seq<Entry>, serial: nat)
    requires Unique(s) && Unique(t) && multiset(s) == multiset(t)
    ensures var i, j := Find(s, serial), Find(t, serial);
            && (i == |s| <==> j == |t|)
            && (i < |s| && j < |t| ==> s[i] == t[j] && multiset(Without(s, i)) == multiset(Without(t, j)))
  {
    FindsSame(s, t, serial);
    var i, j := Find(s, serial), Find(t, serial);
    if i < |s| {
      WithoutMultiset(s, i);
      WithoutMultiset(t, j);
    }
  }

  lemma SameDue(s: seq<Entry>, t: seq<Entry>, now: int)
    requires Sorted(s) && Sorted(t) && multiset(s) == multiset(t)
    ensures var m, n := DueCount(s, now), DueCount(t, now);
            m == n && multiset(s[..m]) == multiset(t[..n]) && multiset(s[m..]) == multiset(t[n..])
  {
    hide Sorted, DueCount;
    var m, n := DueCount(s, now), DueCount(t, now);
    DueIsAllDue(s, now);
    DueIsAllDue(t, now);
    SameCounts(s[..m], t[..n]);
    SameCounts(s[m..], t[n..]);
  }

  lemma SameCounts(s: seq<Entry>, t: seq<Entry>)
    requires forall e :: multiset(s)[e] == multiset(t)[e]
    ensures multiset(s) == multiset(t) && |s| == |t|
  {
    assert |multiset(s)| == |s| && |multiset(t)| == |t|;
  }

  /** What each operation of a run fires, and the state at the end. */
  function Run(s: State, ops: seq<Op>, kind: Kind): (r: (seq<seq<Entry>>, State))
    ensures |r.0| == |ops|
  {
    if ops == [] then ([], s)
    else
      var before := Run(s, ops[..|ops| - 1], kind);
      var one := Step(before.1, ops[|ops| - 1], kind);
      (before.0 + [one.0], one.1)
  }

  /** The clock read when deadlines are set never goes back; this is its last reading. */
  function LastReading(ops: seq<Op>, latest: int): (now: int) {
    if ops == [] then latest else SetsAt(ops[|ops| - 1], LastReading(ops[..|ops| - 1], latest))
  }

  ghost predicate Clocked(ops: seq<Op>, latest: int) {
    forall k :: 0 <= k < |ops| ==> ClockedAt(ops, latest, k)
  }

  ghost predicate ClockedAt(ops: seq<Op>, latest: int, k: nat)
    requires k < |ops|
  {
    LastReading(ops[..k], latest) <= SetsAt(ops[k], LastReading(ops[..k], latest))
  }

  lemma {:induction false} RunNumbered(free: nat, ops: seq<Op>, kind: Kind)
    ensures var t := Run(Start(free), ops, kind).1; Numbered(t.active, t.next)
  {
    if ops != [] {
      RunNumbered(free, ops[..|ops| - 1], kind);
      StepNumbered(Run(Start(free), ops[..|ops| - 1], kind).1, ops[|ops| - 1], kind);
    }
  }

  /** In every run of the sorting queue, with any intervals and any clock readings, the list is in
      order. */
  lemma {:induction false} SortingRunSorted(free: nat, ops: seq<Op>)
    ensures Sorted(Run(Start(free), ops, Sorting).1.active)
  {
    if ops != [] {
      SortingRunSorted(free, ops[..|ops| - 1]);
      SortingStaysSorted(Run(Start(free), ops[..|ops| - 1], Sorting).1, ops[|ops| - 1]);
    }
  }

  lemma ClockedFront(ops: seq<Op>, latest: int)
    requires ops != [] && Clocked(ops, latest)
    ensures Clocked(ops[..|ops| - 1], latest) && ClockedAt(ops, latest, |ops| - 1)
  {
    var front := ops[..|ops| - 1];
    forall k | 0 <= k < |front| ensures ClockedAt(front, latest, k) {
      assert ClockedAt(ops, latest, k) && front[..k] == ops[..k];
    }
  }

  /** In every run of the appending queue whose clock does not go back, the list is in order. */
  lemma {:induction false} AppendingRunSorted(free: nat, ops: seq<Op>, interval: nat, latest: int)
    requires Clocked(ops, latest)
    ensures var t := Run(Start(free), ops, Appending(interval)).1;
            Sorted(t.active) && Within(t.active, interval, LastReading(ops, latest))
  {
    if ops != [] {
      var front := ops[..|ops| - 1];
      ClockedFront(ops, latest);
      AppendingRunSorted(free, front, interval, latest);
      AppendingStaysSorted(Run(Start(free), front, Appending(interval)).1, ops[|ops| - 1], interval,
        LastReading(front, latest));
    }
  }

  /** After every run of the sorting queue a clock-advancing expiry fires exactly the due timers. */
  lemma SortingFiresDue(free: nat, ops: seq<Op>, now: int)
    ensures var t := Run(Start(free), ops, Sorting).1;
            var r := Step(t, Expire(now), Sorting);
            t.clock < now ==> FiresDue(t.active, r.0, r.1.active, now)
  {
    hide Sorted, DueCount;
    SortingRunSorted(free, ops);
    DueIsAllDue(Run(Start(free), ops, Sorting).1.active, now);
  }

  /** So does the appending queue, as long as the clock has not gone back. */
  lemma AppendingFiresDue(free: nat, ops: seq<Op>, interval: nat, latest: int, now: int)
    requires Clocked(ops, latest)
    ensures var t := Run(Start(free), ops, Appending(interval)).1;
            var r := Step(t, Expire(now), Appending(interval));
            t.clock < now ==> FiresDue(t.active, r.0, r.1.active, now)
  {
    hide Sorted, DueCount;
    AppendingRunSorted(free, ops, interval, latest);
    DueIsAllDue(Run(Start(free), ops, Appending(interval)).1.active, now);
  }

  /** If it has, an entry that is due can stay behind one that is not: set at 10, then at 5, with an
      interval of 10, and expired at 15. */
  lemma ClockGoingBack()
    ensures var ops := [Set(10, 1, 10), Set(10, 2, 5)];
            var t := Run(Start(2), ops, Appending(10)).1;
            && t.active == [Entry(0, 20, 1, 10), Entry(1, 15, 2, 10)]
            && Step(t, Expire(15), Appending(10)).0 == [] && t.active[1].due <= 15
  {
    var one, two := [Set(10, 1, 10)], [Set(10, 1, 10), Set(10, 2, 5)];
    assert one[..0] == [] && two[..1] == one;
    assert Run(Start(2), one, Appending(10)).1 == State([Entry(0, 20, 1, 10)], 1, 1, 0);
  }

  ghost predicate OneInterval(ops: seq<Op>, interval: nat) {
    forall k :: 0 <= k < |ops| && ops[k].Set? ==> ops[k].interval == interval
  }

  /** In every run with one interval and a clock that does not go back, operation by operation, the
      appending queue fires the same timers with the same deadlines and parameters as the sorting
      queue. */
  lemma {:induction false} RunsAlike(free: nat, ops: seq<Op>, interval: nat, latest: int)
    requires Clocked(ops, latest) && OneInterval(ops, interval)
    ensures var s, t := Run(Start(free), ops, Sorting), Run(Start(free), ops, Appending(interval));
            Alike(s.1, t.1) && forall k :: 0 <= k < |ops| ==> multiset(s.0[k]) == multiset(t.0[k])
  {
    hide Step, Sorted, Numbered;
    if ops != [] {
      var front, op := ops[..|ops| - 1], ops[|ops| - 1];
      ClockedFront(ops, latest);
      RunsAlike(free, front, interval, latest);
      SortingRunSorted(free, front);
      AppendingRunSorted(free, front, interval, latest);
      RunNumbered(free, front, Sorting);
      RunNumbered(free, front, Appending(interval));
      StepAlike(Run(Start(free), front, Sorting).1, Run(Start(free), front, Appending(interval)).1, op, interval);
    }
  }

  // ----- exact conditions -----------------------------------------------------------------

  /** The state before operation `k` of a run of the appending queue. */
  function Before(free: nat, ops: seq<Op>, interval: nat, k: nat): (s: State)
    requires k <= |ops|
  {
    Run(Start(free), ops[..k], Appending(interval)).1
  }

  lemma BeforeNext(free: nat, ops: seq<Op>, interval: nat, k: nat)
    requires k < |ops|
    ensures Before(free, ops, interval, k + 1) == Step(Before(free, ops, interval, k), ops[k], Appending(interval)).1
    ensures Before(free, ops, interval, 0) == Start(free)
  {
    hide Step;
    assert ops[..k + 1][..k] == ops[..k];
  }

  /** The list of the appending queue is in order throughout a run if and only if nothing was ever
      appended that is due before the last timer. */
  lemma AppendingRunSortedIff(free: nat, ops: seq<Op>, interval: nat)
    ensures (forall k :: 0 <= k <= |ops| ==> Sorted(Before(free, ops, interval, k).active))
       <==> forall k :: 0 <= k < |ops| ==> InTime(Before(free, ops, interval, k), ops[k], interval)
  {
    hide Sorted, InTime, Before;
    if forall k :: 0 <= k <= |ops| ==> Sorted(Before(free, ops, interval, k).active) {
      forall k | 0 <= k < |ops| ensures InTime(Before(free, ops, interval, k), ops[k], interval) {
        BeforeNext(free, ops, interval, k);
        AppendingSortedIff(Before(free, ops, interval, k), ops[k], interval);
      }
    }
    if forall k :: 0 <= k < |ops| ==> InTime(Before(free, ops, interval, k), ops[k], interval) {
      forall k | 0 <= k <= |ops| ensures Sorted(Before(free, ops, interval, k).active) {
        InTimeSorted(free, ops, interval, k);
      }
    }
  }

  lemma {:induction false} InTimeSorted(free: nat, ops: seq<Op>, interval: nat, k: nat)
    requires k <= |ops| && forall j :: 0 <= j < k ==> InTime(Before(free, ops, interval, j), ops[j], interval)
    ensures Sorted(Before(free, ops, interval, k).active)
  {
    if k > 0 {
      hide Sorted, InTime, Before;
      InTimeSorted(free, ops, interval, k - 1);
      BeforeNext(free, ops, interval, k - 1);
      AppendingSortedIff(Before(free, ops, interval, k - 1), ops[k - 1], interval);
    } else {
      assert Before(free, ops, interval, 0).active == [];
    }
  }

  /** What an expiry takes from a list and what it leaves. */
  ghost predicate ExpiresWell(s: seq<Entry>, now: int) {
    FiresDue(s, s[..DueCount(s, now)], s[DueCount(s, now)..], now)
  }

  /** Expiry takes exactly the due entries, whatever the clock reads, if and only if the list is in
      order. */
  lemma FiresDueIff(s: seq<Entry>)
    ensures (forall now :: ExpiresWell(s, now)) <==> Sorted(s)
  {
    hide Sorted, DueCount;
    if Sorted(s) {
      forall now ensures ExpiresWell(s, now) { DueIsAllDue(s, now); }
    }
    if forall now :: ExpiresWell(s, now) {
      forall i, j | 0 <= i < j < |s| ensures s[i].due <= s[j].due { Overtaken(s, i, j); }
      SortedIs(s);
    }
  }

  lemma SortedIs(s: seq<Entry>)
    requires forall i, j :: 0 <= i < j < |s| ==> s[i].due <= s[j].due
    ensures Sorted(s)
  {}

  /** An entry behind one that is due later does not fire in time. */
  lemma Overtaken(s: seq<Entry>, i: nat, j: nat)
    requires i < j < |s| && forall now :: ExpiresWell(s, now)
    ensures s[i].due <= s[j].due
  {
    hide DueCount, Sorted;
    var now := s[j].due;
    assert ExpiresWell(s, now);
    assert multiset(s[DueCount(s, now)..])[s[j]] == 0;
    InTail(s, DueCount(s, now), j);
  }

  lemma InTail(s: seq<Entry>, n: nat, j: nat)
    requires n <= |s| && j < |s|
    ensures j >= n ==> multiset(s[n..])[s[j]] > 0
  {
    if j >= n { assert s[n..][j - n] == s[j]; }
  }

  lemma ExpireCount(s: State, now: int, kind: Kind)
    ensures |Step(s, Expire(now), kind).0| == if now <= s.clock then 0 else DueCount(s.active, now)
  {
    hide DueCount;
  }
}
