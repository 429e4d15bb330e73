/** `SL_Seda_TimerQueue` and `SL_Seda_LRUTimerQueue`: a pool of timers, each in the free list or
    in the active one.  The two classes differ in where `set_timer` and `update_timer` put an
    active timer and in whose interval counts; `lru` says which of them this is. */
module TimerQueue {
  import opened TimerSpec

  class Timer {
    var intervalMs: nat
    var endClockMs: int
    var isActive: bool
    var param: int
    // Not in the source: numbers the settings, so that two queues can be compared.
    var serial: nat

    constructor ()
      ensures !isActive
    {
      intervalMs, endClockMs, isActive, param, serial := 0, 0, false, 0, 0;
    }
  }

  ghost function EntryOf(t: Timer): (e: Entry)
    reads t
  {
    Entry(t.serial, t.endClockMs, t.param, t.intervalMs)
  }

  ghost function Entries(s: seq<Timer>): (r: seq<Entry>)
    reads s
    ensures |r| == |s| && forall i :: 0 <= i < |s| ==> r[i] == EntryOf(s[i])
  {
    seq(|s|, i requires 0 <= i < |s| reads s => EntryOf(s[i]))
  }

  /** The lists share out the pool. */
  ghost predicate Partition(free: seq<Timer>, active: seq<Timer>, pool: set<Timer>) {
    multiset(free) + multiset(active) == multiset(pool)
  }

  lemma OnlyOnce(free: seq<Timer>, active: seq<Timer>, pool: set<Timer>)
    requires Partition(free, active, pool)
    ensures forall t :: t in free ==> t !in active
    ensures forall i, j :: 0 <= i < j < |active| ==> active[i] != active[j]
    ensures forall i, j :: 0 <= i < j < |free| ==> free[i] != free[j]
  {
    forall t | t in free ensures t !in active {
      assert multiset(free)[t] >= 1 && multiset(pool)[t] <= 1;
      assert t in active ==> multiset(active)[t] >= 1;
    }
    NoRepeats(active, pool);
    NoRepeats(free, pool);
  }

  lemma NoRepeats(s: seq<Timer>, pool: set<Timer>)
    requires forall t :: multiset(s)[t] <= multiset(pool)[t]
    ensures forall i, j :: 0 <= i < j < |s| ==> s[i] != s[j]
  {
    forall i, j | 0 <= i < j < |s| ensures s[i] != s[j] {
      assert s == s[..j] + s[j..];
      assert s[i] in s[..j] && s[j] in s[j..];
      assert multiset(s[..j])[s[i]] >= 1 && multiset(s[j..])[s[j]] >= 1 && multiset(s)[s[j]] <= 1;
    }
  }

  class Queue {
    const lru: bool
    const interval: nat
    ghost const pool: set<Timer>
    var freeList: seq<Timer>
    var activeList: seq<Timer>
    var lastClock: int
    var next: nat
    // The last clock reading that set a deadline, and whether these readings never went back.
    ghost var latest: int
    ghost var steady: bool

    /** Every timer is in one list, active ones are marked, and the active list is in order of
        deadlines: always if it is sorted, and with one interval while the clock is steady. */
    ghost predicate Valid()
      reads this, activeList
    {
      Partition(freeList, activeList, pool) && Marked(activeList) && Kept(StateOf(), KindOf(), steady, latest)
    }

    ghost predicate Ordered()
      reads this
    {
      !lru || steady
    }

    ghost function Contents(): (r: seq<Entry>)
      reads this, activeList
    {
      Entries(activeList)
    }

    ghost function StateOf(): (s: State)
      reads this, activeList
    {
      State(Contents(), |freeList|, next, lastClock)
    }

    ghost function KindOf(): (k: Kind) { if lru then Appending(interval) else Sorting }

    /** `init`. */
    constructor (size: nat, interval: nat, lru: bool, ghost latest: int)
      ensures Valid() && StateOf() == Start(size) && steady && this.latest == latest
      ensures this.interval == interval && this.lru == lru && fresh(pool) && (forall t :: t in freeList ==> fresh(t))
    {
      this.interval, this.lru := interval, lru;
      var timers: seq<Timer> := [];
      ghost var made: set<Timer> := {};
      for i := 0 to size
        invariant |timers| == i && multiset(timers) == multiset(made)
        invariant fresh(made) && forall t :: t in timers ==> fresh(t)
      {
        var t := new Timer();
        assert t !in made;
        timers := timers + [t];
        made := made + {t};
      }
      pool := made;
      freeList, activeList, lastClock, next := timers, [], 0, 0;
      this.latest, steady := latest, true;
    }

    /** The scan from the back of the active list, or an append. */
    method Place(t: Timer)
      requires t !in activeList && t.isActive && Marked(activeList)
      modifies this`activeList
      ensures multiset(activeList) == multiset(old(activeList)) + multiset{t} && t in activeList && Marked(activeList)
      ensures Contents() == Placed(old(Contents()), EntryOf(t), lru)
    {
      hide Inserted, Marked;
      ghost var s, e := activeList, EntryOf(t);
      if lru || activeList == [] {
        activeList := activeList + [t];
        EntriesAppended(s, t);
        if !lru { InsertedAt([], e, 0); }
      } else {
        var j := |activeList|;
        while j > 0
          invariant 0 <= j <= |activeList| && activeList == s
          invariant forall k :: j <= k < |s| ==> t.endClockMs <= s[k].endClockMs
        {
          if t.endClockMs > activeList[j - 1].endClockMs { break; }
          j := j - 1;
        }
        InsertedAt(Entries(s), e, j);
        activeList := activeList[..j] + [t] + activeList[j..];
        EntriesInserted(s, t, j);
      }
      Members(activeList, s, t);
      AllMarked(s, activeList, t);
    }

    /** `set_timer`: null when every timer is in use. */
    method SetTimer(intervalMs: nat, param: int, now: int) returns (r: Timer?)
      requires Valid()
      modifies this`freeList, this`activeList, this`next, this`latest, this`steady, freeList
      ensures Valid() && (r == null <==> old(freeList) == [])
      ensures StateOf() == Step(old(StateOf()), Set(intervalMs, param, now), KindOf()).1
      ensures r != null ==> r in activeList && EntryOf(r) == NewEntry(old(StateOf()), intervalMs, param, now, KindOf())
      ensures steady == (old(steady) && (r == null || old(latest) <= now))
              && latest == (if r == null then old(latest) else now)
    {
      hide Partition, Placed, Entries, Kept, Marked, Step;
      if freeList == [] {
        SetNothing(StateOf(), intervalMs, param, now, KindOf());
        return null;
      }
      var timer := freeList[0];
      FirstOut(freeList, activeList, pool);
      ghost var free, state := freeList, StateOf();
      freeList := freeList[1..];
      ghost var was := activeList;
      Arm(timer, if lru then interval else intervalMs, param, now);
      FirstUsed(free, was, activeList, pool);
      steady, latest := steady && latest <= now, now;
      SetStep(state, intervalMs, param, now, KindOf());
      StepKeeps(state, Set(intervalMs, param, now), KindOf(), old(steady), old(latest));
      r := timer;
    }

    /** Sets the fields of a timer and puts it in. */
    method Arm(t: Timer, intervalMs: nat, param: int, now: int)
      requires t !in activeList && Marked(activeList)
      modifies this`activeList, this`next, t
      ensures multiset(activeList) == multiset(old(activeList)) + multiset{t} && t in activeList && Marked(activeList)
      ensures next == old(next) + 1 && EntryOf(t) == Entry(old(next), now + intervalMs, param, intervalMs)
      ensures Contents() == Placed(old(Contents()), EntryOf(t), lru)
    {
      hide Placed, Entries, Marked;
      ghost var was := activeList;
      t.param := param;
      t.intervalMs := intervalMs;
      t.endClockMs := now + t.intervalMs;
      t.isActive := true;
      t.serial := next;
      next := next + 1;
      Untouched(was);
      StillMarked(was);
      Place(t);
    }

    /** `activeList_.remove`. */
    method Remove(t: Timer, ghost i: nat)
      requires Partition(freeList, activeList, pool) && Marked(activeList) && i < |activeList| && activeList[i] == t
      modifies this`activeList
      ensures multiset(old(activeList)) == multiset(activeList) + multiset{t} && t !in activeList
      ensures Contents() == Without(old(Contents()), i)
      ensures Marked(activeList) && Partition([t] + freeList, activeList, pool)
    {
      ghost var s := activeList;
      OnlyOnce(freeList, s, pool);
      var k := 0;
      while activeList[k] != t
        invariant k <= i && forall m :: 0 <= m < k ==> activeList[m] != t
        decreases i - k
      {
        k := k + 1;
      }
      activeList := activeList[..k] + activeList[k + 1..];
      EntriesRemoved(s, k);
    }

    /** `cancel_timer`: a timer that is marked as active has to be in the active list. */
    method CancelTimer(t: Timer) returns (r: int)
      requires Valid() && (t.isActive ==> t in activeList)
      modifies this`activeList, this`freeList
      ensures Valid() && r == if t.isActive then 0 else -1
      ensures !t.isActive ==> activeList == old(activeList) && freeList == old(freeList)
      ensures t.isActive ==> StateOf() == Step(old(StateOf()), Cancel(t.serial), KindOf()).1
      ensures t.isActive ==> t !in activeList && freeList == [t] + old(freeList)
      ensures t.isActive == old(t.isActive)
    {
      hide Partition, Placed, Entries, Without, Kept, Marked, Step, Find;
      if !t.isActive { return -1; }
      ghost var state := StateOf();
      ghost var i := PlaceOf(t);
      CancelStep(state, t.serial, KindOf(), i);
      Remove(t, i);
      freeList := [t] + freeList;
      StepKeeps(state, Cancel(t.serial), KindOf(), steady, latest);
      r := 0;
    }

    /** Where a timer is in the active list, and that its number finds it. */
    lemma PlaceOf(t: Timer) returns (i: nat)
      requires Valid() && t in activeList
      ensures i < |activeList| && activeList[i] == t
      ensures i == Find(Contents(), t.serial) && Contents()[i] == EntryOf(t)
    {
      hide Partition, Within, Sorted, Marked;
      i :| 0 <= i < |activeList| && activeList[i] == t;
      FindIs(Contents(), i);
    }

    /** `update_timer`: due one interval of its own from now. */
    method UpdateTimer(t: Timer, now: int) returns (r: int)
      requires Valid() && (t.isActive ==> t in activeList)
      modifies this`activeList, this`latest, this`steady, t`endClockMs, t`isActive
      ensures Valid() && r == if old(t.isActive) then 0 else -1
      ensures !old(t.isActive) ==> StateOf() == old(StateOf()) && activeList == old(activeList) && steady == old(steady)
      ensures old(t.isActive) ==> StateOf() == Step(old(StateOf()), Update(t.serial, now), KindOf()).1
      ensures old(t.isActive) ==> steady == (old(steady) && old(latest) <= now) && latest == now
      ensures !old(t.isActive) ==> latest == old(latest)
    {
      hide Partition, Placed, Entries, Without, Kept, Marked, Step, Find;
      if !t.isActive { return -1; }
      ghost var state := StateOf();
      ghost var i := PlaceOf(t);
      UpdateStep(state, t.serial, now, KindOf(), i);
      Move(t, i, now);
      steady, latest := steady && latest <= now, now;
      StepKeeps(state, Update(t.serial, now), KindOf(), old(steady), old(latest));
      r := 0;
    }

    /** Takes an active timer out and puts it back at its new place. */
    method Move(t: Timer, ghost i: nat, now: int)
      requires Partition(freeList, activeList, pool) && Marked(activeList) && i < |activeList| && activeList[i] == t
      requires t.isActive
      modifies this`activeList, t`endClockMs, t`isActive
      ensures Partition(freeList, activeList, pool) && Marked(activeList)
      ensures Contents() == Placed(Without(old(Contents()), i), Renewed(old(EntryOf(t)), now), lru)
    {
      hide Partition, Placed, Entries, Without, Marked;
      ghost var before := activeList;
      Remove(t, i);
      PutBack(t, now);
      SameShare(freeList, before, activeList, pool);
    }

    /** The second half of `update_timer`. */
    method PutBack(t: Timer, now: int)
      requires t !in activeList && t.isActive && Marked(activeList)
      modifies this`activeList, t`endClockMs, t`isActive
      ensures multiset(activeList) == multiset(old(activeList)) + multiset{t} && Marked(activeList) && t.isActive
      ensures Contents() == Placed(old(Contents()), Renewed(old(EntryOf(t)), now), lru)
    {
      hide Placed, Entries, Marked;
      ghost var was := activeList;
      t.endClockMs := now + t.intervalMs;
      t.isActive := true;
      Untouched(was);
      StillMarked(was);
      Place(t);
    }

    /** `expire`: if the clock has advanced, fires the timers at the front that are due, which are
        all that are due as long as the list is in order. */
    method Expire(now: int) returns (fired: seq<Entry>)
      requires Valid()
      modifies this`activeList, this`freeList, this`lastClock
      ensures Valid() && (fired, StateOf()) == Step(old(StateOf()), TimerSpec.Expire(now), KindOf())
      ensures now > old(lastClock) && Ordered() ==> FiresDue(old(Contents()), fired, Contents(), now)
      ensures now <= old(lastClock) ==> activeList == old(activeList) && freeList == old(freeList)
      ensures |fired| <= |old(activeList)| && activeList == old(activeList)[|fired|..]
      ensures forall t :: t in old(activeList) ==> t.isActive
    {
      hide Partition, DueCount, Kept, FiresDue, Marked, Step, Entries;
      ghost var s, state := activeList, StateOf();
      AllActive(s);
      ExpireStep(state, now, KindOf());
      if now <= lastClock { return []; }
      lastClock := now;
      ghost var k;
      fired, k := FireDue(now);
      EntriesTail(s, k);
      TailMarked(s, k);
      StepKeeps(state, TimerSpec.Expire(now), KindOf(), steady, latest);
      if Ordered() { DueAll(state, KindOf(), steady, latest, now); }
    }

    /** The loop: timers move from the front of the active list to the free list. */
    method FireDue(now: int) returns (fired: seq<Entry>, ghost k: nat)
      requires Partition(freeList, activeList, pool)
      modifies this`activeList, this`freeList
      ensures Partition(freeList, activeList, pool) && k == DueCount(old(Contents()), now)
      ensures activeList == old(activeList[k..]) && fired == old(Contents())[..k] && |freeList| == |old(freeList)| + k
    {
      hide Partition, DueCount;
      ghost var s, all := activeList, Contents();
      fired, k := [], 0;
      while activeList != []
        invariant k <= |s| && activeList == s[k..] && fired == all[..k] && |freeList| == |old(freeList)| + k
        invariant Partition(freeList, activeList, pool)
        invariant forall j :: 0 <= j < k ==> all[j].due <= now
        decreases |activeList|
      {
        var timer := activeList[0];
        if now < timer.endClockMs { break; }
        FirstToFree(freeList, activeList, pool);
        activeList := activeList[1..];
        freeList := [timer] + freeList;
        fired := fired + [Entry(timer.serial, timer.endClockMs, timer.param, timer.intervalMs)];
        k := k + 1;
      }
      DueCountIs(all, now, k);
    }

    /** The active timer with a number, if there is one. */
    method TimerOf(serial: nat) returns (t: Timer?)
      requires Valid()
      ensures t == null <==> Find(Contents(), serial) == |Contents()|
      ensures t != null ==> t in activeList && t.isActive && t.serial == serial
    {
      hide Find, Partition, Kept;
      var k := 0;
      while k < |activeList|
        invariant k <= |activeList| && forall j :: 0 <= j < k ==> activeList[j].serial != serial
      {
        if activeList[k].serial == serial {
          assert Contents()[k].serial == serial;
          return activeList[k];
        }
        k := k + 1;
      }
      assert forall j :: 0 <= j < |Contents()| ==> Contents()[j].serial != serial;
      t := null;
    }

    /** One operation of a run: the class is the state machine. */
    method Apply(op: Op) returns (fired: seq<Entry>)
      requires Valid()
      modifies this, pool
      ensures Valid() && (fired, StateOf()) == Step(old(StateOf()), op, KindOf())
      ensures old(steady && latest <= SetsAt(op, latest)) ==> steady && latest <= SetsAt(op, old(latest))
    {
      hide Partition, Placed, Entries, Without, Kept, Marked, Find, DueCount, FiresDue;
      AllInPool(freeList, activeList, pool);
      match op {
        case Set(interval, param, now) =>
          var t := SetTimer(interval, param, now);
          fired := [];
        case Cancel(serial) =>
          var t := TimerOf(serial);
          if t != null { var r := CancelTimer(t); }
          fired := [];
        case Update(serial, now) =>
          var t := TimerOf(serial);
          if t != null { var r := UpdateTimer(t, now); }
          fired := [];
        case Expire(now) => fired := Expire(now);
      }
    }
  }

  lemma AllInPool(free: seq<Timer>, active: seq<Timer>, pool: set<Timer>)
    requires Partition(free, active, pool)
    ensures forall t :: t in free || t in active ==> t in pool
  {
    forall t | t in free || t in active ensures t in pool {
      assert t in multiset(free) || t in multiset(active);
      assert t in multiset(pool);
    }
  }

  /** A run of operations on a queue fires what the run of the specification fires. */
  method RunOps(q: Queue, ops: seq<Op>) returns (fired: seq<seq<Entry>>)
    requires q.Valid()
    modifies q, q.pool
    ensures q.Valid() && (fired, q.StateOf()) == Run(old(q.StateOf()), ops, q.KindOf())
  {
    hide Step;
    fired := [];
    for k := 0 to |ops|
      invariant q.Valid() && (fired, q.StateOf()) == Run(old(q.StateOf()), ops[..k], q.KindOf())
    {
      var one := q.Apply(ops[k]);
      assert ops[..k + 1][..k] == ops[..k];
      fired := fired + [one];
    }
    assert ops[..|ops|] == ops;
  }

  /** A sorting queue and an appending one, put through the same operations with one interval and a
      clock that does not go back, fire the same timers at every operation. */
  method Compare(size: nat, interval: nat, ops: seq<Op>, ghost latest: int)
    returns (sorting: seq<seq<Entry>>, appending: seq<seq<Entry>>)
    requires Clocked(ops, latest) && OneInterval(ops, interval)
    ensures |sorting| == |appending| == |ops|
    ensures forall k :: 0 <= k < |ops| ==> multiset(sorting[k]) == multiset(appending[k])
  {
    hide Run, Clocked, OneInterval;
    var general := new Queue(size, interval, false, latest);
    sorting := RunOps(general, ops);
    var lru := new Queue(size, interval, true, latest);
    appending := RunOps(lru, ops);
    RunsAlike(size, ops, interval, latest);
  }

  /** A handle that is no longer in the active list but still marked: `cancel_timer` and
      `update_timer` would take it for an active one. */
  ghost predicate Stale(q: Queue, t: Timer)
    reads q, t
  {
    t.isActive && t !in q.activeList
  }

  /** Every handle of a timer that was cancelled is such a handle. */
  method CancelledIsStale(q: Queue, t: Timer)
    requires q.Valid() && t in q.activeList
    modifies q
    ensures q.Valid() && Stale(q, t)
  {
    var r := q.CancelTimer(t);
  }

  /** So is every handle of a timer that fired. */
  method FiredIsStale(q: Queue, now: int, k: nat)
    requires q.Valid() && k < |q.activeList|
    modifies q
    ensures q.Valid()
    ensures Stale(q, old(q.activeList[k])) <==> now > old(q.lastClock) && k < DueCount(old(q.Contents()), now)
  {
    hide DueCount, Partition, Kept, Step, FiresDue, Entries;
    ghost var s := q.activeList;
    OnlyOnce(q.freeList, s, q.pool);
    ExpireCount(q.StateOf(), now, q.KindOf());
    var fired := q.Expire(now);
    InRest(s, k, |fired|);
  }

  lemma InRest(s: seq<Timer>, k: nat, n: nat)
    requires n <= |s| && k < |s| && forall i, j :: 0 <= i < j < |s| ==> s[i] != s[j]
    ensures s[k] in s[n..] <==> k >= n
  {
    if k >= n { assert s[n..][k - n] == s[k]; }
  }

  lemma AllActive(s: seq<Timer>)
    requires Marked(s)
    ensures forall t :: t in s ==> t.isActive
  {}

  ghost predicate Marked(s: seq<Timer>)
    reads s
  {
    forall i :: 0 <= i < |s| ==> s[i].isActive
  }

  lemma AllMarked(was: seq<Timer>, s: seq<Timer>, t: Timer)
    requires Marked(was) && t.isActive && forall x :: x in s ==> x == t || x in was
    ensures Marked(s)
  {
    forall j | 0 <= j < |s| ensures s[j].isActive { assert s[j] in s; }
  }

  twostate lemma StillMarked(s: seq<Timer>)
    requires old(Marked(s)) && forall i :: 0 <= i < |s| ==> s[i].isActive == old(s[i].isActive)
    ensures Marked(s)
  {}

  lemma TailMarked(s: seq<Timer>, k: nat)
    requires k <= |s| && Marked(s)
    ensures Marked(s[k..])
  {}

  // ----- the cases of a step --------------------------------------------------------------

  lemma SetStep(s: State, interval: nat, param: int, now: int, kind: Kind)
    requires s.free > 0
    ensures Step(s, Set(interval, param, now), kind)
         == ([], State(Placed(s.active, NewEntry(s, interval, param, now, kind), kind.Appending?),
                       s.free - 1, s.next + 1, s.clock))
  {
    hide Placed;
  }

  lemma SetNothing(s: State, interval: nat, param: int, now: int, kind: Kind)
    requires s.free == 0
    ensures Step(s, Set(interval, param, now), kind) == ([], s)
  {}

  lemma CancelStep(s: State, serial: nat, kind: Kind, i: nat)
    requires i < |s.active| && i == Find(s.active, serial)
    ensures Step(s, Cancel(serial), kind) == ([], s.(active := Without(s.active, i), free := s.free + 1))
  {
    hide Find, Without;
  }

  lemma UpdateStep(s: State, serial: nat, now: int, kind: Kind, i: nat)
    requires i < |s.active| && i == Find(s.active, serial)
    ensures Step(s, Update(serial, now), kind)
         == ([], s.(active := Placed(Without(s.active, i), Renewed(s.active[i], now), kind.Appending?)))
  {
    hide Find, Without, Placed;
  }

  lemma ExpireStep(s: State, now: int, kind: Kind)
    ensures now <= s.clock ==> Step(s, Expire(now), kind) == ([], s)
    ensures now > s.clock ==>
      var n := DueCount(s.active, now);
      Step(s, Expire(now), kind) == (s.active[..n], s.(active := s.active[n..], free := s.free + n, clock := now))
  {
    hide DueCount;
  }

  /** Numbers are used once; the list is in order if it is sorted or the clock has been steady. */
  ghost predicate Kept(s: State, kind: Kind, steady: bool, latest: int) {
    && Numbered(s.active, s.next)
    && (kind.Sorting? || steady ==> Sorted(s.active))
    && (kind.Appending? && steady ==> Within(s.active, kind.own, latest))
  }

  /** Every operation keeps that. */
  lemma StepKeeps(s: State, op: Op, kind: Kind, steady: bool, latest: int)
    requires Kept(s, kind, steady, latest)
    ensures Kept(Step(s, op, kind).1, kind, steady && latest <= SetsAt(op, latest), SetsAt(op, latest))
  {
    hide Step, Sorted, Numbered, Within;
    StepNumbered(s, op, kind);
    if kind.Sorting? {
      SortingStaysSorted(s, op);
    } else if steady && latest <= SetsAt(op, latest) {
      AppendingStaysSorted(s, op, kind.own, latest);
    }
  }

  lemma DueAll(s: State, kind: Kind, steady: bool, latest: int, now: int)
    requires Kept(s, kind, steady, latest) && (kind.Sorting? || steady)
    ensures var n := DueCount(s.active, now); FiresDue(s.active, s.active[..n], s.active[n..], now)
  {
    hide Sorted, DueCount, Numbered, Within;
    DueIsAllDue(s.active, now);
  }

  lemma {:induction false} FindIs(s: seq<Entry>, i: nat)
    requires i < |s| && Unique(s)
    ensures Find(s, s[i].serial) == i
  {
    if i > 0 {
      assert s[0].serial != s[i].serial;
      FindIs(s[1..], i - 1);
    }
  }

  lemma {:induction false} DueCountIs(s: seq<Entry>, now: int, k: nat)
    requires k <= |s| && (forall j :: 0 <= j < k ==> s[j].due <= now) && (k < |s| ==> now < s[k].due)
    ensures DueCount(s, now) == k
  {
    if k > 0 { DueCountIs(s[1..], now, k - 1); }
  }

  lemma EntriesInserted(s: seq<Timer>, t: Timer, j: nat)
    requires j <= |s|
    ensures Entries(s[..j] + [t] + s[j..]) == Entries(s)[..j] + [EntryOf(t)] + Entries(s)[j..]
    ensures multiset(s[..j] + [t] + s[j..]) == multiset(s) + multiset{t}
  {
    assert s == s[..j] + s[j..];
  }

  lemma EntriesAppended(s: seq<Timer>, t: Timer)
    ensures Entries(s + [t]) == Entries(s) + [EntryOf(t)]
  {}

  lemma EntryAt(s: seq<Timer>, i: nat)
    requires i < |s|
    ensures Entries(s)[i] == EntryOf(s[i])
  {}

  lemma EntriesTail(s: seq<Timer>, k: nat)
    requires k <= |s|
    ensures Entries(s[k..]) == Entries(s)[k..]
  {}

  lemma EntriesRemoved(s: seq<Timer>, k: nat)
    requires k < |s|
    ensures Entries(s[..k] + s[k + 1..]) == Without(Entries(s), k)
    ensures multiset(s) == multiset(s[..k] + s[k + 1..]) + multiset{s[k]}
  {
    assert s == s[..k] + [s[k]] + s[k + 1..];
  }

  lemma FirstOut(free: seq<Timer>, active: seq<Timer>, pool: set<Timer>)
    requires free != [] && Partition(free, active, pool)
    ensures free[0] !in active
  {
    OnlyOnce(free, active, pool);
  }

  lemma FirstUsed(free: seq<Timer>, active: seq<Timer>, after: seq<Timer>, pool: set<Timer>)
    requires free != [] && Partition(free, active, pool) && multiset(after) == multiset(active) + multiset{free[0]}
    ensures Partition(free[1..], after, pool)
  {
    assert free == [free[0]] + free[1..];
  }

  lemma SameShare(free: seq<Timer>, active: seq<Timer>, after: seq<Timer>, pool: set<Timer>)
    requires Partition(free, active, pool) && multiset(after) == multiset(active)
    ensures Partition(free, after, pool)
  {}

  lemma FirstToFree(free: seq<Timer>, active: seq<Timer>, pool: set<Timer>)
    requires active != [] && Partition(free, active, pool)
    ensures Partition([active[0]] + free, active[1..], pool)
  {
    assert active == [active[0]] + active[1..];
  }

  /** Changing other timers leaves the entries of these as they were. */
  twostate lemma Untouched(s: seq<Timer>)
    requires forall i :: 0 <= i < |s| ==>
               && s[i].serial == old(s[i].serial) && s[i].endClockMs == old(s[i].endClockMs)
               && s[i].param == old(s[i].param)
    requires forall i :: 0 <= i < |s| ==> s[i].intervalMs == old(s[i].intervalMs)
    ensures Entries(s) == old(Entries(s))
  {}

  lemma Members(s: seq<Timer>, was: seq<Timer>, t: Timer)
    requires multiset(s) == multiset(was) + multiset{t}
    ensures t in s && forall x :: x in s ==> x == t || x in was
  {
    assert t in multiset(s);
    forall x | x in s ensures x == t || x in was {
      assert x in multiset(s);
      assert x in multiset(was) ==> x in was;
    }
  }
}
