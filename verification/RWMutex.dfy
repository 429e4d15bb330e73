/** The Windows `SL_Sync_RWMutex` as interleaved atomic steps of any number of threads. */
module RWMutex {
  import opened Options

  type Thread = nat

  datatype Kind = Read | Write

  /** Where a thread is.  `held` remembers which lock a caller of the untyped `unlock` holds;
      the program itself cannot see it. */
  datatype PC =
    | Outside
    // read_lock
    | RLock            // about to enter the write section
    | RLockInner       // holds it, about to enter the read section
    | RCount           // holds both, about to increment
    | RReset           // the count became 1, about to reset the event
    | RLeaveInner      // about to leave the read section
    | RLeave           // about to leave the write section
    | Reading
    // read_unlock, and the read branch of unlock
    | RUnlock(held: Kind)  // about to enter the read section
    | RUncount         // holds it, about to decrement
    | RSet             // the count became 0, about to set the event
    | RUnlockLeave     // about to leave the read section
    // write_lock
    | WLock            // about to enter the write section
    | WWait            // holds it, waits for the event
    | Writing
    // unlock
    | Unlock(held: Kind)   // about to look at the count
    | WUnlock(held: Kind)  // about to leave the write section

  /** The two critical sections, the manual-reset event and the reader count. */
  datatype Shared = Shared(writeMutex: Option<Thread>, readMutex: Option<Thread>, event: bool, count: int)

  datatype State = State(pc: map<Thread, PC>, shared: Shared)

  /** What a thread that is free to choose does next. */
  datatype Call = ReadLock | WriteLock | TypedUnlock | UntypedUnlock

  /** One atomic step of a thread at `pc`: where it goes and what it does to the shared state, or
      `None` when it is blocked.  The call matters only outside and inside a lock. */
  function Move(t: Thread, pc: PC, s: Shared, call: Call): (r: Option<(PC, Shared)>) {
    match pc
    case Outside =>
      (match call
       case ReadLock => Some((RLock, s))
       case WriteLock => Some((WLock, s))
       case _ => None)
    case RLock => if s.writeMutex == None then Some((RLockInner, s.(writeMutex := Some(t)))) else None
    case RLockInner => if s.readMutex == None then Some((RCount, s.(readMutex := Some(t)))) else None
    case RCount => Some((if s.count + 1 == 1 then RReset else RLeaveInner, s.(count := s.count + 1)))
    case RReset => Some((RLeaveInner, s.(event := false)))
    case RLeaveInner => Some((RLeave, s.(readMutex := None)))
    case RLeave => Some((Reading, s.(writeMutex := None)))
    case Reading =>
      (match call
       case TypedUnlock => Some((RUnlock(Read), s))
       case UntypedUnlock => Some((Unlock(Read), s))
       case _ => None)
    case RUnlock(_) => if s.readMutex == None then Some((RUncount, s.(readMutex := Some(t)))) else None
    case RUncount => Some((if s.count - 1 == 0 then RSet else RUnlockLeave, s.(count := s.count - 1)))
    case RSet => Some((RUnlockLeave, s.(event := true)))
    case RUnlockLeave => Some((Outside, s.(readMutex := None)))
    case WLock => if s.writeMutex == None then Some((WWait, s.(writeMutex := Some(t)))) else None
    case WWait => if s.event then Some((Writing, s)) else None
    case Writing =>
      (match call
       case TypedUnlock => Some((WUnlock(Write), s))
       case UntypedUnlock => Some((Unlock(Write), s))
       case _ => None)
    case Unlock(held) => Some((if s.count == 0 then WUnlock(held) else RUnlock(held), s))
    case WUnlock(_) => Some((Outside, s.(writeMutex := None)))
  }

  function Step(s: State, t: Thread, call: Call): (r: Option<State>) {
    if t !in s.pc then None
    else match Move(t, s.pc[t], s.shared, call)
      case None => None
      case Some(m) => Some(State(s.pc[t := m.0], m.1))
  }

  ghost predicate Init(s: State) {
    (forall t :: t in s.pc ==> s.pc[t] == Outside) && s.shared == Shared(None, None, true, 0)
  }

  /** The state after an interleaving; a step that cannot be taken is not part of a run. */
  function Run(s: State, trace: seq<(Thread, Call)>): (r: Option<State>)
    decreases |trace|
  {
    if trace == [] then Some(s)
    else
      match Step(s, trace[0].0, trace[0].1)
      case None => None
      case Some(s1) => Run(s1, trace[1..])
  }

  // ----- the invariant --------------------------------------------------------------------

  /** Program points that hold the write section, hold the read section, are counted. */
  predicate HoldsWrite(pc: PC) {
    || pc == RLockInner || pc == RCount || pc == RReset || pc == RLeaveInner || pc == RLeave
    || pc == WWait || pc == Writing || pc == Unlock(Write) || pc == WUnlock(Write)
  }

  predicate HoldsRead(pc: PC) {
    || pc == RCount || pc == RReset || pc == RLeaveInner || pc == RUncount || pc == RSet || pc == RUnlockLeave
  }

  predicate Counted(pc: PC) {
    || pc == RReset || pc == RLeaveInner || pc == RLeave || pc == Reading || pc == Unlock(Read)
    || pc == RUnlock(Read) || pc == RUncount
  }

  /** A writer that has passed the event and not yet left. */
  predicate InWrite(pc: PC) { pc == Writing || pc == Unlock(Write) || pc == WUnlock(Write) }

  ghost function CountedThreads(pc: map<Thread, PC>): (r: set<Thread>) { set t | t in pc && Counted(pc[t]) }

  ghost predicate Owner(mutex: Option<Thread>, t: Thread, holds: bool) { mutex == Some(t) <==> holds }

  /** A section's owner is the thread whose program point says so. */
  ghost predicate Sections(s: State) {
    && (forall t :: t in s.pc ==> Owner(s.shared.writeMutex, t, HoldsWrite(s.pc[t])))
    && (forall t :: t in s.pc ==> Owner(s.shared.readMutex, t, HoldsRead(s.pc[t])))
    && (s.shared.writeMutex.Some? ==> s.shared.writeMutex.value in s.pc)
    && (s.shared.readMutex.Some? ==> s.shared.readMutex.value in s.pc)
  }

  ghost predicate Counts(s: State) { s.shared.count == |CountedThreads(s.pc)| }

  /** The event tells whether the count is zero, except just before it is updated. */
  ghost predicate Event(s: State) {
    && (forall t :: t in s.pc && s.pc[t] == RReset ==> s.shared.event && s.shared.count == 1)
    && (forall t :: t in s.pc && s.pc[t] == RSet ==> !s.shared.event && s.shared.count == 0)
    && ((forall t :: t in s.pc ==> s.pc[t] != RReset && s.pc[t] != RSet) ==> (s.shared.event <==> s.shared.count == 0))
  }

  /** No reader is counted while a writer is inside. */
  ghost predicate Exclusive(s: State) { forall t :: t in s.pc && InWrite(s.pc[t]) ==> s.shared.count == 0 }

  /** `unlock` took the branch of the lock its caller holds. */
  ghost predicate Branches(s: State) { forall t :: t in s.pc ==> s.pc[t] != RUnlock(Write) && s.pc[t] != WUnlock(Read) }

  ghost predicate Inv(s: State) { Sections(s) && Counts(s) && Event(s) && Exclusive(s) && Branches(s) }

  /** How one thread's move changes the set of counted threads. */
  lemma CountedAfter(pc: map<Thread, PC>, t: Thread, p: PC)
    requires t in pc
    ensures |CountedThreads(pc[t := p])|
         == |CountedThreads(pc)| + (if Counted(p) then 1 else 0) - (if Counted(pc[t]) then 1 else 0)
  {
    hide Counted;
    var before, after := CountedThreads(pc), CountedThreads(pc[t := p]);
    if Counted(p) && !Counted(pc[t]) {
      assert after == before + {t};
    } else if !Counted(p) && Counted(pc[t]) {
      assert before == after + {t};
    } else {
      assert after == before;
    }
  }

  lemma InitInv(s: State)
    requires Init(s)
    ensures Inv(s)
  {
    assert CountedThreads(s.pc) == {};
  }

  /** A counted thread makes the count positive. */
  lemma CountPositive(s: State, t: Thread)
    requires Inv(s) && t in s.pc && Counted(s.pc[t])
    ensures s.shared.count > 0
  {
    assert t in CountedThreads(s.pc);
  }

  ghost predicate FreeOrMine(mutex: Option<Thread>, t: Thread) { mutex == None || mutex == Some(t) }

  /** The facts about its own program point that a moving thread starts from. */
  ghost predicate Consistent(t: Thread, p: PC, s: Shared) {
    && Owner(s.writeMutex, t, HoldsWrite(p)) && Owner(s.readMutex, t, HoldsRead(p))
    && (InWrite(p) ==> s.count == 0) && (Counted(p) ==> s.count > 0)
    && p != RUnlock(Write) && p != WUnlock(Read)
  }

  lemma EveryKind(p: PC)
    ensures p.RUnlock? ==> p == RUnlock(Read) || p == RUnlock(Write)
    ensures p.Unlock? ==> p == Unlock(Read) || p == Unlock(Write)
    ensures p.WUnlock? ==> p == WUnlock(Read) || p == WUnlock(Write)
  {
    if p.RUnlock? || p.Unlock? || p.WUnlock? { assert p.held == Read || p.held == Write; }
  }

  /** A move takes only free sections and gives up only its own. */
  lemma MoveWriteSection(t: Thread, p: PC, s: Shared, call: Call)
    requires Consistent(t, p, s) && Move(t, p, s, call).Some?
    ensures var (q, u) := Move(t, p, s, call).value;
      && Owner(u.writeMutex, t, HoldsWrite(q)) && q != RUnlock(Write) && q != WUnlock(Read)
      && (u.writeMutex == s.writeMutex || (FreeOrMine(s.writeMutex, t) && FreeOrMine(u.writeMutex, t)))
  {
    EveryKind(p);
  }

  lemma MoveReadSection(t: Thread, p: PC, s: Shared, call: Call)
    requires Consistent(t, p, s) && Move(t, p, s, call).Some?
    ensures var (q, u) := Move(t, p, s, call).value;
      && Owner(u.readMutex, t, HoldsRead(q))
      && (u.readMutex == s.readMutex || (FreeOrMine(s.readMutex, t) && FreeOrMine(u.readMutex, t)))
  {
    EveryKind(p);
  }

  /** A move changes the count with its own status, and only inside the read section. */
  lemma MoveCount(t: Thread, p: PC, s: Shared, call: Call)
    requires Consistent(t, p, s) && Move(t, p, s, call).Some?
    ensures var (q, u) := Move(t, p, s, call).value;
      && u.count == s.count + (if Counted(q) then 1 else 0) - (if Counted(p) then 1 else 0)
      && (u.count > s.count ==> HoldsWrite(p) && !InWrite(p) && !InWrite(q))
      && (u.count != s.count ==> HoldsRead(p) && p != RReset && p != RSet)
  {
    EveryKind(p);
  }

  /** It changes the event only right after the count reached 1 or 0. */
  lemma MoveEvent(t: Thread, p: PC, s: Shared, call: Call)
    requires Consistent(t, p, s) && Move(t, p, s, call).Some?
    ensures var (q, u) := Move(t, p, s, call).value;
      && (q == RReset <==> u.count > s.count && u.count == 1)
      && (q == RSet <==> u.count < s.count && u.count == 0)
      && u.event == (if p == RReset then false else if p == RSet then true else s.event)
      && (p == RReset || p == RSet ==> HoldsRead(p) && u.count == s.count)
      && (InWrite(q) && !InWrite(p) ==> p == WWait && s.event && u.count == s.count)
  {
    EveryKind(p);
  }

  /** The thread of a possible step is consistent with the shared state. */
  lemma Moving(s: State, t: Thread, call: Call) returns (q: PC, u: Shared)
    requires Inv(s) && Step(s, t, call).Some?
    ensures t in s.pc && Move(t, s.pc[t], s.shared, call) == Some((q, u))
    ensures Step(s, t, call) == Some(State(s.pc[t := q], u))
    ensures Consistent(t, s.pc[t], s.shared)
  {
    hide Move;
    if Counted(s.pc[t]) { CountPositive(s, t); }
    q, u := Move(t, s.pc[t], s.shared, call).value.0, Move(t, s.pc[t], s.shared, call).value.1;
  }

  lemma StepSections(s: State, t: Thread, call: Call)
    requires Inv(s) && Step(s, t, call).Some?
    ensures Sections(Step(s, t, call).value) && Branches(Step(s, t, call).value)
  {
    hide Move, Counts, Event, Exclusive, HoldsWrite, HoldsRead, InWrite, Counted;
    var q, u := Moving(s, t, call);
    MoveWriteSection(t, s.pc[t], s.shared, call);
    MoveReadSection(t, s.pc[t], s.shared, call);
    var pc := s.pc[t := q];
    forall v | v in pc
      ensures Owner(u.writeMutex, v, HoldsWrite(pc[v])) && Owner(u.readMutex, v, HoldsRead(pc[v]))
    {
      assert Owner(s.shared.writeMutex, v, HoldsWrite(s.pc[v])) && Owner(s.shared.readMutex, v, HoldsRead(s.pc[v]));
    }
  }

  lemma StepCounts(s: State, t: Thread, call: Call)
    requires Inv(s) && Step(s, t, call).Some?
    ensures Counts(Step(s, t, call).value)
  {
    hide Move, Event, Sections, CountedThreads, HoldsWrite, HoldsRead, InWrite, Counted;
    var q, u := Moving(s, t, call);
    MoveCount(t, s.pc[t], s.shared, call);
    CountedAfter(s.pc, t, q);
  }

  lemma StepEvent(s: State, t: Thread, call: Call)
    requires Inv(s) && Step(s, t, call).Some?
    ensures Event(Step(s, t, call).value)
  {
    hide Move, Exclusive, Branches, InWrite, Counted, CountedThreads, HoldsWrite, Sections;
    var q, u := Moving(s, t, call);
    MoveCount(t, s.pc[t], s.shared, call);
    MoveEvent(t, s.pc[t], s.shared, call);
    ReadOwners(s, t);
    hide HoldsRead;
    var pc := s.pc[t := q];
    assert pc[t] == q && forall v :: v in s.pc && v != t ==> pc[v] == s.pc[v];
  }

  /** While a thread holds the read section, no other thread is about to touch the event. */
  lemma ReadOwners(s: State, t: Thread)
    requires Inv(s) && t in s.pc
    ensures HoldsRead(s.pc[t]) ==> forall v :: v in s.pc && v != t ==> s.pc[v] != RReset && s.pc[v] != RSet
  {
    forall v | v in s.pc && v != t && HoldsRead(s.pc[t]) ensures s.pc[v] != RReset && s.pc[v] != RSet {
      assert Owner(s.shared.readMutex, v, HoldsRead(s.pc[v]));
    }
  }

  lemma StepExclusive(s: State, t: Thread, call: Call)
    requires Inv(s) && Step(s, t, call).Some?
    ensures Exclusive(Step(s, t, call).value)
  {
    hide Move, Counts, Branches, Counted;
    var q, u := Moving(s, t, call);
    MoveCount(t, s.pc[t], s.shared, call);
    MoveEvent(t, s.pc[t], s.shared, call);
  }

  /** Every step of every thread keeps the invariant. */
  lemma StepInv(s: State, t: Thread, call: Call)
    requires Inv(s) && Step(s, t, call).Some?
    ensures Inv(Step(s, t, call).value)
  {
    hide Sections, Counts, Event, Exclusive, Branches, Step;
    StepSections(s, t, call);
    StepCounts(s, t, call);
    StepEvent(s, t, call);
    StepExclusive(s, t, call);
  }

  lemma {:induction false} RunInv(s: State, trace: seq<(Thread, Call)>)
    requires Inv(s) && Run(s, trace).Some?
    ensures Inv(Run(s, trace).value)
    decreases |trace|
  {
    if trace != [] {
      hide Inv;
      StepInv(s, trace[0].0, trace[0].1);
      RunInv(Step(s, trace[0].0, trace[0].1).value, trace[1..]);
    }
  }

  // ----- what clients rely on -------------------------------------------------------------

  /** In every interleaving: while a writer is inside, no reader and no other writer is. */
  lemma WriterExcludes(s: State, trace: seq<(Thread, Call)>, w: Thread, u: Thread)
    requires Init(s) && Run(s, trace).Some? && w in s.pc && u in s.pc && w != u
    ensures var pc := Run(s, trace).value.pc;
      w in pc && u in pc && (pc[w] == Writing ==> pc[u] != Reading && pc[u] != Writing)
  {
    InitInv(s);
    RunInv(s, trace);
    SameThreads(s, trace);
    var s' := Run(s, trace).value;
    if s'.pc[w] == Writing && s'.pc[u] == Reading { CountPositive(s', u); }
    assert Owner(s'.shared.writeMutex, w, HoldsWrite(s'.pc[w]));
    assert Owner(s'.shared.writeMutex, u, HoldsWrite(s'.pc[u]));
  }

  lemma {:induction false} SameThreads(s: State, trace: seq<(Thread, Call)>)
    requires Run(s, trace).Some?
    ensures Run(s, trace).value.pc.Keys == s.pc.Keys
    decreases |trace|
  {
    if trace != [] { SameThreads(Step(s, trace[0].0, trace[0].1).value, trace[1..]); }
  }

  /** The threads that are inside a lock. */
  ghost function Inside(s: State): (r: set<Thread>) { set t | t in s.pc && (s.pc[t] == Reading || s.pc[t] == Writing) }

  /** Every way into a lock goes through the write section. */
  lemma MoveEnters(t: Thread, p: PC, s: Shared, call: Call)
    requires Move(t, p, s, call).Some?
    ensures var q := Move(t, p, s, call).value.0; q == Reading || q == Writing ==> HoldsWrite(p)
  {}

  /** A step of another thread while `w` waits for the event. */
  lemma StepPastWaiter(s: State, w: Thread, t: Thread, call: Call)
    requires Inv(s) && w in s.pc && s.pc[w] == WWait && t != w && Step(s, t, call).Some?
    ensures var s' := Step(s, t, call).value;
            && w in s'.pc && s'.pc[w] == WWait && s'.shared.count <= s.shared.count && Inside(s') <= Inside(s)
  {
    hide Move, Counts, Event, Exclusive, Branches, Counted;
    var q, u := Moving(s, t, call);
    assert Owner(s.shared.writeMutex, w, HoldsWrite(s.pc[w])) && Owner(s.shared.writeMutex, t, HoldsWrite(s.pc[t]));
    MoveCount(t, s.pc[t], s.shared, call);
    MoveEnters(t, s.pc[t], s.shared, call);
  }

  lemma {:induction false} RunPastWaiter(s: State, trace: seq<(Thread, Call)>, w: Thread)
    requires Inv(s) && w in s.pc && s.pc[w] == WWait && Run(s, trace).Some?
    requires forall i :: 0 <= i < |trace| ==> trace[i].0 != w
    ensures var s' := Run(s, trace).value;
            && w in s'.pc && s'.pc[w] == WWait && s'.shared.count <= s.shared.count && Inside(s') <= Inside(s)
    decreases |trace|
  {
    if trace != [] {
      hide Inv, Inside;
      StepInv(s, trace[0].0, trace[0].1);
      StepPastWaiter(s, w, trace[0].0, trace[0].1);
      var s1 := Step(s, trace[0].0, trace[0].1).value;
      RunPastWaiter(s1, trace[1..], w);
      Shrinking(s, s1, Run(s, trace).value);
    }
  }

  lemma Shrinking(s: State, s1: State, s2: State)
    requires Inside(s1) <= Inside(s) && Inside(s2) <= Inside(s1)
    ensures Inside(s2) <= Inside(s)
  {}

  /** A waiting writer is not overtaken: from the moment it waits for the event until it moves,
      whatever the other threads do, none of them gets into a lock and the reader count never
      grows; and the writer can move as soon as the count is zero and its last reader has left
      the read section. */
  lemma WaiterNotOvertaken(s: State, before: seq<(Thread, Call)>, after: seq<(Thread, Call)>, w: Thread, call: Call)
    requires Init(s) && Run(s, before).Some? && Run(Run(s, before).value, after).Some?
    requires var s1 := Run(s, before).value; w in s1.pc && s1.pc[w] == WWait
    requires forall i :: 0 <= i < |after| ==> after[i].0 != w
    ensures var s1, s2 := Run(s, before).value, Run(Run(s, before).value, after).value;
            && w in s2.pc && s2.pc[w] == WWait && s2.shared.count <= s1.shared.count && Inside(s2) <= Inside(s1)
            && (s2.shared.count == 0 && s2.shared.readMutex == None ==> Step(s2, w, call).Some?)
  {
    hide Inside, Sections, Counts, Exclusive, Branches;
    InitInv(s);
    RunInv(s, before);
    var s1 := Run(s, before).value;
    RunInv(s1, after);
    RunPastWaiter(s1, after, w);
    EventIsExact(Run(s1, after).value);
  }

  /** Outside the read section the event is up to date. */
  lemma EventIsExact(s: State)
    requires Inv(s)
    ensures s.shared.readMutex == None ==> (s.shared.event <==> s.shared.count == 0)
  {
    forall u | u in s.pc && s.shared.readMutex == None ensures s.pc[u] != RReset && s.pc[u] != RSet {
      assert Owner(s.shared.readMutex, u, HoldsRead(s.pc[u]));
    }
  }

  /** The untyped `unlock` always takes the branch of the lock its caller holds. */
  lemma UnlockTakesRightBranch(s: State, trace: seq<(Thread, Call)>, t: Thread, call: Call)
    requires Init(s) && Run(s, trace).Some?
    ensures var s' := Run(s, trace).value;
      t in s'.pc && s'.pc[t].Unlock? ==>
        Step(s', t, call)
          == Some(s'.(pc := s'.pc[t := if s'.pc[t].held == Read then RUnlock(Read) else WUnlock(Write)]))
  {
    hide Inv, Step;
    InitInv(s);
    RunInv(s, trace);
    var s' := Run(s, trace).value;
    if t in s'.pc && s'.pc[t].Unlock? { UnlockStep(s', t, call); }
  }

  lemma UnlockStep(s: State, t: Thread, call: Call)
    requires Inv(s) && t in s.pc && s.pc[t].Unlock?
    ensures Step(s, t, call)
         == Some(s.(pc := s.pc[t := if s.pc[t].held == Read then RUnlock(Read) else WUnlock(Write)]))
  {
    hide Sections, Counts, Event, Branches;
    EveryKind(s.pc[t]);
    if s.pc[t] == Unlock(Read) { CountPositive(s, t); }
    UnlockMoves(s.pc[t].held, t, s.shared, call);
  }

  lemma UnlockMoves(held: Kind, t: Thread, s: Shared, call: Call)
    requires if held == Read then s.count > 0 else s.count == 0
    ensures Move(t, Unlock(held), s, call) == Some((if held == Read then RUnlock(held) else WUnlock(held), s))
  {}

  /** A thread in a call that cannot move now. */
  predicate Blocked(s: State, t: Thread) {
    t in s.pc && s.pc[t] != Outside && s.pc[t] != Reading && s.pc[t] != Writing && Step(s, t, ReadLock) == None
  }

  /** A thread that can move on, or that holds a lock and may release it. */
  predicate CanProceed(s: State, t: Thread) {
    t in s.pc && s.pc[t] != Outside && (s.pc[t] == Reading || s.pc[t] == Writing || Step(s, t, ReadLock).Some?)
  }

  /** Inside the read section nothing blocks. */
  lemma ReadSectionMoves(s: State)
    requires Inv(s) && s.shared.readMutex.Some?
    ensures CanProceed(s, s.shared.readMutex.value)
  {
    var r := s.shared.readMutex.value;
    assert Owner(s.shared.readMutex, r, HoldsRead(s.pc[r]));
  }

  /** Someone who keeps the event from being set. */
  lemma EventHolder(s: State) returns (t: Thread)
    requires Inv(s) && !s.shared.event && s.shared.readMutex == None
    ensures t in s.pc && Counted(s.pc[t])
  {
    EventIsExact(s);
    assert CountedThreads(s.pc) != {};
    t :| t in CountedThreads(s.pc);
  }

  /** No deadlock: while some thread is blocked, another can move or holds a lock to release. */
  lemma NoDeadlock(s: State, trace: seq<(Thread, Call)>, t: Thread)
    requires Init(s) && Run(s, trace).Some? && Blocked(Run(s, trace).value, t)
    ensures exists u :: CanProceed(Run(s, trace).value, u)
  {
    InitInv(s);
    RunInv(s, trace);
    var s' := Run(s, trace).value;
    var u := Unblocks(s', t);
  }

  lemma Unblocks(s: State, t: Thread) returns (u: Thread)
    requires Inv(s) && Blocked(s, t)
    ensures CanProceed(s, u)
  {
    if s.shared.readMutex.Some? {
      ReadSectionMoves(s);
      u := s.shared.readMutex.value;
    } else {
      BlockedByWriter(s, t);
      u := WriterProceeds(s);
    }
  }

  /** Outside the read section only the write section or the event can block, and who waits for the
      event holds the write section. */
  lemma BlockedByWriter(s: State, t: Thread)
    requires Inv(s) && Blocked(s, t) && s.shared.readMutex == None
    ensures s.shared.writeMutex.Some?
  {
    hide Counts, Event, Exclusive, Branches;
    assert Owner(s.shared.writeMutex, t, HoldsWrite(s.pc[t]));
  }

  lemma WriterProceeds(s: State) returns (u: Thread)
    requires Inv(s) && s.shared.readMutex == None && s.shared.writeMutex.Some?
    ensures CanProceed(s, u)
  {
    hide Counts, Event, Exclusive;
    u := s.shared.writeMutex.value;
    assert Owner(s.shared.writeMutex, u, HoldsWrite(s.pc[u]));
    if s.pc[u] == WWait && !s.shared.event {
      u := EventHolder(s);
      CountedProceeds(s, u);
    }
  }

  lemma CountedProceeds(s: State, u: Thread)
    requires Inv(s) && u in s.pc && Counted(s.pc[u]) && s.shared.readMutex == None
    ensures CanProceed(s, u)
  {
    hide Counts, Event, Exclusive, Branches;
    assert Owner(s.shared.readMutex, u, HoldsRead(s.pc[u]));
  }

  // ----- getting in and out ---------------------------------------------------------------

  /** `n` steps of one thread that makes the same call. */
  function Alone(t: Thread, call: Call, n: nat): (trace: seq<(Thread, Call)>) {
    if n == 0 then [] else [(t, call)] + Alone(t, call, n - 1)
  }

  lemma AloneNext(s: State, t: Thread, call: Call, n: nat)
    requires n > 0
    ensures Run(s, Alone(t, call, n))
         == match Step(s, t, call) case None => None case Some(s1) => Run(s1, Alone(t, call, n - 1))
  {
    hide Step;
    assert Alone(t, call, n)[1..] == Alone(t, call, n - 1);
  }

  lemma AloneNothing(s: State, t: Thread, call: Call)
    ensures Run(s, Alone(t, call, 0)) == Some(s)
  {}

  /** One step that can be taken, and the rest. */
  lemma AloneStep(s: State, t: Thread, call: Call, n: nat, q: PC, u: Shared)
    requires n > 0 && t in s.pc && Move(t, s.pc[t], s.shared, call) == Some((q, u))
    ensures Run(s, Alone(t, call, n)) == Run(State(s.pc[t := q], u), Alone(t, call, n - 1))
  {
    hide Move;
    AloneNext(s, t, call, n);
  }

  /** The other threads as in `s`. */
  function At(s: State, t: Thread, p: PC, u: Shared): (r: State) { State(s.pc[t := p], u) }

  lemma Moved(s: State, t: Thread, p: PC, q: PC, u: Shared, v: Shared, call: Call, n: nat)
    requires n > 0 && t in s.pc && Move(t, p, u, call) == Some((q, v))
    ensures Run(At(s, t, p, u), Alone(t, call, n)) == Run(At(s, t, q, v), Alone(t, call, n - 1))
  {
    hide Move;
    AloneStep(At(s, t, p, u), t, call, n, q, v);
    assert s.pc[t := p][t := q] == s.pc[t := q];
  }

  lemma Stands(s: State, t: Thread)
    requires t in s.pc
    ensures At(s, t, s.pc[t], s.shared) == s
  {}

  /** With both sections free a thread gets through `read_lock` by its own steps, however many
      readers there are already, and the others stay where they are. */
  lemma ReaderEnters(s: State, t: Thread)
    requires t in s.pc && s.pc[t] == Outside && s.shared.writeMutex == None && s.shared.readMutex == None
    ensures var first := s.shared.count == 0;
            Run(s, Alone(t, ReadLock, if first then 7 else 6))
            == Some(State(s.pc[t := Reading],
                          s.shared.(count := s.shared.count + 1, event := s.shared.event && !first)))
  {
    hide Run;
    var first, u := s.shared.count == 0, s.shared;
    var n := if first then 7 else 6;
    var w := u.(writeMutex := Some(t));
    var both := w.(readMutex := Some(t));
    var counted := both.(count := u.count + 1);
    var reset := if first then counted.(event := false) else counted;
    var left := reset.(readMutex := None);
    Stands(s, t);
    Moved(s, t, Outside, RLock, u, u, ReadLock, n);
    Moved(s, t, RLock, RLockInner, u, w, ReadLock, n - 1);
    Moved(s, t, RLockInner, RCount, w, both, ReadLock, n - 2);
    Moved(s, t, RCount, if first then RReset else RLeaveInner, both, counted, ReadLock, n - 3);
    if first { Moved(s, t, RReset, RLeaveInner, counted, reset, ReadLock, 3); }
    Moved(s, t, RLeaveInner, RLeave, reset, left, ReadLock, 2);
    Moved(s, t, RLeave, Reading, left, left.(writeMutex := None), ReadLock, 1);
    AloneNothing(At(s, t, Reading, left.(writeMutex := None)), t, ReadLock);
  }

  /** With the write section free and the event set a thread gets through `write_lock`. */
  lemma WriterEnters(s: State, t: Thread)
    requires t in s.pc && s.pc[t] == Outside && s.shared.writeMutex == None && s.shared.event
    ensures Run(s, Alone(t, WriteLock, 3)) == Some(State(s.pc[t := Writing], s.shared.(writeMutex := Some(t))))
  {
    hide Run;
    var w := s.shared.(writeMutex := Some(t));
    Stands(s, t);
    Moved(s, t, Outside, WLock, s.shared, s.shared, WriteLock, 3);
    Moved(s, t, WLock, WWait, s.shared, w, WriteLock, 2);
    Moved(s, t, WWait, Writing, w, w, WriteLock, 1);
    AloneNothing(At(s, t, Writing, w), t, WriteLock);
  }

  /** With the read section free a reader gets out; the last one sets the event. */
  lemma ReaderLeaves(s: State, t: Thread)
    requires t in s.pc && s.pc[t] == Reading && s.shared.readMutex == None
    ensures var last := s.shared.count == 1;
            Run(s, Alone(t, TypedUnlock, if last then 5 else 4))
            == Some(State(s.pc[t := Outside],
                          s.shared.(count := s.shared.count - 1, event := s.shared.event || last)))
  {
    hide Run;
    var last, u := s.shared.count == 1, s.shared;
    var n := if last then 5 else 4;
    var held := u.(readMutex := Some(t));
    var counted := held.(count := u.count - 1);
    var updated := if last then counted.(event := true) else counted;
    Stands(s, t);
    Moved(s, t, Reading, RUnlock(Read), u, u, TypedUnlock, n);
    Moved(s, t, RUnlock(Read), RUncount, u, held, TypedUnlock, n - 1);
    Moved(s, t, RUncount, if last then RSet else RUnlockLeave, held, counted, TypedUnlock, n - 2);
    if last { Moved(s, t, RSet, RUnlockLeave, counted, updated, TypedUnlock, 2); }
    Moved(s, t, RUnlockLeave, Outside, updated, updated.(readMutex := None), TypedUnlock, 1);
    AloneNothing(At(s, t, Outside, updated.(readMutex := None)), t, TypedUnlock);
  }

  /** A writer always gets out. */
  lemma WriterLeaves(s: State, t: Thread)
    requires t in s.pc && s.pc[t] == Writing
    ensures Run(s, Alone(t, TypedUnlock, 2)) == Some(State(s.pc[t := Outside], s.shared.(writeMutex := None)))
  {
    hide Run;
    Stands(s, t);
    Moved(s, t, Writing, WUnlock(Write), s.shared, s.shared, TypedUnlock, 2);
    Moved(s, t, WUnlock(Write), Outside, s.shared, s.shared.(writeMutex := None), TypedUnlock, 1);
    AloneNothing(At(s, t, Outside, s.shared.(writeMutex := None)), t, TypedUnlock);
  }

  // ----- readers share --------------------------------------------------------------------

  lemma {:induction false} RunConcat(s: State, first: seq<(Thread, Call)>, rest: seq<(Thread, Call)>)
    ensures Run(s, first + rest) == match Run(s, first) case None => None case Some(s1) => Run(s1, rest)
    decreases |first|
  {
    hide Step;
    if first == [] {
      assert first + rest == rest;
    } else {
      assert (first + rest)[0] == first[0] && (first + rest)[1..] == first[1..] + rest;
      match Step(s, first[0].0, first[0].1) {
        case None =>
        case Some(s1) => RunConcat(s1, first[1..], rest);
      }
    }
  }

  /** The first `n` threads lock for reading, one after the other. */
  function AllRead(ts: seq<Thread>, n: nat): (trace: seq<(Thread, Call)>)
    requires n <= |ts|
  {
    if n == 0 then [] else AllRead(ts, n - 1) + Alone(ts[n - 1], ReadLock, if n == 1 then 7 else 6)
  }

  /** Any number of threads can be inside for reading at once: from the start each gets in while
      all the earlier ones stay there. */
  lemma {:induction false} ReadersShare(s: State, ts: seq<Thread>, n: nat)
    requires Init(s) && n <= |ts| && forall i :: 0 <= i < |ts| ==> ts[i] in s.pc
    requires forall i, j :: 0 <= i < j < |ts| ==> ts[i] != ts[j]
    ensures var r := Run(s, AllRead(ts, n));
            && r.Some? && r.value.pc.Keys == s.pc.Keys && r.value.shared == Shared(None, None, n == 0, n)
            && (forall i :: 0 <= i < n ==> r.value.pc[ts[i]] == Reading)
            && (forall i :: n <= i < |ts| ==> r.value.pc[ts[i]] == Outside)
  {
    if n > 0 {
      hide Step;
      ReadersShare(s, ts, n - 1);
      var s1 := Run(s, AllRead(ts, n - 1)).value;
      var mine := Alone(ts[n - 1], ReadLock, if n == 1 then 7 else 6);
      RunConcat(s, AllRead(ts, n - 1), mine);
      ReaderEnters(s1, ts[n - 1]);
    }
  }
}
