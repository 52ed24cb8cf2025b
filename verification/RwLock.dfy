/** native_rw_* over a Windows slim reader/writer lock: the lock does not say in which mode it is held,
    so the wrapper remembers it in a plain flag, written and read outside the lock's own operations. */
module RwLock {
  /** The slim lock itself knows only how it is held, not by whom. Broken: released in the wrong mode. */
  datatype Slim = Free | Shared(holders: nat) | Exclusive | Broken

  function Acquire(l: Slim, exclusive: bool): Slim
    requires CanAcquire(l, exclusive)
  {
    if exclusive then Exclusive else if l.Shared? then Shared(l.holders + 1) else Shared(1)
  }

  predicate CanAcquire(l: Slim, exclusive: bool) {
    l.Free? || (l.Shared? && !exclusive)
  }

  function ReleaseShared(l: Slim): Slim {
    if l.Shared? && l.holders > 1 then Shared(l.holders - 1)
    else if l == Shared(1) then Free
    else Broken
  }

  function ReleaseExclusive(l: Slim): Slim {
    if l.Exclusive? then Free else Broken
  }

  /** Where a thread is. Writers: Acquired (flag not yet set), WriteHeld, and in unlock SawTrue (flag read)
      and Cleared (flag reset, lock not yet released). Readers: ReadHeld, and in unlock SawFalse. */
  datatype Place = Outside | Acquired | WriteHeld | ReadHeld | SawTrue | SawFalse | Cleared

  type Thread = nat

  datatype State = State(srwlock: Slim, haveExclusive: bool, place: map<Thread, Place>)

  const INITIAL := State(Free, false, map[])

  function At(s: State, t: Thread): Place {
    if t in s.place then s.place[t] else Outside
  }

  function Move(s: State, t: Thread, p: Place): State {
    s.(place := s.place[t := p])
  }

  /** The micro-steps. TryBusy is a try call that found the lock taken. */
  datatype Step = AcquireShared | AcquireExclusive | TryBusy(exclusive: bool) | SetFlag | ReadFlag
                | ClearFlag | DoReleaseExclusive | DoReleaseShared

  predicate Enabled(s: State, t: Thread, step: Step) {
    match step
    case AcquireShared => At(s, t) == Outside && CanAcquire(s.srwlock, false)
    case AcquireExclusive => At(s, t) == Outside && CanAcquire(s.srwlock, true)
    case TryBusy(exclusive) => At(s, t) == Outside && !CanAcquire(s.srwlock, exclusive)
    case SetFlag => At(s, t) == Acquired
    case ReadFlag => At(s, t) == WriteHeld || At(s, t) == ReadHeld
    case ClearFlag => At(s, t) == SawTrue
    case DoReleaseExclusive => At(s, t) == Cleared
    case DoReleaseShared => At(s, t) == SawFalse
  }

  function Do(s: State, t: Thread, step: Step): State
    requires Enabled(s, t, step)
  {
    match step
    case AcquireShared => Move(s, t, ReadHeld).(srwlock := Acquire(s.srwlock, false))
    case AcquireExclusive => Move(s, t, Acquired).(srwlock := Acquire(s.srwlock, true))
    case TryBusy(_) => s
    case SetFlag => Move(s, t, WriteHeld).(haveExclusive := true)
    case ReadFlag => Move(s, t, if s.haveExclusive then SawTrue else SawFalse)
    case ClearFlag => Move(s, t, Cleared).(haveExclusive := false)
    case DoReleaseExclusive => Move(s, t, Outside).(srwlock := ReleaseExclusive(s.srwlock))
    case DoReleaseShared => Move(s, t, Outside).(srwlock := ReleaseShared(s.srwlock))
  }

  // ----- the inductive invariant -----

  predicate Writing(p: Place) {
    p == Acquired || p == WriteHeld || p == SawTrue || p == Cleared
  }

  predicate Reading(p: Place) {
    p == ReadHeld || p == SawFalse
  }

  function Writers(s: State): set<Thread> {
    set t | t in s.place && Writing(s.place[t])
  }

  function Readers(s: State): set<Thread> {
    set t | t in s.place && Reading(s.place[t])
  }

  /** Thread w alone is inside, as a writer, and the flag says whether it is between setting and clearing it. */
  predicate SoleWriter(s: State, w: Thread) {
    Writers(s) == {w} && Readers(s) == {} && (s.haveExclusive <==> At(s, w) == WriteHeld || At(s, w) == SawTrue)
  }

  predicate OnlyReaders(s: State, n: nat) {
    Writers(s) == {} && |Readers(s)| == n && !s.haveExclusive
  }

  ghost predicate Inv(s: State) {
    match s.srwlock
    case Free => OnlyReaders(s, 0)
    case Shared(n) => n > 0 && OnlyReaders(s, n)
    case Exclusive => exists w :: SoleWriter(s, w)
    case Broken => false
  }

  lemma MoveSets(s: State, t: Thread, p: Place)
    ensures Writers(Move(s, t, p)) == if Writing(p) then Writers(s) + {t} else Writers(s) - {t}
    ensures Readers(Move(s, t, p)) == if Reading(p) then Readers(s) + {t} else Readers(s) - {t}
  {
  }

  lemma Membership(s: State, t: Thread)
    ensures t in Writers(s) <==> Writing(At(s, t))
    ensures t in Readers(s) <==> Reading(At(s, t))
  {
  }

  lemma EnterKeepsInv(s: State, t: Thread, exclusive: bool)
    requires Inv(s) && At(s, t) == Outside && CanAcquire(s.srwlock, exclusive)
    ensures Inv(Do(s, t, if exclusive then AcquireExclusive else AcquireShared))
  {
    var s' := Do(s, t, if exclusive then AcquireExclusive else AcquireShared);
    Membership(s, t);
    MoveSets(s, t, At(s', t));
    if exclusive {
      assert SoleWriter(s', t);
    }
  }

  lemma ReaderKeepsInv(s: State, t: Thread, step: Step)
    requires Inv(s) && Reading(At(s, t)) && Enabled(s, t, step)
    ensures At(Do(s, t, step), t) == (if step == ReadFlag then SawFalse else Outside)
    ensures Inv(Do(s, t, step))
  {
    var s' := Do(s, t, step);
    Membership(s, t);
    MoveSets(s, t, At(s', t));
    assert Readers(s') == if step == ReadFlag then Readers(s) else Readers(s) - {t};
  }

  lemma WriterKeepsInv(s: State, t: Thread, step: Step)
    requires Inv(s) && Writing(At(s, t)) && Enabled(s, t, step)
    ensures step == ReadFlag ==> At(Do(s, t, step), t) == SawTrue
    ensures Inv(Do(s, t, step))
  {
    var s' := Do(s, t, step);
    Membership(s, t);
    MoveSets(s, t, At(s', t));
    var w :| SoleWriter(s, w);
    assert w == t;
    if step != DoReleaseExclusive {
      assert SoleWriter(s', t);
    }
  }

  lemma StepKeepsInv(s: State, t: Thread, step: Step)
    requires Inv(s) && Enabled(s, t, step)
    ensures Inv(Do(s, t, step))
  {
    match step
    case AcquireShared => EnterKeepsInv(s, t, false);
    case AcquireExclusive => EnterKeepsInv(s, t, true);
    case TryBusy(_) =>
    case _ =>
      if Reading(At(s, t)) {
        ReaderKeepsInv(s, t, step);
      } else {
        WriterKeepsInv(s, t, step);
      }
  }

  // ----- runs -----

  datatype Tick = Tick(thread: Thread, step: Step)

  predicate EnabledRun(s: State, run: seq<Tick>)
    decreases |run|
  {
    run == [] || (Enabled(s, run[0].thread, run[0].step) && EnabledRun(Do(s, run[0].thread, run[0].step), run[1..]))
  }

  function Run(s: State, run: seq<Tick>): State
    requires EnabledRun(s, run)
    decreases |run|
  {
    if run == [] then s else Run(Do(s, run[0].thread, run[0].step), run[1..])
  }

  lemma {:induction false} RunKeepsInv(s: State, run: seq<Tick>)
    requires Inv(s) && EnabledRun(s, run)
    ensures Inv(Run(s, run))
    decreases |run|
  {
    if run != [] {
      StepKeepsInv(s, run[0].thread, run[0].step);
      RunKeepsInv(Do(s, run[0].thread, run[0].step), run[1..]);
    }
  }

  /** What a thread in each place may rely on. */
  ghost predicate Safe(s: State) {
    && !s.srwlock.Broken?
    // the flag is up only while a writer holds the lock
    && (s.haveExclusive ==> s.srwlock.Exclusive?)
    // unlock reads the value of its own mode, and releases in that mode
    && (forall t :: At(s, t) == WriteHeld ==> s.haveExclusive)
    && (forall t :: At(s, t) == ReadHeld ==> !s.haveExclusive)
    && (forall t :: At(s, t) == Cleared ==> s.srwlock.Exclusive?)
    && (forall t :: At(s, t) == SawFalse ==> s.srwlock.Shared?)
    // a writer excludes every other holder
    && (forall t, u :: Writing(At(s, t)) && t != u ==> At(s, u) == Outside)
  }

  lemma InvIsSafe(s: State)
    requires Inv(s)
    ensures Safe(s)
  {
    forall t ensures t in Writers(s) <==> Writing(At(s, t)) {
      Membership(s, t);
    }
    forall t ensures t in Readers(s) <==> Reading(At(s, t)) {
      Membership(s, t);
    }
    if s.srwlock.Exclusive? {
      var w :| SoleWriter(s, w);
    }
  }

  /** Any number of threads, any interleaving of the micro-steps. */
  lemma EveryRunIsSafe(run: seq<Tick>)
    requires EnabledRun(INITIAL, run)
    ensures Safe(Run(INITIAL, run))
  {
    assert Writers(INITIAL) == {} && Readers(INITIAL) == {};
    RunKeepsInv(INITIAL, run);
    InvIsSafe(Run(INITIAL, run));
  }

  // ----- refinement of a lock that knows its holders -----

  datatype Spec = Spec(readers: set<Thread>, writers: set<Thread>)

  datatype Op = EnterRead | EnterWrite | LeaveRead | LeaveWrite | Stay

  function Abs(s: State): Spec {
    Spec(Readers(s), Writers(s))
  }

  /** A thread leaves in the mode it entered; a writer enters only when nobody is inside. */
  predicate SpecStep(a: Spec, t: Thread, op: Op, b: Spec) {
    match op
    case EnterRead => t !in a.readers && a.writers == {} && b == Spec(a.readers + {t}, a.writers)
    case EnterWrite => a.readers == {} && a.writers == {} && b == Spec({}, {t})
    case LeaveRead => t in a.readers && b == Spec(a.readers - {t}, a.writers)
    case LeaveWrite => a == Spec({}, {t}) && b == Spec({}, {})
    case Stay => b == a
  }

  function OpOf(step: Step): Op {
    match step
    case AcquireShared => EnterRead
    case AcquireExclusive => EnterWrite
    case DoReleaseShared => LeaveRead
    case DoReleaseExclusive => LeaveWrite
    case _ => Stay
  }

  lemma WriterIsAlone(s: State, t: Thread)
    requires Inv(s) && Writing(At(s, t))
    ensures Writers(s) == {t} && Readers(s) == {}
    ensures s.haveExclusive <==> At(s, t) == WriteHeld || At(s, t) == SawTrue
  {
    Membership(s, t);
    var w :| SoleWriter(s, w);
    assert w == t;
  }

  lemma EnterRefines(s: State, t: Thread, exclusive: bool)
    requires Inv(s) && At(s, t) == Outside && CanAcquire(s.srwlock, exclusive)
    ensures var step := if exclusive then AcquireExclusive else AcquireShared;
      SpecStep(Abs(s), t, OpOf(step), Abs(Do(s, t, step)))
  {
    Membership(s, t);
    MoveSets(s, t, if exclusive then Acquired else ReadHeld);
  }

  lemma ReaderRefines(s: State, t: Thread, step: Step)
    requires Inv(s) && Reading(At(s, t)) && Enabled(s, t, step)
    ensures SpecStep(Abs(s), t, OpOf(step), Abs(Do(s, t, step)))
  {
    Membership(s, t);
    ReaderKeepsInv(s, t, step);
    MoveSets(s, t, if step == ReadFlag then SawFalse else Outside);
  }

  lemma WriterRefines(s: State, t: Thread, step: Step)
    requires Inv(s) && Writing(At(s, t)) && Enabled(s, t, step)
    ensures SpecStep(Abs(s), t, OpOf(step), Abs(Do(s, t, step)))
  {
    WriterIsAlone(s, t);
    MoveSets(s, t, At(Do(s, t, step), t));
  }

  /** Flag and all, every micro-step is a step of the simple lock: the release that unlock picks from the
      flag is the one for the mode its thread holds. */
  lemma StepRefines(s: State, t: Thread, step: Step)
    requires Inv(s) && Enabled(s, t, step)
    ensures SpecStep(Abs(s), t, OpOf(step), Abs(Do(s, t, step)))
  {
    match step
    case AcquireShared => EnterRefines(s, t, false);
    case AcquireExclusive => EnterRefines(s, t, true);
    case TryBusy(_) =>
    case _ =>
      if Reading(At(s, t)) {
        ReaderRefines(s, t, step);
      } else {
        WriterRefines(s, t, step);
      }
  }

  /** A try call is refused exactly when a writer is inside, or anyone for an exclusive try. */
  lemma TryBusyIff(s: State, t: Thread, exclusive: bool)
    requires Inv(s) && At(s, t) == Outside
    ensures Enabled(s, t, TryBusy(exclusive)) <==> Writers(s) != {} || (exclusive && Readers(s) != {})
  {
  }

  // ----- the calls themselves, run without interruption -----

  /** The lock after one whole unlock call of t. */
  function AfterUnlock(s: State, t: Thread): State {
    var srwlock := if s.haveExclusive then ReleaseExclusive(s.srwlock) else ReleaseShared(s.srwlock);
    State(srwlock, false, s.place[t := Outside])
  }

  lemma UnlockIsItsSteps(s: State, t: Thread)
    requires Inv(s) && (At(s, t) == ReadHeld || At(s, t) == WriteHeld)
    ensures var s1 := Do(s, t, ReadFlag);
      if s.haveExclusive then
        Enabled(s1, t, ClearFlag) && var s2 := Do(s1, t, ClearFlag);
        Enabled(s2, t, DoReleaseExclusive) && Do(s2, t, DoReleaseExclusive) == AfterUnlock(s, t)
      else Enabled(s1, t, DoReleaseShared) && Do(s1, t, DoReleaseShared) == AfterUnlock(s, t)
  {
    var s1 := Do(s, t, ReadFlag);
    assert s1.place[t := Cleared][t := Outside] == s.place[t := Outside];
    assert s1.place[t := Outside] == s.place[t := Outside];
    Membership(s, t);
    if At(s, t) == WriteHeld {
      WriterIsAlone(s, t);
    }
  }

  /** Unlock removes exactly its caller, whichever mode it held. */
  lemma UnlockEffect(s: State, t: Thread)
    requires Inv(s) && (At(s, t) == ReadHeld || At(s, t) == WriteHeld)
    ensures Inv(AfterUnlock(s, t))
    ensures Readers(AfterUnlock(s, t)) == Readers(s) - {t} && Writers(AfterUnlock(s, t)) == Writers(s) - {t}
  {
    MoveSets(s, t, Outside);
    Membership(s, t);
    if At(s, t) == WriteHeld {
      WriterIsAlone(s, t);
    }
    assert |Readers(s) - {t}| == |Readers(s)| - if t in Readers(s) then 1 else 0;
  }

  class NativeRwLock {
    var srwlock: Slim
    var haveExclusiveSrwlock: bool

    constructor ()
      ensures srwlock == Free && !haveExclusiveSrwlock
    {
      srwlock := Free;
      haveExclusiveSrwlock := false;
    }

    ghost function View(place: map<Thread, Place>): State reads this {
      State(srwlock, haveExclusiveSrwlock, place)
    }

    method RdLock(ghost t: Thread, ghost place: map<Thread, Place>)
      requires Inv(View(place)) && Enabled(View(place), t, AcquireShared)
      modifies this
      ensures View(place[t := ReadHeld]) == Do(old(View(place)), t, AcquireShared)
    {
      srwlock := Acquire(srwlock, false);
    }

    method WrLock(ghost t: Thread, ghost place: map<Thread, Place>)
      requires Inv(View(place)) && Enabled(View(place), t, AcquireExclusive)
      modifies this
      ensures View(place[t := WriteHeld]) == Do(Do(old(View(place)), t, AcquireExclusive), t, SetFlag)
    {
      srwlock := Acquire(srwlock, true);
      haveExclusiveSrwlock := true;
      assert place[t := Acquired][t := WriteHeld] == place[t := WriteHeld];
    }

    /** False stands for EBUSY. */
    method TryWrLock(ghost t: Thread, ghost place: map<Thread, Place>) returns (ok: bool)
      requires Inv(View(place)) && At(View(place), t) == Outside
      modifies this
      ensures ok <==> Readers(old(View(place))) == {} && Writers(old(View(place))) == {}
      ensures if ok then View(place[t := WriteHeld]) == Do(Do(old(View(place)), t, AcquireExclusive), t, SetFlag)
              else View(place) == old(View(place))
    {
      ok := CanAcquire(srwlock, true);
      if ok {
        WrLock(t, place);
      }
    }

    method TryRdLock(ghost t: Thread, ghost place: map<Thread, Place>) returns (ok: bool)
      requires Inv(View(place)) && At(View(place), t) == Outside
      modifies this
      ensures ok <==> Writers(old(View(place))) == {}
      ensures if ok then View(place[t := ReadHeld]) == Do(old(View(place)), t, AcquireShared)
              else View(place) == old(View(place))
    {
      ok := CanAcquire(srwlock, false);
      if ok {
        RdLock(t, place);
      }
    }

    /** Unlock takes no mode; the holders after it are the holders before it less the caller. */
    method Unlock(ghost t: Thread, ghost place: map<Thread, Place>)
      requires Inv(View(place)) && (At(View(place), t) == ReadHeld || At(View(place), t) == WriteHeld)
      modifies this
      ensures View(place[t := Outside]) == AfterUnlock(old(View(place)), t)
      ensures Inv(View(place[t := Outside]))
      ensures Readers(View(place[t := Outside])) == Readers(old(View(place))) - {t}
      ensures Writers(View(place[t := Outside])) == Writers(old(View(place))) - {t}
    {
      UnlockEffect(View(place), t);
      UnlockIsItsSteps(View(place), t);
      if haveExclusiveSrwlock {
        haveExclusiveSrwlock := false;
        srwlock := ReleaseExclusive(srwlock);
      } else {
        srwlock := ReleaseShared(srwlock);
      }
    }
  }
}
