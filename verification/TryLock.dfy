/** native_mutex_* over a Windows critical section, which its owner may enter again: trylock enters,
    looks at the recursion count, and leaves again when it was the owner all along. */
module TryLock {
  import opened Optional

  type Thread = nat

  datatype Section = Section(owner: Option<Thread>, recursion: nat)

  predicate CanEnter(c: Section, t: Thread) {
    c.owner == None || c.owner == Some(t)
  }

  function Enter(c: Section, t: Thread): Section {
    Section(Some(t), c.recursion + 1)
  }

  function Leave(c: Section): Section {
    if c.recursion > 1 then Section(c.owner, c.recursion - 1) else Section(None, 0)
  }

  /** Inside a trylock call: Entered remembers the section as it was when the call began;
      MustLeave has found a count above one. */
  datatype Phase = Idle | Entered(before: Section) | MustLeave(before: Section)

  /** held: how often the thread has acquired the mutex and not yet released it. */
  datatype Local = Local(held: nat, phase: Phase)

  datatype State = State(section: Section, threads: map<Thread, Local>)

  const INITIAL := State(Section(None, 0), map[])

  function Of(s: State, t: Thread): Local {
    if t in s.threads then s.threads[t] else Local(0, Idle)
  }

  datatype Step = Lock | TryEnter | TryFail | ReadCount | LeaveAgain | Unlock

  predicate Enabled(s: State, t: Thread, step: Step) {
    var l := Of(s, t);
    match step
    case Lock => l.phase == Idle && CanEnter(s.section, t)
    case TryEnter => l.phase == Idle && CanEnter(s.section, t)
    case TryFail => l.phase == Idle && !CanEnter(s.section, t)
    case ReadCount => l.phase.Entered?
    case LeaveAgain => l.phase.MustLeave?
    case Unlock => l.phase == Idle && l.held > 0
  }

  function Do(s: State, t: Thread, step: Step): State
    requires Enabled(s, t, step)
  {
    var l := Of(s, t);
    match step
    case Lock => State(Enter(s.section, t), s.threads[t := l.(held := l.held + 1)])
    case TryEnter => State(Enter(s.section, t), s.threads[t := l.(phase := Entered(s.section))])
    case TryFail => s
    case ReadCount =>
      s.(threads := s.threads[t :=
        if s.section.recursion > 1 then l.(phase := MustLeave(l.phase.before)) else Local(l.held + 1, Idle)])
    case LeaveAgain => State(Leave(s.section), s.threads[t := l.(phase := Idle)])
    case Unlock => State(Leave(s.section), s.threads[t := l.(held := l.held - 1)])
  }

  /** The answer of a trylock call that ends with this step. */
  datatype Answer = Running | Zero | Busy

  function AnswerOf(s: State, t: Thread, step: Step): Answer
    requires Enabled(s, t, step)
  {
    match step
    case TryFail => Busy
    case LeaveAgain => Busy
    case ReadCount => if s.section.recursion > 1 then Running else Zero
    case _ => Running
  }

  // ----- the inductive invariant -----

  /** The count is what the owner holds, plus the entry of its unfinished trylock. */
  predicate OwnerFits(s: State, t: Thread) {
    var l := Of(s, t);
    && s.section.recursion == l.held + (if l.phase == Idle then 0 else 1)
    && s.section.recursion > 0
    && (l.phase.Entered? ==> l.phase.before == if l.held == 0 then Section(None, 0) else Section(Some(t), l.held))
    && (l.phase.MustLeave? ==> l.held > 0 && l.phase.before == Section(Some(t), l.held))
  }

  ghost predicate Inv(s: State) {
    && (s.section.owner == None ==> s.section.recursion == 0)
    && (forall t: Thread {:trigger Of(s, t)} ::
          if s.section.owner == Some(t) then OwnerFits(s, t) else Of(s, t) == Local(0, Idle))
  }

  lemma StepKeepsInv(s: State, t: Thread, step: Step)
    requires Inv(s) && Enabled(s, t, step)
    ensures Inv(Do(s, t, step))
  {
    var s' := Do(s, t, step);
    assert s.section.owner == Some(t) ==> OwnerFits(s, t);
    forall u ensures if s'.section.owner == Some(u) then OwnerFits(s', u) else Of(s', u) == Local(0, Idle) {
      assert u != t ==> Of(s', u) == Of(s, u);
    }
  }

  /** trylock answers 0 exactly when the section was free as the call began, and 0 makes the caller its
      only holder with count one. */
  lemma ZeroIffFree(s: State, t: Thread)
    requires Inv(s) && Of(s, t).phase.Entered?
    ensures AnswerOf(s, t, ReadCount) == Zero <==> Of(s, t).phase.before.owner == None
    ensures AnswerOf(s, t, ReadCount) == Zero ==>
      s.section == Section(Some(t), 1) && Of(Do(s, t, ReadCount), t) == Local(1, Idle)
  {
    assert s.section.owner == Some(t) && OwnerFits(s, t);
  }

  /** Every EBUSY leaves owner and count as they were when the call began, also for the owner itself,
      and the caller holds what it held. */
  lemma BusyChangesNothing(s: State, t: Thread, step: Step)
    requires Inv(s) && Enabled(s, t, step) && AnswerOf(s, t, step) == Busy
    ensures Do(s, t, step).section == (if step == TryFail then s.section else Of(s, t).phase.before)
    ensures Do(s, t, step).section.owner != None
    ensures Of(Do(s, t, step), t) == Local(Of(s, t).held, Idle)
  {
    if step == LeaveAgain {
      assert s.section.owner == Some(t) && OwnerFits(s, t);
    }
  }

  // ----- runs -----

  datatype Tick = Tick(thread: Thread, step: Step)

  predicate EnabledRun(s: State, run: seq<Tick>)
    decreases |run|
  {
    run == [] || (Enabled(s, run[0].thread, run[0].step) && EnabledRun(Do(s, run[0].thread, run[0].step), run[1..]))
  }

  function Run(s: State, run: seq<Tick>): State
    requires EnabledRun(s, run)
    decreases |run|
  {
    if run == [] then s else Run(Do(s, run[0].thread, run[0].step), run[1..])
  }

  predicate OnlyTries(run: seq<Tick>) {
    forall i :: 0 <= i < |run| ==> run[i].step != Lock
  }

  /** No thread has the mutex twice. */
  ghost predicate HeldOnce(s: State) {
    forall t :: Of(s, t).held <= 1
  }

  lemma TryKeepsHeldOnce(s: State, t: Thread, step: Step)
    requires Inv(s) && HeldOnce(s) && Enabled(s, t, step) && step != Lock
    ensures HeldOnce(Do(s, t, step))
  {
    if step == ReadCount && s.section.recursion <= 1 {
      assert s.section.owner == Some(t) && OwnerFits(s, t);
    }
    forall u ensures Of(Do(s, t, step), u).held <= 1 {
      assert Of(s, u).held <= 1 && Of(s, t).held <= 1;
    }
  }

  lemma {:induction false} RunKeepsInv(s: State, run: seq<Tick>)
    requires Inv(s) && EnabledRun(s, run)
    ensures Inv(Run(s, run))
    ensures HeldOnce(s) && OnlyTries(run) ==> HeldOnce(Run(s, run))
    decreases |run|
  {
    if run != [] {
      var s' := Do(s, run[0].thread, run[0].step);
      StepKeepsInv(s, run[0].thread, run[0].step);
      RunKeepsInv(s', run[1..]);
      if HeldOnce(s) && OnlyTries(run) {
        TryKeepsHeldOnce(s, run[0].thread, run[0].step);
        assert OnlyTries(run[1..]);
      }
    }
  }

  /** Mutual exclusion in every run; and when the mutex is acquired by trylock alone, the recursion count
      is at most one between calls and at most two inside one. */
  lemma EveryRunExcludes(run: seq<Tick>, t: Thread, u: Thread)
    requires EnabledRun(INITIAL, run)
    ensures var s := Run(INITIAL, run);
      && (Of(s, t).held > 0 && Of(s, u).held > 0 ==> t == u)
      && (Of(s, t).held > 0 ==> s.section.owner == Some(t) && Of(s, t).held <= s.section.recursion)
      && (OnlyTries(run) ==> s.section.recursion <= 2)
      && (OnlyTries(run) && Of(s, t).held > 0 && Of(s, t).phase == Idle ==> s.section.recursion == 1)
  {
    assert Inv(INITIAL) && HeldOnce(INITIAL);
    RunKeepsInv(INITIAL, run);
    var s := Run(INITIAL, run);
    assert Of(s, t).held > 0 ==> s.section.owner == Some(t);
    assert Of(s, u).held > 0 ==> s.section.owner == Some(u);
    if s.section.owner.Some? {
      var o := s.section.owner.value;
      assert OwnerFits(s, o);
      assert HeldOnce(s) ==> Of(s, o).held <= 1;
    }
  }
}
