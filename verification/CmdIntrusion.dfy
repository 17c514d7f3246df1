/** A signal that ends a contended wait for the sctx mutex: the party goes on without it, and nobody is safe
    any more.  Safety before the drain, for commands that fit, holds in every run exactly if neither the
    thread nor an owner ever goes on like that. */
module CmdIntrusion {
  import opened CmdProtocol
  import opened CmdOrder
  import opened CmdOutcome
  import opened CmdLifetime
  import opened CmdOrphans
  import opened CmdRuns

  /** A run before the drain, of commands that fit, in which only these go on without the mutex. */
  predicate Usual(s: St, thread: bool, owners: bool) {
    && !Leaves(s.pc) && (forall j :: j in s.jobs ==> !TooLong(j.cmd))
    && (s.threadIntruded ==> thread) && (s.ownerIntruded ==> owners)
  }

  ghost predicate ThreadSafe(s: St) {
    forall f :: f in s.faults ==> !f.OfThread?
  }

  ghost predicate OwnersSafe(s: St) {
    forall f :: f in s.faults ==> !f.OfOwner?
  }

  // ---------- the way to the mutex ----------

  const FITTING := Cmd(16, false, false, true, Checked, false)

  const TURN := ThreadAct(QUIET)
  const INTRUDE := ThreadAct(Env(true, false, true, H2C_SUCCESS))
  const MOVE := OwnerAct(0, false)
  const CUT := OwnerAct(0, true)

  /** One command that is waited for, at a stage of its treatment. */
  function Midway(j: Job, stage: Stage, mutex: Holder): St {
    Up(false).(jobs := [j], accepted := [0], pc := Working(stage, 0), mutex := mutex, cmdSeq := 1)
  }

  /** Its handler has run and returned success. */
  const HANDLED := NewJob(FITTING).(results := [H2C_SUCCESS])

  const APPROACH :=
    [Enqueue(FITTING)] + ([TURN] + [TURN] + [TURN] + [TURN] + [TURN] + [TURN]) + ([TURN] + [TURN])

  lemma {:induction false} TwoSteps(s: St, a: Action, t: St, b: Action, u: St)
    requires Step(s, a) == t && Step(t, b) == u
    ensures Run(s, [a] + [b]) == u
  {
    hide Step, Run;
    OneAct(s, a);
    OneAct(t, b);
    RunTwo(s, [a], [b]);
  }

  lemma {:induction false} Fetches()
    ensures
      Run(Step(Up(false), Enqueue(FITTING)), [TURN] + [TURN] + [TURN] + [TURN] + [TURN] + [TURN])
      == Up(false).(jobs := [NewJob(FITTING)], accepted := [0], pc := Working(Vetting, 0))
  {
    var s := Step(Up(false), Enqueue(FITTING));
    assert s == Up(false).(jobs := [NewJob(FITTING)], accepted := [0], queue := [0], sema := 1);
    var s1 := s.(sema := 0);
    TwoSteps(s, TURN, s1.(pc := ChkRun), TURN, s1.(pc := ChkStop));
    TwoSteps(s1.(pc := ChkStop), TURN, s1.(pc := ChkEmpty), TURN, s1.(pc := Next));
    TwoSteps(s1.(pc := Next), TURN, s1.(pc := Taking), TURN, Up(false).(jobs := [NewJob(FITTING)], accepted := [0], pc := Working(Vetting, 0)));
    hide Step, Run;
    RunTwo(s, [TURN] + [TURN], [TURN] + [TURN]);
    RunTwo(s, [TURN] + [TURN] + ([TURN] + [TURN]), [TURN] + [TURN]);
    assert [TURN] + [TURN] + ([TURN] + [TURN]) + ([TURN] + [TURN]) == [TURN] + [TURN] + [TURN] + [TURN] + [TURN] + [TURN];
  }

  lemma {:induction false} Approaches()
    ensures Run(Init(false), UP + APPROACH) == Midway(HANDLED, Entering, Nobody)
  {
    var six := [TURN] + [TURN] + [TURN] + [TURN] + [TURN] + [TURN];
    var v := Up(false).(jobs := [NewJob(FITTING)], accepted := [0], pc := Working(Vetting, 0));
    assert [] + [H2C_SUCCESS] == [H2C_SUCCESS];
    TwoSteps(v, TURN, v.(pc := Working(Handling, 0)), TURN, Midway(HANDLED, Entering, Nobody));
    ComesUp(false);
    Fetches();
    hide Run, Step;
    OneAct(Up(false), Enqueue(FITTING));
    RunTwo(Up(false), [Enqueue(FITTING)], six);
    RunTwo(Up(false), [Enqueue(FITTING)] + six, [TURN] + [TURN]);
    RunTwo(Init(false), UP, APPROACH);
  }

  // ---------- both inside ----------

  /** The thread and the owner, whose wait has timed out, are inside together; one of them without the mutex. */
  function Both(thread: bool): St {
    Midway(HANDLED.(owner := Checking, late := true), Looking, if thread then ByOwner(0) else Thread)
      .(threadIntruded := thread, ownerIntruded := !thread)
  }

  function Meeting(thread: bool): seq<Action> {
    [if thread then CUT else TURN] + [if thread then MOVE else CUT] + [if thread then INTRUDE else CUT]
  }

  lemma {:induction false} ThreeSteps(s: St, a: Action, t: St, b: Action, u: St, d: Action, v: St)
    requires Step(s, a) == t && Step(t, b) == u && Step(u, d) == v
    ensures Run(s, [a] + [b] + [d]) == v
  {
    hide Step, Run;
    TwoSteps(s, a, t, b, u);
    OneAct(u, d);
    RunTwo(s, [a] + [b], [d]);
  }

  lemma {:induction false} Meet(thread: bool)
    ensures Run(Midway(HANDLED, Entering, Nobody), Meeting(thread)) == Both(thread)
  {
    var s := Midway(HANDLED, Entering, Nobody);
    var late := HANDLED.(owner := Locking, late := true);
    var both := HANDLED.(owner := Checking, late := true);
    if thread {
      var u := Midway(both, Entering, ByOwner(0));
      assert Step(s, CUT) == Midway(late, Entering, Nobody);
      assert Step(Midway(late, Entering, Nobody), MOVE) == u;
      assert Step(u, INTRUDE) == Both(true);
      ThreeSteps(s, CUT, Midway(late, Entering, Nobody), MOVE, u, INTRUDE, Both(true));
    } else {
      assert Step(s, TURN) == Midway(HANDLED, Looking, Thread);
      assert Step(Midway(HANDLED, Looking, Thread), CUT) == Midway(late, Looking, Thread);
      assert Step(Midway(late, Looking, Thread), CUT) == Both(false);
      ThreeSteps(s, TURN, Midway(HANDLED, Looking, Thread), CUT, Midway(late, Looking, Thread), CUT, Both(false));
    }
  }

  /** The thread writes the status, the owner reads it and is back, and the thread signals it. */
  const LATE_SIGNAL := [TURN] + [TURN] + [MOVE] + ([MOVE] + [MOVE] + [TURN])

  /** The owner reads the first status, the thread finishes and frees the command, and the owner clears its
      pointer. */
  const LATE_CLEAR := [MOVE] + [TURN] + [TURN] + ([TURN] + [TURN] + [TURN]) + ([TURN] + [MOVE])

  /** A turn of the thread inside the mutex. */
  lemma {:induction false} Works(s: St, stage: Stage, j: Job)
    requires s.jobs == [j] && s.pc == Working(stage, 0) && (Locked(stage) || stage == Finishing) && !Harms(j, stage)
    ensures Step(s, TURN) ==
      s.(jobs := [Treated(j, stage, QUIET)], pc := if stage == Finishing then Next else Working(Following(j, stage), 0),
         mutex := if stage == Unlocking then Nobody else s.mutex,
         finished := if stage == Finishing then s.finished + [0] else s.finished)
  {
    hide Treated, Following, Harms;
    assert [j][0 := Treated(j, stage, QUIET)] == [Treated(j, stage, QUIET)];
    assert s.faults + {} == s.faults;
  }

  /** The status is written and the owner has come so far. */
  function Written(thread: bool, owner: Owner, mutex: Holder): St {
    Both(thread).(jobs := [HANDLED.(owner := owner, late := true, status := DoneSuccess)], pc := Working(Completing, 0), mutex := mutex)
  }

  lemma {:induction false} Writes(thread: bool)
    ensures Run(Both(thread), [TURN] + [TURN] + [MOVE]) == Written(thread, Releasing, Both(thread).mutex)
  {
    var s0 := Both(thread);
    var s1 := s0.(pc := Working(Marking, 0));
    var s2 := Written(thread, Checking, s0.mutex);
    assert Step(s0, TURN) == s1;
    assert Step(s1, TURN) == s2;
    assert Step(s2, MOVE) == Written(thread, Releasing, s0.mutex);
    hide Step, Run;
    ThreeSteps(s0, TURN, s1, TURN, s2, MOVE, Written(thread, Releasing, s0.mutex));
  }

  lemma {:induction false} Signals(thread: bool, mutex: Holder)
    ensures
      var s := Run(Written(thread, Releasing, mutex), [MOVE] + [MOVE] + [TURN]);
      OfThread(0) in s.faults && Usual(s, thread, !thread)
  {
    var s3 := Written(thread, Releasing, mutex);
    var s4 := Written(thread, Reporting, Nobody);
    var s5 := Written(thread, Returned(true), Nobody);
    assert Step(s3, MOVE) == s4;
    assert Step(s4, MOVE) == s5;
    var s6 := Step(s5, TURN);
    assert OfThread(0) in s6.faults && Usual(s6, thread, !thread);
    hide Step, Run, Usual;
    ThreeSteps(s3, MOVE, s4, MOVE, s5, TURN, s6);
  }

  lemma {:induction false} SignalsTheDead(thread: bool)
    ensures
      var s := Run(Both(thread), LATE_SIGNAL);
      OfThread(0) in s.faults && Usual(s, thread, !thread)
  {
    hide Run, Usual;
    Writes(thread);
    Signals(thread, Both(thread).mutex);
    RunTwo(Both(thread), [TURN] + [TURN] + [MOVE], [MOVE] + [MOVE] + [TURN]);
  }

  /** The owner has read the first status and is about to clear the pointer. */
  function Clearings(thread: bool, j: Job, stage: Stage): St {
    Both(thread).(jobs := [j], pc := Working(stage, 0))
  }

  const LOOKED := HANDLED.(owner := Detaching, late := true)
  const SIGNALLED := LOOKED.(status := DoneSuccess, signalled := true)

  lemma {:induction false} Looks(thread: bool)
    ensures Run(Both(thread), [MOVE] + [TURN] + [TURN]) == Clearings(thread, LOOKED.(status := DoneSuccess), Completing)
  {
    var s1 := Clearings(thread, LOOKED, Looking);
    var s2 := Clearings(thread, LOOKED, Marking);
    var s3 := Clearings(thread, LOOKED.(status := DoneSuccess), Completing);
    assert Step(Both(thread), MOVE) == s1;
    Works(s1, Looking, LOOKED);
    Works(s2, Marking, LOOKED);
    hide Step, Run;
    ThreeSteps(Both(thread), MOVE, s1, TURN, s2, TURN, s3);
  }

  lemma {:induction false} Completes(s: St, j: Job)
    requires s.jobs == [j] && s.pc == Working(Completing, 0) && j.attached && !j.freed && !j.owner.Returned?
    ensures
      Run(s, [TURN] + [TURN] + [TURN])
      == s.(jobs := [j.(signalled := true, attached := false)], pc := Working(Finishing, 0), mutex := Nobody)
  {
    var k := j.(signalled := true);
    var s4 := s.(jobs := [k], pc := Working(Clearing, 0));
    var s5 := s.(jobs := [k.(attached := false)], pc := Working(Unlocking, 0));
    Works(s, Completing, j);
    Works(s4, Clearing, k);
    Works(s5, Unlocking, k.(attached := false));
    hide Step, Run;
    ThreeSteps(s, TURN, s4, TURN, s5, TURN, s5.(pc := Working(Finishing, 0), mutex := Nobody));
  }

  /** The owner writes to what has been freed. */
  lemma {:induction false} WritesToFreed(s: St)
    requires |s.jobs| == 1 && s.jobs[0].owner == Detaching && s.jobs[0].freed
    ensures
      var t := Step(s, MOVE);
      && OfOwner(0) in t.faults && t.pc == s.pc && |t.jobs| == 1 && t.jobs[0].cmd == s.jobs[0].cmd
      && t.threadIntruded == s.threadIntruded && t.ownerIntruded == s.ownerIntruded
  {
  }

  lemma {:induction false} Frees(s: St, j: Job, thread: bool)
    requires s.jobs == [j] && s.pc == Working(Finishing, 0) && !j.freed && j.owner == Detaching && !Keeps(j)
    requires Usual(s, thread, !thread)
    ensures var t := Run(s, [TURN] + [MOVE]); OfOwner(0) in t.faults && Usual(t, thread, !thread)
  {
    var s7 := s.(pc := Next, jobs := [Gone(j)], finished := s.finished + [0]);
    Works(s, Finishing, j);
    WritesToFreed(s7);
    hide Step, Run;
    TwoSteps(s, TURN, s7, MOVE, Step(s7, MOVE));
  }

  lemma {:induction false} ClearsTheFreed(thread: bool)
    ensures
      var s := Run(Both(thread), LATE_CLEAR);
      OfOwner(0) in s.faults && Usual(s, thread, !thread)
  {
    hide Run;
    Looks(thread);
    Completes(Clearings(thread, LOOKED.(status := DoneSuccess), Completing), LOOKED.(status := DoneSuccess));
    Frees(Clearings(thread, SIGNALLED.(attached := false), Finishing).(mutex := Nobody), SIGNALLED.(attached := false), thread);
    RunTwo(Both(thread), [MOVE] + [TURN] + [TURN], [TURN] + [TURN] + [TURN]);
    RunTwo(Both(thread), [MOVE] + [TURN] + [TURN] + ([TURN] + [TURN] + [TURN]), [TURN] + [MOVE]);
  }

  /** Runs from the start, one command that fits, no drain.  When the thread, or the owner, goes on without
      the mutex, the thread comes to signal a completion whose owner is back, and the owner to write to a
      freed command. */
  lemma {:induction false} IntrusionRuns(thread: bool)
    ensures
      var s := Run(Init(false), UP + APPROACH + Meeting(thread) + LATE_SIGNAL);
      OfThread(0) in s.faults && Usual(s, thread, !thread)
    ensures
      var s := Run(Init(false), UP + APPROACH + Meeting(thread) + LATE_CLEAR);
      OfOwner(0) in s.faults && Usual(s, thread, !thread)
  {
    hide Run, Usual;
    Approaches();
    Meet(thread);
    SignalsTheDead(thread);
    ClearsTheFreed(thread);
    RunTwo(Init(false), UP + APPROACH, Meeting(thread));
    RunTwo(Init(false), UP + APPROACH + Meeting(thread), LATE_SIGNAL);
    RunTwo(Init(false), UP + APPROACH + Meeting(thread), LATE_CLEAR);
  }

  // ---------- exactly then ----------

  lemma {:induction false} UsualIsSafe(lclk: bool, run: seq<Action>)
    requires Usual(Run(Init(lclk), run), false, false)
    ensures ThreadSafe(Run(Init(lclk), run)) && OwnersSafe(Run(Init(lclk), run))
  {
    hide Run, TooLong, Passed;
    SafeBeforeTheDrain(lclk, run);
  }

  lemma UsualMore(s: St, thread: bool, owners: bool, more: bool, moreOwners: bool)
    requires Usual(s, thread, owners) && (thread ==> more) && (owners ==> moreOwners)
    ensures Usual(s, more, moreOwners)
  {
  }

  /** Before the drain and with commands that fit, neither the thread nor an owner ever touches memory that is
      not there, if and only if no contended wait for the mutex is interrupted, neither the thread's nor an
      owner's: let either of them be, and both fail in some run. */
  lemma {:induction false} MutexSafetyExactly(thread: bool, owners: bool)
    ensures
      (forall lclk: bool, run: seq<Action> ::
         Usual(Run(Init(lclk), run), thread, owners) ==> ThreadSafe(Run(Init(lclk), run)))
      <==> !thread && !owners
    ensures
      (forall lclk: bool, run: seq<Action> ::
         Usual(Run(Init(lclk), run), thread, owners) ==> OwnersSafe(Run(Init(lclk), run)))
      <==> !thread && !owners
  {
    hide Run, Usual;
    if thread || owners {
      IntrusionRuns(thread);
      var a := UP + APPROACH + Meeting(thread) + LATE_SIGNAL;
      var b := UP + APPROACH + Meeting(thread) + LATE_CLEAR;
      UsualMore(Run(Init(false), a), thread, !thread, thread, owners);
      UsualMore(Run(Init(false), b), thread, !thread, thread, owners);
      assert !ThreadSafe(Run(Init(false), a)) && !OwnersSafe(Run(Init(false), b));
    } else {
      forall lclk: bool, run: seq<Action> | Usual(Run(Init(lclk), run), false, false)
        ensures ThreadSafe(Run(Init(lclk), run)) && OwnersSafe(Run(Init(lclk), run))
      {
        UsualIsSafe(lclk, run);
      }
    }
  }
}
