/** Which commands are freed while their submitter still waits, and so exactly when, as long as no party has
    gone on without the sctx mutex, an owner comes to write to freed memory: when its command was too long
    for the queue, or was met by the drain while its owner still watched it. */
module CmdOrphans {
  import opened CmdProtocol
  import opened CmdOrder
  import opened CmdOutcome
  import opened CmdLifetime
  import opened CmdRuns

  /** Such a command is freed at once although its submitter is told of success and waits for it. */
  predicate TooLong(c: Cmd) {
    c.size > MAX_CMDSZ && c.wait != NoWait
  }

  /** The command that this step drops while its owner is still waiting, or on its way to clear the pointer. */
  function DroppedWatched(s: St, a: Action): set<Id> {
    if a.ThreadAct? && s.pc == Draining && s.queue != [] && s.queue[0] < |s.jobs| && Watches(s.jobs[s.queue[0]].owner)
    then {s.queue[0]} else {}
  }

  /** All such commands of a run. */
  function Forsaken(s: St, run: seq<Action>): set<Id>
    decreases |run|
  {
    if run == [] then {} else DroppedWatched(s, run[0]) + Forsaken(Step(s, run[0]), run[1..])
  }

  /** The orphaned commands are the too long ones and those in f. */
  ghost predicate Explained(s: St, f: set<Id>) {
    && (forall i :: i in f ==> i < |s.jobs|)
    && forall i :: 0 <= i < |s.jobs| ==> (Orphaned(s.jobs[i]) <==> TooLong(s.jobs[i].cmd) || i in f)
  }

  // ---------- one step ----------

  /** One command changes at most, and not in being orphaned. */
  lemma {:induction false} StillExplained(s: St, t: St, i: Id, f: set<Id>)
    requires Explained(s, f) && |t.jobs| == |s.jobs|
    requires forall k :: 0 <= k < |s.jobs| && k != i ==> t.jobs[k] == s.jobs[k]
    requires i < |s.jobs| ==> t.jobs[i].cmd == s.jobs[i].cmd && (Orphaned(t.jobs[i]) <==> Orphaned(s.jobs[i]))
    ensures Explained(t, f)
  {
    hide Orphaned, TooLong;
    forall k | 0 <= k < |t.jobs|
      ensures Orphaned(t.jobs[k]) <==> TooLong(t.jobs[k].cmd) || k in f
    {
      assert Orphaned(s.jobs[k]) <==> TooLong(s.jobs[k].cmd) || k in f;
    }
  }

  lemma {:induction false} TreatedNoOrphan(j: Job, stage: Stage, mine: bool, hurt: bool, env: Env)
    requires JobOk(j, At(stage), mine, hurt)
    ensures Treated(j, stage, env).cmd == j.cmd && !Orphaned(j) && !Orphaned(Treated(j, stage, env))
  {
    hide Reported, Woken, Keeps;
  }

  lemma {:induction false} WorkedExplained(s: St, stage: Stage, i: Id, env: Env, f: set<Id>)
    requires Explained(s, f) && Guarded(s) && s.pc == Working(stage, i) && stage != Vetting
    ensures Explained(Worked(s, stage, i, env), f)
  {
    assert Ok(s, i);
    TreatedNoOrphan(s.jobs[i], stage, s.mutex == ByOwner(i), OfOwner(i) in s.faults, env);
    hide Treated, Following, Orphaned;
    StillExplained(s, Worked(s, stage, i, env), i, f);
  }

  lemma {:induction false} VettedExplained(s: St, i: Id, env: Env, f: set<Id>)
    requires Explained(s, f) && i < |s.jobs|
    ensures Explained(Vetted(s, i, env), f)
  {
    hide TooLong;
    var res := VettedIs(s, i, env);
    hide Vetted;
    StillExplained(s, Vetted(s, i, env), i, f);
  }

  /** The drain orphans its command exactly if the owner still watches it. */
  lemma {:induction false} DrainOrphans(j: Job, mine: bool, hurt: bool)
    requires JobOk(j, Away, mine, hurt) && !j.over
    ensures Orphaned(Gone(j)) <==> Watches(j.owner)
    ensures !Orphaned(j)
  {
    hide Reported, Woken;
  }

  lemma {:induction false} DroppedExplained(s: St, env: Env, f: set<Id>)
    requires Explained(s, f) && Guarded(s) && Traced(s) && s.pc == Draining && s.queue != []
    ensures Explained(Dropped(s), f + DroppedWatched(s, ThreadAct(env)))
  {
    var i, t := s.queue[0], Dropped(s);
    QueuedAlive(s);
    assert Ok(s, i);
    DrainOrphans(s.jobs[i], s.mutex == ByOwner(i), OfOwner(i) in s.faults);
    hide Orphaned, TooLong, Watches, Traced, Guarded;
    forall k | 0 <= k < |t.jobs|
      ensures Orphaned(t.jobs[k]) <==> TooLong(t.jobs[k].cmd) || k in f + DroppedWatched(s, ThreadAct(env))
    {
      assert Orphaned(s.jobs[k]) <==> TooLong(s.jobs[k].cmd) || k in f;
    }
  }

  lemma {:induction false} PolledExplained(s: St, env: Env, f: set<Id>)
    requires Explained(s, f) && Guarded(s) && Traced(s) && Idle(s.pc)
    ensures Explained(Polled(s, env), f + DroppedWatched(s, ThreadAct(env)))
  {
    if s.pc == Draining && s.queue != [] {
      DroppedExplained(s, env, f);
    } else {
      hide Onward, Orphaned, TooLong, Traced, Guarded;
      assert f + {} == f;
      StillExplained(s, Polled(s, env), |s.jobs|, f);
    }
  }

  lemma {:induction false} ThreadExplained(s: St, env: Env, f: set<Id>)
    requires Explained(s, f) && Guarded(s) && Traced(s)
    ensures Explained(ThreadStep(s, env), f + DroppedWatched(s, ThreadAct(env)))
  {
    hide Explained, Polled, Vetted, Worked, Harms, Traced;
    if Idle(s.pc) {
      PolledExplained(s, env, f);
    } else {
      var i := s.pc.id;
      assert i < |s.jobs|;
      assert f + {} == f;
      hide Guarded;
      var t := if s.pc.stage == Vetting then Vetted(s, i, env) else Worked(s, s.pc.stage, i, env);
      if s.pc.stage == Vetting {
        VettedExplained(s, i, env, f);
      } else {
        WorkedExplained(s, s.pc.stage, i, env, f);
      }
      StillExplained(t, ThreadStep(s, env), |t.jobs|, f);
    }
  }

  lemma {:induction false} EnqueuedExplained(s: St, c: Cmd, f: set<Id>)
    requires Explained(s, f)
    ensures Explained(Enqueued(s, c), f)
  {
    var t := Enqueued(s, c);
    assert Orphaned(NewJob(c)) <==> TooLong(c);
    hide Orphaned, TooLong, Admits;
    forall k | 0 <= k < |t.jobs|
      ensures Orphaned(t.jobs[k]) <==> TooLong(t.jobs[k].cmd) || k in f
    {
      if k < |s.jobs| {
        assert Orphaned(s.jobs[k]) <==> TooLong(s.jobs[k].cmd) || k in f;
      }
    }
  }

  lemma {:induction false} ActedOrphan(j: Job, free: bool, cut: bool)
    ensures Acted(j, free, cut).cmd == j.cmd
    ensures Orphaned(Acted(j, free, cut)) <==> Orphaned(j)
  {
  }

  lemma {:induction false} OwnerExplained(s: St, i: Id, cut: bool, f: set<Id>)
    requires Explained(s, f)
    ensures Explained(OwnerStep(s, i, cut), f)
  {
    if i < |s.jobs| {
      ActedOrphan(s.jobs[i], s.mutex == Nobody, cut);
      hide TooLong, Orphaned, Acted;
      StillExplained(s, OwnerStep(s, i, cut), i, f);
    }
  }

  lemma {:induction false} OutsideExplained(s: St, a: Action, f: set<Id>)
    requires Explained(s, f) && Outside(a)
    ensures Explained(Step(s, a), f)
  {
    OutsideIs(s, a);
    hide Step, Orphaned, TooLong;
    StillExplained(s, Step(s, a), |s.jobs|, f);
  }

  lemma {:induction false} StepExplained(s: St, a: Action, f: set<Id>)
    requires Explained(s, f) && Guarded(s) && Traced(s)
    ensures Explained(Step(s, a), f + DroppedWatched(s, a))
  {
    assert f + {} == f;
    hide Guarded, Traced, Explained, Enqueued, ThreadStep, OwnerStep;
    match a {
      case Enqueue(c) => EnqueuedExplained(s, c, f);
      case ThreadAct(env) => ThreadExplained(s, env, f);
      case OwnerAct(i, cut) => OwnerExplained(s, i, cut, f);
      case _ => OutsideExplained(s, a, f);
    }
  }

  // ---------- over runs ----------

  lemma {:induction false} RunExplained(s: St, run: seq<Action>, f: set<Id>)
    requires Explained(s, f) && Guarded(s) && Traced(s) && !Intruded(Run(s, run))
    ensures Explained(Run(s, run), f + Forsaken(s, run))
    decreases |run|
  {
    if run == [] {
      assert f + {} == f;
    } else {
      hide Explained, Guarded, Traced, Step, DroppedWatched;
      RunRemembers(Step(s, run[0]), run[1..]);
      StepExplained(s, run[0], f);
      StepGuarded(s, run[0]);
      StepKeepsTrace(s, run[0]);
      RunExplained(Step(s, run[0]), run[1..], f + DroppedWatched(s, run[0]));
      assert f + DroppedWatched(s, run[0]) + Forsaken(Step(s, run[0]), run[1..]) == f + Forsaken(s, run);
    }
  }

  /** In every run in which no party has gone on without the mutex: the thread never touches a freed command
      or a completion whose owner is back; and an owner that has come to clear its command's pointer has
      written to freed memory if and only if the command was too long for the queue when it was submitted, or
      the drain dropped it while this owner still watched it. */
  lemma {:induction false} FaultsExactly(lclk: bool, run: seq<Action>)
    requires !Intruded(Run(Init(lclk), run))
    ensures
      var s := Run(Init(lclk), run);
      && (forall f :: f in s.faults ==> f.OfOwner? && f.id < |s.jobs|)
      && (forall i :: 0 <= i < |s.jobs| ==>
            (OfOwner(i) in s.faults <==>
               Passed(s.jobs[i].owner) && (TooLong(s.jobs[i].cmd) || i in Forsaken(Init(lclk), run))))
  {
    var s := Run(Init(lclk), run);
    OnlyOrphansHarm(lclk, run);
    StartsGuarded(lclk);
    RunExplained(Init(lclk), run, {});
    assert {} + Forsaken(Init(lclk), run) == Forsaken(Init(lclk), run);
    hide Run, Forsaken, Orphaned, TooLong, Passed;
    forall i | 0 <= i < |s.jobs|
      ensures OfOwner(i) in s.faults <==> Passed(s.jobs[i].owner) && (TooLong(s.jobs[i].cmd) || i in Forsaken(Init(lclk), run))
    {
      assert Orphaned(s.jobs[i]) <==> TooLong(s.jobs[i].cmd) || i in Forsaken(Init(lclk), run);
    }
  }

  // ---------- before the drain ----------

  lemma LeavesOn(s: St, env: Env)
    requires Leaves(s.pc)
    ensures Leaves(ThreadStep(s, env).pc)
  {
    hide Polled;
    PolledPc(s, env);
  }

  lemma {:induction false} LeftForGood(s: St, a: Action)
    requires Leaves(s.pc)
    ensures Leaves(Step(s, a).pc)
  {
    hide ThreadStep, Enqueued, StopStep, SpawnerStep, Acted, Leaves;
    if a.ThreadAct? {
      LeavesOn(s, a.env);
    } else if a.Enqueue? {
      EnqueuedIs(s, a.cmd);
    } else if Outside(a) {
      OutsideIs(s, a);
    }
  }

  lemma {:induction false} NoneForsaken(s: St, run: seq<Action>)
    requires !Leaves(Run(s, run).pc)
    ensures !Leaves(s.pc) && Forsaken(s, run) == {}
    decreases |run|
  {
    if run != [] {
      hide Step;
      NoneForsaken(Step(s, run[0]), run[1..]);
      if Leaves(s.pc) {
        LeftForGood(s, run[0]);
      }
    }
  }

  /** Before the drain, and as long as no party has gone on without the mutex: an owner has written to freed
      memory if and only if its command was too long and it has come to clear the pointer.  So if every
      command that is waited for fits, nobody touches memory that is not there. */
  lemma {:induction false} SafeBeforeTheDrain(lclk: bool, run: seq<Action>)
    requires !Leaves(Run(Init(lclk), run).pc) && !Intruded(Run(Init(lclk), run))
    ensures
      var s := Run(Init(lclk), run);
      && (forall i :: 0 <= i < |s.jobs| ==>
            (OfOwner(i) in s.faults <==> TooLong(s.jobs[i].cmd) && Passed(s.jobs[i].owner)))
      && ((forall j :: j in s.jobs ==> !TooLong(j.cmd)) ==> s.faults == {})
  {
    var s := Run(Init(lclk), run);
    FaultsExactly(lclk, run);
    NoneForsaken(Init(lclk), run);
    hide Run, Forsaken, TooLong, Passed;
    assert forall i :: 0 <= i < |s.jobs| ==> s.jobs[i] in s.jobs;
    assert forall f :: f in s.faults ==> f == OfOwner(f.id) && TooLong(s.jobs[f.id].cmd);
    assert (forall j :: j in s.jobs ==> !TooLong(j.cmd)) ==> forall f :: f !in s.faults;
  }

  // ---------- two runs that come to it ----------

  /** Once its command is orphaned, an owner whose wait times out while the mutex is free writes to the
      freed command in its own next steps. */
  lemma {:induction false} OrphanIsHarmed(s: St, i: Id)
    requires i < |s.jobs| && Orphaned(s.jobs[i]) && s.jobs[i].status == Submitted && !s.jobs[i].signalled
    requires s.jobs[i].owner == Waiting && s.mutex == Nobody
    ensures
      var timeOut := OwnerAct(i, true);
      OfOwner(i) in Run(s, [timeOut] + [timeOut] + [timeOut] + [timeOut]).faults
  {
    var timeOut := OwnerAct(i, true);
    var a := Step(s, timeOut);
    var b := Step(a, timeOut);
    var c := Step(b, timeOut);
    assert a.jobs[i].owner == Locking && a.mutex == Nobody;
    assert b.jobs[i].owner == Checking;
    assert c.jobs[i].owner == Detaching && c.jobs[i].freed;
    var d := Step(c, timeOut);
    assert OfOwner(i) in d.faults;
    hide Step;
    RunTwo(s, [timeOut] + [timeOut] + [timeOut], [timeOut]);
    RunTwo(s, [timeOut] + [timeOut], [timeOut]);
    RunTwo(s, [timeOut], [timeOut]);
    OneAct(s, timeOut);
    OneAct(a, timeOut);
    OneAct(b, timeOut);
    OneAct(c, timeOut);
  }

  const TIME_OUT := OwnerAct(0, true)
  const LEAVE := [TIME_OUT] + [TIME_OUT] + [TIME_OUT] + [TIME_OUT]

  /** A run before any drain: a command one byte too long is submitted by someone who waits. */
  lemma {:induction false} TooLongRun(lclk: bool)
    ensures
      var c := Cmd(MAX_CMDSZ + 1, false, false, true, Checked, false);
      var s := Run(Init(lclk), UP + [Enqueue(c)] + LEAVE);
      OfOwner(0) in s.faults && TooLong(c)
  {
    var c := Cmd(MAX_CMDSZ + 1, false, false, true, Checked, false);
    ComesUp(lclk);
    var s := Step(Up(lclk), Enqueue(c));
    assert s.jobs == [NewJob(c)];
    hide Step;
    RunTwo(Init(lclk), UP, [Enqueue(c)]);
    OneAct(Up(lclk), Enqueue(c));
    RunTwo(Init(lclk), UP + [Enqueue(c)], LEAVE);
    OrphanIsHarmed(s, 0);
  }

  const SIGNAL := Env(true, false, true, H2C_SUCCESS)

  /** The thread leaves, the command is let in, and the drain frees it. */
  const DRAIN := [ThreadAct(QUIET)] + [ThreadAct(QUIET)]

  lemma {:induction false} Drains(s: St)
    requires s.pc == Leaving && s.queue == [0] && |s.jobs| == 1
    ensures
      var t := Run(s, DRAIN);
      t.jobs == [Gone(s.jobs[0])] && t.mutex == s.mutex && t.pc == Draining
  {
    var b := Step(s, ThreadAct(QUIET));
    assert b.pc == Draining && b.queue == [0] && b.jobs == s.jobs && b.mutex == s.mutex;
    assert Step(b, ThreadAct(QUIET)) == Dropped(b);
    hide Step;
    OneAct(s, ThreadAct(QUIET));
    OneAct(b, ThreadAct(QUIET));
    RunTwo(s, [ThreadAct(QUIET)], [ThreadAct(QUIET)]);
  }

  /** A run with a drain: a signal ends the thread's wait, and before it says that it is away a command that
      fits is let in, whose submitter waits. */
  lemma {:induction false} DrainRun(lclk: bool)
    ensures
      var c := Cmd(16, false, false, true, Checked, false);
      var s := Run(Init(lclk), UP + [ThreadAct(SIGNAL)] + [Enqueue(c)] + DRAIN + LEAVE);
      OfOwner(0) in s.faults && !TooLong(c)
  {
    var c := Cmd(16, false, false, true, Checked, false);
    ComesUp(lclk);
    var l := Step(Up(lclk), ThreadAct(SIGNAL));
    assert l == Up(lclk).(pc := Leaving);
    var s := Step(l, Enqueue(c));
    assert s.jobs == [NewJob(c)] && s.queue == [0] && s.pc == Leaving && s.mutex == Nobody;
    hide Step;
    Drains(s);
    OneAct(Up(lclk), ThreadAct(SIGNAL));
    OneAct(l, Enqueue(c));
    RunTwo(Init(lclk), UP, [ThreadAct(SIGNAL)]);
    RunTwo(Init(lclk), UP + [ThreadAct(SIGNAL)], [Enqueue(c)]);
    RunTwo(Init(lclk), UP + [ThreadAct(SIGNAL)] + [Enqueue(c)], DRAIN);
    RunTwo(Init(lclk), UP + [ThreadAct(SIGNAL)] + [Enqueue(c)] + DRAIN, LEAVE);
    OrphanIsHarmed(Run(s, DRAIN), 0);
  }
}
