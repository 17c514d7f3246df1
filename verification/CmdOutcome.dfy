/** What holds in every run, also in those in which a party has gone on without the sctx mutex: what the
    completion shows is what the handler returned, and whoever holds the mutex is inside. */
module CmdOutcome {
  import opened CmdProtocol
  import opened CmdOrder

  /** The owner is where the sctx mutex is meant to be held. */
  predicate Inside(o: Owner) {
    o == Checking || o == Detaching || o == Releasing
  }

  /** And the thread. */
  predicate Locked(stage: Stage) {
    stage == Looking || stage == Marking || stage == Completing || stage == Clearing || stage == Unlocking
  }

  /** The owner has left its wait, and not for a time-out. */
  predicate Woken(j: Job) {
    j.owner != Absent && j.owner != Waiting && !j.late
  }

  datatype Spot = Away | At(stage: Stage)

  function SpotOf(s: St, i: Id): Spot {
    if s.pc.Working? && s.pc.id == i then At(s.pc.stage) else Away
  }

  predicate Unjudged(spot: Spot) {
    spot == Away || spot == At(Vetting) || spot == At(Handling)
  }

  predicate Reported(j: Job) {
    j.owner.Returned? ==>
      && (j.owner.ok && j.cmd.wait != Ack ==> j.results == [H2C_SUCCESS])
      && (!j.owner.ok ==> j.cmd.wait != Ack && (j.late || j.results != [H2C_SUCCESS]))
  }

  predicate Judged(j: Job, spot: Spot) {
    && |j.results| <= 1
    && (j.freed ==> j.over)
    && (spot != Away ==> !j.over)
    && (!j.over && Unjudged(spot) ==> j.results == [] && j.status == Submitted)
    && (!Unjudged(spot) ==> (j.res == H2C_SUCCESS <==> j.results == [H2C_SUCCESS]))
    && (j.status != Submitted ==> (j.status == DoneSuccess <==> j.results == [H2C_SUCCESS]))
    && (spot == At(Completing) && j.attached ==> j.status != Submitted)
    && (j.signalled || Woken(j) ==> j.status != Submitted)
    && Reported(j)
  }

  ghost predicate AllJudged(s: St) {
    && (s.pc.Working? ==> s.pc.id < |s.jobs|)
    && forall i :: 0 <= i < |s.jobs| ==> Judged(s.jobs[i], SpotOf(s, i))
  }

  // ---------- one command ----------

  lemma {:induction false} TreatedJudged(j: Job, stage: Stage, env: Env)
    requires Judged(j, At(stage)) && stage != Vetting && stage != Finishing
    ensures Judged(Treated(j, stage, env), At(Following(j, stage)))
  {
    if stage == Handling {
      assert j.results + [env.result] == [env.result];
      assert [env.result] == [H2C_SUCCESS] <==> [env.result][0] == H2C_SUCCESS;
    }
  }

  lemma {:induction false} FinishedJudged(j: Job, env: Env)
    requires Judged(j, At(Finishing))
    ensures Judged(Treated(j, Finishing, env), Away)
  {
    hide Keeps;
  }

  /** Refused, put back or passed on: in each case the handler has not run. */
  lemma {:induction false} VettedJudged(j: Job, res: nat, spot: Spot)
    requires Judged(j, At(Vetting))
    requires spot == Away || spot == At(Handling) || (spot == At(Entering) && res != H2C_SUCCESS)
    ensures Judged(j.(res := res), spot)
  {
    assert j.results == [];
  }

  lemma {:induction false} ActedReported(j: Job, spot: Spot, free: bool, cut: bool)
    requires Judged(j, spot)
    ensures Reported(Acted(j, free, cut))
  {
  }

  lemma {:induction false} ActedJudged(j: Job, spot: Spot, free: bool, cut: bool)
    requires Judged(j, spot)
    ensures Judged(Acted(j, free, cut), spot)
  {
    ActedReported(j, spot, free, cut);
    ActedIs(j, free, cut);
    ActedWoken(j, free, cut);
    hide Reported, Acted, Woken, Unjudged, Keeps;
  }

  lemma {:induction false} ActedWoken(j: Job, free: bool, cut: bool)
    ensures
      var k := Acted(j, free, cut);
      && k.results == j.results && k.res == j.res && k.status == j.status && k.signalled == j.signalled
      && (k.attached ==> j.attached) && (Woken(k) ==> Woken(j) || j.signalled)
  {
  }

  // ---------- all of them ----------

  lemma {:induction false} OthersJudged(s: St, t: St, i: Id)
    requires AllJudged(s) && |t.jobs| == |s.jobs| && (t.pc.Working? ==> t.pc.id < |t.jobs|)
    requires forall k :: 0 <= k < |s.jobs| && k != i ==> t.jobs[k] == s.jobs[k] && SpotOf(t, k) == SpotOf(s, k)
    requires i < |t.jobs| ==> Judged(t.jobs[i], SpotOf(t, i))
    ensures AllJudged(t)
  {
    hide Judged, SpotOf;
  }

  lemma {:induction false} WorkedJudged(s: St, stage: Stage, i: Id, env: Env)
    requires AllJudged(s) && s.pc == Working(stage, i) && stage != Vetting && i < |s.jobs|
    ensures AllJudged(Worked(s, stage, i, env))
  {
    hide Judged, Treated, Following;
    var j, t := s.jobs[i], Worked(s, stage, i, env);
    assert Judged(j, At(stage));
    if t != s {
      if stage == Finishing {
        FinishedJudged(j, env);
      } else {
        TreatedJudged(j, stage, env);
      }
      OthersJudged(s, t, i);
    }
  }

  lemma {:induction false} VettingJudged(s: St, i: Id, env: Env)
    requires AllJudged(s) && s.pc == Working(Vetting, i) && i < |s.jobs|
    ensures AllJudged(Vetted(s, i, env))
  {
    hide Judged, Vetted;
    var t := Vetted(s, i, env);
    var res := VettedIs(s, i, env);
    assert Judged(s.jobs[i], At(Vetting));
    VettedJudged(s.jobs[i], res, SpotOf(t, i));
    OthersJudged(s, t, i);
  }

  lemma {:induction false} TakenJudged(j: Job)
    requires Judged(j, Away) && !j.over
    ensures Judged(j, At(Vetting)) && Judged(Gone(j), Away)
  {
  }

  /** The first command in the queue is known and has not been given away. */
  lemma {:induction false} QueuedAlive(s: St)
    requires Traced(s) && Idle(s.pc) && s.queue != []
    ensures s.queue[0] < |s.jobs| && !s.jobs[s.queue[0]].over && !s.jobs[s.queue[0]].freed
  {
    LiveKnown(s);
    assert s.queue[0] in Live(s);
  }

  lemma {:induction false} PolledJudged(s: St, env: Env)
    requires AllJudged(s) && Traced(s) && Idle(s.pc)
    ensures AllJudged(Polled(s, env))
  {
    hide Judged, Traced, AllJudged, Polled;
    var t := Polled(s, env);
    if s.queue != [] && (s.pc == Draining || s.pc == Taking) {
      var i := s.queue[0];
      QueuedAlive(s);
      JudgedIs(s, i);
      TakenJudged(s.jobs[i]);
      if s.pc == Draining {
        FrontDropped(s, env);
      } else {
        FrontTaken(s, env);
      }
      OneJudged(s, t, i);
    } else {
      StaysIdle(s, env);
      IdleJudged(s, t);
    }
  }

  lemma FrontDropped(s: St, env: Env)
    requires s.pc == Draining && s.queue != [] && s.queue[0] < |s.jobs|
    ensures
      var t, i := Polled(s, env), s.queue[0];
      t.pc == Draining && |t.jobs| == |s.jobs| && t.jobs[i] == Gone(s.jobs[i]) && t.jobs == s.jobs[i := t.jobs[i]]
  {
  }

  lemma FrontTaken(s: St, env: Env)
    requires s.pc == Taking && s.queue != []
    ensures Polled(s, env).pc == Working(Vetting, s.queue[0]) && Polled(s, env).jobs == s.jobs
  {
  }

  lemma StaysIdle(s: St, env: Env)
    requires Idle(s.pc) && !(s.queue != [] && (s.pc == Draining || s.pc == Taking))
    ensures Idle(Polled(s, env).pc) && Polled(s, env).jobs == s.jobs
  {
  }

  lemma {:induction false} IdleJudged(s: St, t: St)
    requires AllJudged(s) && Idle(s.pc) && Idle(t.pc) && t.jobs == s.jobs
    ensures AllJudged(t)
  {
    hide Judged;
    OthersJudged(s, t, |s.jobs|);
  }

  lemma {:induction false} OneJudged(s: St, t: St, i: Id)
    requires AllJudged(s) && Idle(s.pc) && i < |s.jobs| && |t.jobs| == |s.jobs| && t.jobs == s.jobs[i := t.jobs[i]]
    requires Idle(t.pc) || (t.pc.Working? && t.pc.id == i)
    requires Judged(t.jobs[i], if Idle(t.pc) then Away else At(t.pc.stage))
    ensures AllJudged(t)
  {
    hide Judged;
    OthersJudged(s, t, i);
  }

  lemma {:induction false} ThreadJudged(s: St, env: Env)
    requires AllJudged(s) && Traced(s)
    ensures AllJudged(ThreadStep(s, env))
  {
    hide AllJudged, Polled, Vetted, Worked, Traced, Harms;
    if Idle(s.pc) {
      PolledJudged(s, env);
    } else if s.pc.id < |s.jobs| {
      var i := s.pc.id;
      var t := if s.pc.stage == Vetting then Vetted(s, i, env) else Worked(s, s.pc.stage, i, env);
      if s.pc.stage == Vetting {
        VettingJudged(s, i, env);
      } else {
        WorkedJudged(s, s.pc.stage, i, env);
      }
      SameJudged(t, ThreadStep(s, env));
    }
  }

  lemma {:induction false} SameJudged(s: St, t: St)
    requires AllJudged(s) && t.jobs == s.jobs && t.pc == s.pc
    ensures AllJudged(t)
  {
    hide Judged;
    OthersJudged(s, t, |s.jobs|);
  }

  lemma {:induction false} OwnerJudged(s: St, i: Id, cut: bool)
    requires AllJudged(s)
    ensures AllJudged(OwnerStep(s, i, cut))
  {
    if i < |s.jobs| {
      ActedJudged(s.jobs[i], SpotOf(s, i), s.mutex == Nobody, cut);
      hide Judged, Acted;
      OthersJudged(s, OwnerStep(s, i, cut), i);
    }
  }

  lemma {:induction false} NewJudged(c: Cmd)
    ensures Judged(NewJob(c), Away)
  {
  }

  lemma NotInHand(s: St, i: Id)
    requires s.pc.Working? ==> s.pc.id < i
    ensures SpotOf(s, i) == Away
  {
  }

  lemma SamePlace(s: St, t: St)
    requires t.pc == s.pc
    ensures forall k :: SpotOf(t, k) == SpotOf(s, k)
  {
  }

  lemma {:induction false} EnqueuedJudged(s: St, c: Cmd)
    requires AllJudged(s)
    ensures AllJudged(Enqueued(s, c))
  {
    hide Judged, NewJob, Enqueued, SpotOf;
    var t := Enqueued(s, c);
    NewJudged(c);
    EnqueuedIs(s, c);
    NotInHand(t, |s.jobs|);
    SamePlace(s, t);
    forall k | 0 <= k < |t.jobs|
      ensures Judged(t.jobs[k], SpotOf(t, k))
    {
      if k < |s.jobs| {
        assert Judged(s.jobs[k], SpotOf(s, k));
      }
    }
  }

  lemma {:induction false} StepJudged(s: St, a: Action)
    requires AllJudged(s) && Traced(s)
    ensures AllJudged(Step(s, a))
  {
    hide AllJudged, Traced, Enqueued, ThreadStep, OwnerStep, StopStep, SpawnerStep;
    if a.Enqueue? {
      EnqueuedJudged(s, a.cmd);
    } else if a.ThreadAct? {
      ThreadJudged(s, a.env);
    } else if a.OwnerAct? {
      OwnerJudged(s, a.id, a.cut);
    } else {
      OutsideIs(s, a);
      SameJudged(s, Step(s, a));
    }
  }

  lemma {:induction false} RunJudged(s: St, run: seq<Action>)
    requires AllJudged(s) && Traced(s)
    ensures AllJudged(Run(s, run)) && Traced(Run(s, run))
    decreases |run|
  {
    if run != [] {
      hide AllJudged, Traced, Step;
      StepJudged(s, run[0]);
      StepKeepsTrace(s, run[0]);
      RunJudged(Step(s, run[0]), run[1..]);
    }
  }

  lemma BeginsSo(lclk: bool)
    ensures Traced(Init(lclk)) && AllJudged(Init(lclk)) && Held(Init(lclk))
  {
  }

  // ---------- the mutex ----------

  /** Whoever holds the mutex is inside, though others may be inside, too. */
  predicate Held(s: St) {
    && (s.mutex == Thread ==> s.pc.Working? && Locked(s.pc.stage))
    && (s.mutex.ByOwner? ==> s.mutex.id < |s.jobs| && Inside(s.jobs[s.mutex.id].owner))
  }

  lemma {:induction false} SameHeld(s: St, t: St)
    requires Held(s) && t.mutex == s.mutex && |t.jobs| >= |s.jobs|
    requires forall k :: 0 <= k < |s.jobs| ==> t.jobs[k].owner == s.jobs[k].owner
    requires s.mutex == Thread ==> t.pc.Working? && Locked(t.pc.stage)
    ensures Held(t)
  {
  }

  lemma TreatedOwner(j: Job, stage: Stage, env: Env)
    requires stage != Vetting && stage != Finishing
    ensures Treated(j, stage, env).owner == j.owner
    ensures stage == Entering || (Locked(stage) && stage != Unlocking) ==> Locked(Following(j, stage))
  {
  }

  lemma StageIs(s: St, stage: Stage, i: Id, env: Env)
    requires stage != Vetting && stage != Finishing && i < |s.jobs|
    ensures
      var t, j := Worked(s, stage, i, env), s.jobs[i];
      t == s ||
        (&& t.pc == Working(Following(j, stage), i) && t.jobs == s.jobs[i := Treated(j, stage, env)]
         && (t.mutex == s.mutex || t.mutex == if stage == Entering then Thread else Nobody))
    ensures stage == Unlocking ==> Worked(s, stage, i, env).mutex == Nobody
  {
    hide Treated, Following;
  }

  lemma {:induction false} WorkedHeld(s: St, stage: Stage, i: Id, env: Env)
    requires Held(s) && s.pc == Working(stage, i) && stage != Vetting && i < |s.jobs|
    ensures Held(Worked(s, stage, i, env))
  {
    hide Worked, Treated, Following, Held, Keeps, Locked;
    var t := Worked(s, stage, i, env);
    if stage == Finishing {
      FinishIs(s, i, env);
      FinishHeld(s, t, i);
    } else {
      StageIs(s, stage, i, env);
      TreatedOwner(s.jobs[i], stage, env);
      if t.mutex == Nobody {
        NobodyHolds(t);
      } else if t.mutex != s.mutex {
        ThreadHolds(t);
      } else if t != s {
        OnwardHeld(s, t, stage, i);
      }
    }
  }

  lemma OnwardHeld(s: St, t: St, stage: Stage, i: Id)
    requires Held(s) && s.pc == Working(stage, i) && t.mutex == s.mutex && |t.jobs| == |s.jobs|
    requires forall k :: 0 <= k < |s.jobs| ==> t.jobs[k].owner == s.jobs[k].owner
    requires t.pc.Working? && (Locked(stage) ==> Locked(t.pc.stage))
    ensures Held(t)
  {
  }

  lemma NobodyHolds(s: St)
    requires s.mutex == Nobody
    ensures Held(s)
  {
  }

  lemma ThreadHolds(s: St)
    requires s.mutex == Thread && s.pc.Working? && Locked(s.pc.stage)
    ensures Held(s)
  {
  }

  lemma FinishHeld(s: St, t: St, i: Id)
    requires Held(s) && s.pc == Working(Finishing, i) && i < |s.jobs|
    requires t.mutex == s.mutex && |t.jobs| == |s.jobs|
    requires t.jobs == s.jobs[i := s.jobs[i].(freed := t.jobs[i].freed, over := true)]
    ensures Held(t)
  {
  }

  lemma {:induction false} PolledHeld(s: St, env: Env)
    requires Held(s) && Idle(s.pc)
    ensures Held(Polled(s, env))
  {
    hide Onward;
    SameHeld(s, Polled(s, env));
  }

  lemma {:induction false} ThreadHeld(s: St, env: Env)
    requires Held(s)
    ensures Held(ThreadStep(s, env))
  {
    hide Polled, Vetted, Worked, Harms, Locked;
    if Idle(s.pc) {
      PolledHeld(s, env);
    } else if s.pc.id < |s.jobs| {
      var i := s.pc.id;
      if s.pc.stage == Vetting {
        var _ := VettedIs(s, i, env);
        VettingIsOutside();
        SameHeld(s, ThreadStep(s, env));
      } else {
        WorkedHeld(s, s.pc.stage, i, env);
      }
    }
  }

  lemma VettingIsOutside()
    ensures !Locked(Vetting)
  {
  }

  lemma {:induction false} OwnerHeld(s: St, i: Id, cut: bool)
    requires Held(s)
    ensures Held(OwnerStep(s, i, cut))
  {
    hide Locked;
  }

  lemma {:induction false} StepHeld(s: St, a: Action)
    requires Held(s)
    ensures Held(Step(s, a))
  {
    hide ThreadStep, StopStep, SpawnerStep, OwnerStep, Admits, Held;
    if a.ThreadAct? {
      ThreadHeld(s, a.env);
    } else if a.OwnerAct? {
      OwnerHeld(s, a.id, a.cut);
    } else if a.Enqueue? {
      EnqueuedHeld(s, a.cmd);
    } else {
      OutsideIs(s, a);
      OutsideHeld(s, Step(s, a));
    }
  }

  lemma EnqueuedHeld(s: St, c: Cmd)
    requires Held(s)
    ensures Held(Enqueued(s, c))
  {
    hide Enqueued, NewJob, Locked;
    EnqueuedIs(s, c);
    SameHeld(s, Enqueued(s, c));
  }

  lemma OutsideHeld(s: St, t: St)
    requires Held(s) && t.mutex == s.mutex && t.jobs == s.jobs && t.pc == s.pc
    ensures Held(t)
  {
  }

  lemma {:induction false} RunHeld(s: St, run: seq<Action>)
    requires Held(s)
    ensures Held(Run(s, run))
    decreases |run|
  {
    if run != [] {
      hide Held, Step;
      StepHeld(s, run[0]);
      RunHeld(Step(s, run[0]), run[1..]);
    }
  }

  // ---------- what a submitter is told ----------

  /** In every run.  A waiting submitter that looks at the outcome hears of success only if its command's
      handler ran, once, and returned success; and unless its wait timed out it hears of failure only if
      that is not so.  One that does not look always reports success. */
  lemma {:induction false} ReportedOutcome(lclk: bool, run: seq<Action>, i: Id)
    requires i < |Run(Init(lclk), run).jobs|
    ensures
      var j := Run(Init(lclk), run).jobs[i];
      && |j.results| <= 1
      && (j.owner == Returned(true) && j.cmd.wait != Ack ==> j.results == [H2C_SUCCESS])
      && (j.owner == Returned(false) ==> j.cmd.wait != Ack && (j.late || j.results != [H2C_SUCCESS]))
  {
    hide Run, Traced, AllJudged, Init;
    BeginsSo(lclk);
    RunJudged(Init(lclk), run);
    JudgedIs(Run(Init(lclk), run), i);
  }

  lemma JudgedIs(s: St, i: Id)
    requires AllJudged(s) && i < |s.jobs|
    ensures Judged(s.jobs[i], SpotOf(s, i))
  {
    hide Judged;
  }
}
