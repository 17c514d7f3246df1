/** The life of a command and of the completion on its owner's stack: over every run in which no party has
    gone on without the sctx mutex the thread touches neither a freed command nor a completion whose owner
    is back, and an owner touches a freed command exactly when the command was freed while it still pointed
    to the completion. */
module CmdLifetime {
  import opened CmdProtocol
  import opened CmdOrder
  import opened CmdOutcome

  predicate Intruded(s: St) {
    s.threadIntruded || s.ownerIntruded
  }

  // ---------- one command ----------

  /** The owner may still clear the command's pointer. */
  predicate Watches(o: Owner) {
    o == Waiting || o == Locking || o == Checking || o == Detaching
  }

  predicate Signalling(spot: Spot) {
    spot == At(Completing) || spot == At(Clearing)
  }

  predicate Detached(spot: Spot) {
    spot == At(Unlocking) || spot == At(Finishing)
  }

  /** The pointer to the completion and the owner's progress. */
  predicate Linked(j: Job, spot: Spot) {
    && (j.attached && !j.freed ==> Watches(j.owner))
    && (Watches(j.owner) && j.status == Submitted ==> j.attached)
    && (j.owner == Detaching ==> j.status == Submitted)
    && (j.attached && j.status != Submitted ==> Signalling(spot))
    && (Signalling(spot) ==> j.attached && j.status != Submitted)
    && (spot == At(Marking) ==> j.attached)
    && (Detached(spot) ==> !j.attached)
  }

  /** The command was freed with its pointer in place. */
  predicate Orphaned(j: Job) {
    j.freed && j.attached
  }

  predicate Passed(o: Owner) {
    o == Releasing || o == Reporting || o.Returned?
  }

  predicate Blamed(j: Job, mine: bool, hurt: bool) {
    && (mine <==> Inside(j.owner))
    && (hurt <==> Orphaned(j) && Passed(j.owner))
    && (j.attached ==> j.owner != Absent)
  }

  predicate JobOk(j: Job, spot: Spot, mine: bool, hurt: bool) {
    Judged(j, spot) && Linked(j, spot) && Blamed(j, mine, hurt)
  }

  // ---------- all of them ----------

  ghost predicate Ok(s: St, i: Id)
    requires i < |s.jobs|
  {
    JobOk(s.jobs[i], SpotOf(s, i), s.mutex == ByOwner(i), OfOwner(i) in s.faults)
  }

  predicate ThreadOk(s: St) {
    && (s.mutex == Thread <==> s.pc.Working? && Locked(s.pc.stage))
    && (s.mutex.ByOwner? ==> s.mutex.id < |s.jobs|)
    && (s.pc.Working? ==> s.pc.id < |s.jobs|)
  }

  ghost predicate NoThreadFault(s: St) {
    forall f :: f in s.faults ==> f.OfOwner? && f.id < |s.jobs|
  }

  ghost predicate AllOk(s: St) {
    forall i :: 0 <= i < |s.jobs| ==> Ok(s, i)
  }

  ghost predicate Guarded(s: St) {
    ThreadOk(s) && NoThreadFault(s) && AllOk(s)
  }

  // ---------- the thread's step, for the command in hand ----------

  lemma {:induction false} TreatedOk(j: Job, stage: Stage, mine: bool, hurt: bool, env: Env)
    requires JobOk(j, At(stage), mine, hurt) && stage != Vetting && stage != Finishing
    requires stage == Entering || Locked(stage) ==> !mine
    ensures JobOk(Treated(j, stage, env), At(Following(j, stage)), mine, hurt)
  {
    TreatedJudged(j, stage, env);
    hide Reported, Woken;
  }

  lemma {:induction false} FinishedOk(j: Job, mine: bool, hurt: bool, env: Env)
    requires JobOk(j, At(Finishing), mine, hurt)
    ensures JobOk(Treated(j, Finishing, env), Away, mine, hurt)
  {
    FinishedJudged(j, env);
    hide Reported, Woken, Keeps;
  }

  lemma {:induction false} HarmsNobody(j: Job, stage: Stage, mine: bool, hurt: bool)
    requires JobOk(j, At(stage), mine, hurt)
    ensures !Harms(j, stage)
  {
    hide Reported, Woken;
  }

  /** Refused, put back or passed on: in each case the handler has not run. */
  lemma {:induction false} VettedOk(j: Job, res: nat, spot: Spot, mine: bool, hurt: bool)
    requires JobOk(j, At(Vetting), mine, hurt)
    requires spot == Away || spot == At(Handling) || (spot == At(Entering) && res != H2C_SUCCESS)
    ensures JobOk(j.(res := res), spot, mine, hurt)
  {
    VettedJudged(j, res, spot);
    hide Reported, Woken;
  }

  // ---------- the thread's step ----------

  lemma {:induction false} OthersOk(s: St, t: St, i: Id)
    requires AllOk(s) && |t.jobs| == |s.jobs|
    requires forall k :: 0 <= k < |s.jobs| && k != i ==>
      t.jobs[k] == s.jobs[k] && SpotOf(t, k) == SpotOf(s, k)
      && (t.mutex == ByOwner(k) <==> s.mutex == ByOwner(k)) && (OfOwner(k) in t.faults <==> OfOwner(k) in s.faults)
    requires i < |t.jobs| ==> Ok(t, i)
    ensures AllOk(t)
  {
    hide JobOk, SpotOf;
    forall k | 0 <= k < |t.jobs|
      ensures Ok(t, k)
    {
      assert k != i ==> Ok(s, k);
    }
  }

  lemma {:induction false} WorkedGuarded(s: St, stage: Stage, i: Id, env: Env)
    requires Guarded(s) && s.pc == Working(stage, i) && stage != Vetting
    requires !Worked(s, stage, i, env).threadIntruded
    ensures Guarded(Worked(s, stage, i, env))
  {
    var j := s.jobs[i];
    var t := Worked(s, stage, i, env);
    assert Ok(s, i);
    if t != s {
      hide JobOk, Treated, Following;
      if stage == Finishing {
        FinishedOk(j, s.mutex == ByOwner(i), OfOwner(i) in s.faults, env);
      } else {
        FollowingLocked(j, stage);
        TreatedOk(j, stage, s.mutex == ByOwner(i), OfOwner(i) in s.faults, env);
      }
      OthersOk(s, t, i);
    }
  }

  lemma {:induction false} FollowingLocked(j: Job, stage: Stage)
    requires stage != Vetting && stage != Finishing
    ensures Locked(Following(j, stage)) <==> (Locked(stage) && stage != Unlocking) || stage == Entering
  {
  }

  lemma {:induction false} VettedGuarded(s: St, i: Id, env: Env)
    requires Guarded(s) && s.pc == Working(Vetting, i)
    ensures Guarded(Vetted(s, i, env))
  {
    var t := Vetted(s, i, env);
    var res := VettedIs(s, i, env);
    assert Ok(s, i);
    hide JobOk, Vetted;
    VettedOk(s.jobs[i], res, SpotOf(t, i), s.mutex == ByOwner(i), OfOwner(i) in s.faults);
    OthersOk(s, t, i);
  }

  lemma {:induction false} TakenOk(j: Job, mine: bool, hurt: bool)
    requires JobOk(j, Away, mine, hurt) && !j.over
    ensures JobOk(j, At(Vetting), mine, hurt) && JobOk(Gone(j), Away, mine, hurt)
  {
    TakenJudged(j);
    hide Reported, Woken;
  }

  lemma {:induction false} PolledGuarded(s: St, env: Env)
    requires Guarded(s) && Traced(s) && Idle(s.pc)
    ensures Guarded(Polled(s, env))
  {
    hide JobOk, Traced, Polled, Locked;
    var t := Polled(s, env);
    PolledIs(s, env);
    if s.queue != [] && (s.pc == Draining || s.pc == Taking) {
      var i := s.queue[0];
      QueuedAlive(s);
      assert Ok(s, i);
      TakenOk(s.jobs[i], s.mutex == ByOwner(i), OfOwner(i) in s.faults);
      if s.pc == Draining {
        FrontDropped(s, env);
      } else {
        FrontTaken(s, env);
      }
      VettingIsOutside();
      OthersOk(s, t, i);
    } else {
      StaysIdle(s, env);
      OthersOk(s, t, |s.jobs|);
    }
  }

  lemma {:induction false} ThreadHarmsNobody(s: St)
    requires Guarded(s) && s.pc.Working?
    ensures !Harms(s.jobs[s.pc.id], s.pc.stage)
  {
    var i := s.pc.id;
    assert Ok(s, i);
    hide JobOk, Harms;
    HarmsNobody(s.jobs[i], s.pc.stage, s.mutex == ByOwner(i), OfOwner(i) in s.faults);
  }

  lemma {:induction false} ThreadGuarded(s: St, env: Env)
    requires Guarded(s) && Traced(s) && !ThreadStep(s, env).threadIntruded
    ensures Guarded(ThreadStep(s, env))
  {
    if Idle(s.pc) {
      hide Guarded, Polled, Traced;
      PolledGuarded(s, env);
    } else {
      ThreadHarmsNobody(s);
      assert s.pc.id < |s.jobs|;
      var i := s.pc.id;
      hide Guarded, Vetted, Worked, Traced, Harms;
      if s.pc.stage == Vetting {
        VettedGuarded(s, i, env);
        assert ThreadStep(s, env).faults == s.faults;
        VettedFaults(s, i, env);
      } else {
        WorkedGuarded(s, s.pc.stage, i, env);
        assert ThreadStep(s, env).faults == s.faults;
        WorkedFaults(s, s.pc.stage, i, env);
      }
    }
  }

  lemma {:induction false} VettedFaults(s: St, i: Id, env: Env)
    requires i < |s.jobs|
    ensures Vetted(s, i, env).(faults := s.faults) == Vetted(s, i, env)
  {
  }

  lemma {:induction false} WorkedFaults(s: St, stage: Stage, i: Id, env: Env)
    requires i < |s.jobs| && stage != Vetting
    ensures Worked(s, stage, i, env).(faults := s.faults) == Worked(s, stage, i, env)
  {
  }

  // ---------- an owner's step ----------

  lemma {:induction false} ActedOk(j: Job, spot: Spot, free: bool, mine: bool, hurt: bool, cut: bool)
    requires JobOk(j, spot, mine, hurt)
    requires free ==> !mine
    requires j.owner == Locking && cut ==> free
    requires mine || free ==> !(spot.At? && Locked(spot.stage))
    ensures JobOk(Acted(j, free, cut), spot,
                  if j.owner == Locking && free then true else if j.owner == Releasing then false else mine,
                  hurt || (j.owner == Detaching && j.freed))
  {
    ActedJudged(j, spot, free, cut);
    hide Reported, Judged;
    JudgedGone(j, spot);
  }

  lemma JudgedGone(j: Job, spot: Spot)
    requires Judged(j, spot)
    ensures (spot != Away ==> !j.over) && (j.freed ==> j.over)
    ensures j.signalled || Woken(j) ==> j.status != Submitted
  {
  }

  lemma {:induction false} OwnerGuarded(s: St, i: Id, cut: bool)
    requires Guarded(s) && !OwnerStep(s, i, cut).ownerIntruded
    ensures Guarded(OwnerStep(s, i, cut))
  {
    if i < |s.jobs| {
      var j := s.jobs[i];
      var t := OwnerStep(s, i, cut);
      assert Ok(s, i);
      OwnerMutex(j, SpotOf(s, i), s.mutex == ByOwner(i), OfOwner(i) in s.faults);
      hide JobOk, Acted, Inside;
      ActedOk(j, SpotOf(s, i), s.mutex == Nobody, s.mutex == ByOwner(i), OfOwner(i) in s.faults, cut);
      OthersOk(s, t, i);
    }
  }

  lemma {:induction false} OwnerMutex(j: Job, spot: Spot, mine: bool, hurt: bool)
    requires JobOk(j, spot, mine, hurt)
    ensures j.owner == Releasing ==> mine
  {
  }

  // ---------- the others ----------

  lemma {:induction false} NewJobOk(c: Cmd)
    ensures JobOk(NewJob(c), Away, false, false)
  {
  }

  lemma {:induction false} EnqueuedGuarded(s: St, c: Cmd)
    requires Guarded(s)
    ensures Guarded(Enqueued(s, c))
  {
    hide JobOk, NewJob, Enqueued, SpotOf, Locked;
    var t := Enqueued(s, c);
    EnqueuedIs(s, c);
    NewJobOk(c);
    NotInHand(t, |s.jobs|);
    SamePlace(s, t);
    forall k | 0 <= k < |t.jobs|
      ensures Ok(t, k)
    {
      if k < |s.jobs| {
        assert Ok(s, k);
      }
    }
  }

  lemma {:induction false} OutsideGuarded(s: St, a: Action)
    requires Guarded(s) && Outside(a)
    ensures Guarded(Step(s, a))
  {
    hide JobOk, Step;
    OutsideIs(s, a);
    OthersOk(s, Step(s, a), |s.jobs|);
  }

  lemma {:induction false} StepGuarded(s: St, a: Action)
    requires Guarded(s) && Traced(s) && !Intruded(Step(s, a))
    ensures Guarded(Step(s, a))
  {
    hide Guarded, Traced, Enqueued, ThreadStep, OwnerStep;
    match a {
      case Enqueue(c) => EnqueuedGuarded(s, c);
      case ThreadAct(env) => ThreadGuarded(s, env);
      case OwnerAct(i, cut) => OwnerGuarded(s, i, cut);
      case _ => OutsideGuarded(s, a);
    }
  }

  // ---------- who has intruded has intruded ----------

  lemma {:induction false} StepRemembers(s: St, a: Action)
    ensures s.threadIntruded ==> Step(s, a).threadIntruded
    ensures s.ownerIntruded ==> Step(s, a).ownerIntruded
  {
    hide ThreadStep, StopStep, SpawnerStep, Acted, Enqueued;
    if a.ThreadAct? {
      ThreadIs(s, a.env);
    } else if a.Enqueue? {
      EnqueuedIs(s, a.cmd);
    } else if Outside(a) {
      OutsideIs(s, a);
    }
  }

  lemma {:induction false} RunRemembers(s: St, run: seq<Action>)
    ensures s.threadIntruded ==> Run(s, run).threadIntruded
    ensures s.ownerIntruded ==> Run(s, run).ownerIntruded
    decreases |run|
  {
    if run != [] {
      StepRemembers(s, run[0]);
      hide Step;
      RunRemembers(Step(s, run[0]), run[1..]);
    }
  }

  lemma {:induction false} RunGuarded(s: St, run: seq<Action>)
    requires Guarded(s) && Traced(s) && !Intruded(Run(s, run))
    ensures Guarded(Run(s, run))
    decreases |run|
  {
    if run != [] {
      hide Guarded, Traced, Step;
      RunRemembers(Step(s, run[0]), run[1..]);
      StepGuarded(s, run[0]);
      StepKeepsTrace(s, run[0]);
      RunGuarded(Step(s, run[0]), run[1..]);
    }
  }

  // ---------- over runs ----------

  lemma StartsGuarded(lclk: bool)
    ensures Guarded(Init(lclk)) && Traced(Init(lclk))
  {
  }

  lemma {:induction false} OrphansIn(s: St)
    requires Guarded(s)
    ensures forall f :: f in s.faults ==> f.OfOwner? && f.id < |s.jobs|
    ensures forall i :: 0 <= i < |s.jobs| ==> (OfOwner(i) in s.faults <==> Orphaned(s.jobs[i]) && Passed(s.jobs[i].owner))
  {
    hide Judged, Linked, Orphaned, Passed, ThreadOk;
    forall i | 0 <= i < |s.jobs|
      ensures OfOwner(i) in s.faults <==> Orphaned(s.jobs[i]) && Passed(s.jobs[i].owner)
    {
      assert Ok(s, i);
    }
  }

  /** In every reachable state, as long as no party has gone on without the mutex: the thread has never
      touched freed memory or a completion whose owner was back; and an owner that has come to clear its
      command's pointer has written to freed memory exactly when the command had been freed with the pointer
      in place. */
  lemma {:induction false} OnlyOrphansHarm(lclk: bool, run: seq<Action>)
    requires !Intruded(Run(Init(lclk), run))
    ensures
      var s := Run(Init(lclk), run);
      && (forall f :: f in s.faults ==> f.OfOwner? && f.id < |s.jobs|)
      && (forall i :: 0 <= i < |s.jobs| ==>
            (OfOwner(i) in s.faults <==> Orphaned(s.jobs[i]) && Passed(s.jobs[i].owner)))
  {
    hide Run, Guarded, Traced, Init;
    StartsGuarded(lclk);
    RunGuarded(Init(lclk), run);
    OrphansIn(Run(Init(lclk), run));
  }

  lemma {:induction false} OneInsideIn(s: St, i: Id, k: Id)
    requires Guarded(s) && i < |s.jobs| && k < |s.jobs| && Inside(s.jobs[i].owner)
    ensures (Inside(s.jobs[k].owner) ==> i == k) && !(s.pc.Working? && Locked(s.pc.stage))
  {
    hide Linked, Judged, SpotOf;
    assert Ok(s, i) && Ok(s, k);
  }

  /** The sctx mutex, as long as no party has gone on without it: no two owners are inside together, nor an
      owner and the thread. */
  lemma {:induction false} OneInside(lclk: bool, run: seq<Action>, i: Id, k: Id)
    requires var s := Run(Init(lclk), run);
      !Intruded(s) && i < |s.jobs| && k < |s.jobs| && Inside(s.jobs[i].owner)
    ensures var s := Run(Init(lclk), run);
      && (Inside(s.jobs[k].owner) ==> i == k)
      && !(s.pc.Working? && Locked(s.pc.stage))
  {
    hide Run, Guarded, Traced, Init;
    StartsGuarded(lclk);
    RunGuarded(Init(lclk), run);
    OneInsideIn(Run(Init(lclk), run), i, k);
  }
}
