/** Without a stop request every accepted command is finished, however submitters, waiting owners and the
    power state move in between. */
module CmdProgress {
  import opened CmdProtocol
  import opened CmdOrder
  import CmdOutcome
  import CmdWakeup

  /** The thread serves: it is up, and not on its way out. */
  predicate Serving(pc: Pc) {
    !Starts(pc) && pc != Announcing && pc != Leaving && !Leaves(pc)
  }

  /** No stopper moves, and the thread's turns meet no signal and no stopped adapter. */
  predicate Calm(a: Action) {
    match a
    case ThreadAct(env) => !env.interrupted && !env.cannotRun
    case StopAct(_, _) => false
    case _ => true
  }

  function StageWork(stage: Stage): nat {
    match stage
    case Vetting => 12
    case Handling => 11
    case Entering => 10
    case Looking => 9
    case Marking => 8
    case Completing => 7
    case Clearing => 6
    case Unlocking => 5
    case Finishing => 4
  }

  function PcWork(pc: Pc): nat {
    match pc
    case ChkRun => 6
    case ChkStop => 5
    case ChkEmpty => 4
    case Next => 3
    case Taking => 2
    case Working(stage, _) => StageWork(stage)
    case _ => 0
  }

  /** The turns that are left: eleven for a queued command and seven for a count of the semaphore. */
  function Work(s: St): nat {
    PcWork(s.pc) + 11 * |s.queue| + 7 * s.sema
  }

  /** What a step of another party adds to that. */
  function Charge(a: Action): nat {
    if a.Enqueue? then 18 else if a.PowerUp? then 7 else 0
  }

  function Charges(run: seq<Action>): nat {
    if run == [] then 0 else Charge(run[0]) + Charges(run[1..])
  }

  ghost predicate Ready(s: St) {
    Traced(s) && CmdOutcome.Held(s) && CmdWakeup.Woken(s) && !s.stopReq && Serving(s.pc)
  }

  predicate Resting(s: St) {
    s.pc == Sema && s.sema == 0
  }

  /** A turn of the thread that is lost neither to an owner inside the sctx mutex nor to a command that
      waits for power. */
  predicate Counts(s: St, a: Action) {
    a.ThreadAct? && !s.mutex.ByOwner? && !(Resting(s) && s.queue != [])
  }

  function Turns(s: St, run: seq<Action>): nat
    decreases |run|
  {
    if run == [] then 0 else (if Counts(s, run[0]) then 1 else 0) + Turns(Step(s, run[0]), run[1..])
  }

  // ---------- one turn of the thread ----------

  predicate Onwards(s: St, t: St) {
    && t.stopReq == s.stopReq && t.accepted == s.accepted && s.finished <= t.finished
    && Serving(t.pc)
    && (t == s || Work(t) < Work(s))
    && (t == s ==> Resting(s) || s.mutex.ByOwner?)
  }

  lemma {:induction false} PolledOnwards(s: St, env: Env)
    requires Idle(s.pc) && Serving(s.pc) && !s.stopReq && !env.interrupted && !env.cannotRun
    ensures Onwards(s, Polled(s, env))
  {
  }

  lemma {:induction false} VettedOnwards(s: St, i: Id, env: Env)
    requires s.pc == Working(Vetting, i) && i < |s.jobs|
    ensures Onwards(s, Vetted(s, i, env)) && Vetted(s, i, env).pc != s.pc
  {
    hide Vetted;
    var _ := VettedIs(s, i, env);
  }

  lemma FollowingIsLess(j: Job, stage: Stage)
    requires stage != Vetting
    ensures stage != Finishing ==> StageWork(Following(j, stage)) < StageWork(stage) && Following(j, stage) != stage
    ensures StageWork(Finishing) > PcWork(Next)
  {
  }

  lemma {:induction false} WorkedOnwards(s: St, stage: Stage, i: Id, env: Env)
    requires s.pc == Working(stage, i) && stage != Vetting && i < |s.jobs|
    requires stage == Entering ==> s.mutex != Thread
    ensures Onwards(s, Worked(s, stage, i, env))
    ensures Worked(s, stage, i, env) == s || Worked(s, stage, i, env).pc != s.pc
  {
    hide Worked;
    WorkedIs(s, stage, i, env);
    WorkedGoes(s, stage, i, env);
    FollowingIsLess(s.jobs[i], stage);
    hide Following, StageWork;
  }

  lemma {:induction false} ThreadOnwards(s: St, env: Env)
    requires Ready(s) && !env.interrupted && !env.cannotRun
    ensures Onwards(s, ThreadStep(s, env))
  {
    hide Polled, Vetted, Worked, Harms, Onwards, Traced, CmdWakeup.Woken, CmdOutcome.Held;
    HandKnown(s);
    if Idle(s.pc) {
      PolledOnwards(s, env);
    } else {
      var i := s.pc.id;
      var t := if s.pc.stage == Vetting then Vetted(s, i, env) else Worked(s, s.pc.stage, i, env);
      if s.pc.stage == Vetting {
        VettedOnwards(s, i, env);
      } else {
        MutexIs(s);
        WorkedOnwards(s, s.pc.stage, i, env);
      }
      if t == s {
        WaitsUnharmed(s, env);
      } else {
        FaultsOnwards(s, t, ThreadStep(s, env).faults);
      }
    }
  }

  /** A step that changes nothing else harms nobody. */
  lemma {:induction false} WaitsUnharmed(s: St, env: Env)
    requires Traced(s) && s.pc.Working? && s.pc.id < |s.jobs|
    requires (if s.pc.stage == Vetting then Vetted(s, s.pc.id, env) else Worked(s, s.pc.stage, s.pc.id, env)) == s
    ensures ThreadStep(s, env) == s
  {
    hide Traced, Treated, Refusal, PutsBack;
    HandKnown(s);
    assert s.faults + {} == s.faults;
  }

  lemma FaultsOnwards(s: St, t: St, faults: set<Fault>)
    requires Onwards(s, t) && t != s && s.pc != t.pc
    ensures Onwards(s, t.(faults := faults))
  {
  }

  lemma MutexIs(s: St)
    requires CmdOutcome.Held(s)
    ensures s.pc.Working? && s.pc.stage == Entering ==> s.mutex != Thread
  {
  }

  // ---------- one step of another party ----------

  lemma {:induction false} OthersOnwards(s: St, a: Action)
    requires Calm(a) && !a.ThreadAct? && !s.stopReq
    ensures
      var t := Step(s, a);
      && t.pc == s.pc && t.stopReq == s.stopReq && s.accepted <= t.accepted && t.finished == s.finished
      && Work(t) <= Work(s) + Charge(a)
  {
    hide Acted, Enqueued, PcWork;
    if a.Enqueue? {
      EnqueuedIs(s, a.cmd);
      EnqueuedUp(s, a.cmd);
    }
  }

  /** Every step keeps the thread serving, only its price is added to the work, and a turn that counts does
      some of the work unless the thread is at rest. */
  lemma {:induction false} StepOnwards(s: St, a: Action)
    requires Ready(s) && Calm(a)
    ensures
      var t := Step(s, a);
      && Ready(t) && s.accepted <= t.accepted && s.finished <= t.finished
      && Work(t) <= Work(s) + Charge(a)
      && (Counts(s, a) && !Resting(s) ==> Work(t) < Work(s))
  {
    TracedPhase(s);
    StepKeepsTrace(s, a);
    CmdOutcome.StepHeld(s, a);
    CmdWakeup.StepWoken(s, a);
    if a.ThreadAct? {
      ThreadOnwards(s, a.env);
    } else {
      OthersOnwards(s, a);
    }
    hide Traced, CmdOutcome.Held, CmdWakeup.Woken, ThreadStep, Step, Work;
  }

  // ---------- the run ----------

  lemma {:induction false} AtRest(s: St)
    requires Ready(s) && Resting(s) && s.queue == []
    ensures s.finished == s.accepted
  {
    hide CmdOutcome.Held;
    TracedPhase(s);
  }

  lemma {:induction false} FinishedGrows(s: St, more: seq<Action>)
    requires Ready(s) && forall a :: a in more ==> Calm(a)
    ensures s.finished <= Run(s, more).finished
    decreases |more|
  {
    if more != [] {
      assert more[0] in more;
      StepOnwards(s, more[0]);
      hide Ready, Step, Work, Calm;
      assert forall a :: a in more[1..] ==> a in more;
      FinishedGrows(Step(s, more[0]), more[1..]);
    }
  }

  lemma {:induction false} ServesAll(s: St, more: seq<Action>)
    requires Ready(s) && Turns(s, more) > Work(s) + Charges(more)
    requires forall a :: a in more ==> Calm(a)
    ensures s.accepted <= Run(s, more).finished
    decreases |more|
  {
    var a := more[0];
    assert a in more;
    assert forall x :: x in more[1..] ==> x in more;
    StepOnwards(s, a);
    hide Ready, Step, Work, Calm;
    if Counts(s, a) && Resting(s) {
      AtRest(s);
      FinishedGrows(Step(s, a), more[1..]);
    } else {
      ServesAll(Step(s, a), more[1..]);
    }
  }

  lemma WorkBound(s: St)
    ensures Work(s) <= 12 + 11 * |s.queue| + 7 * s.sema
  {
  }

  /** In any reachable state without a stop request and with the thread up, and for any continuation in
      which no stopper moves: when more turns of the thread count than eleven for each queued command, seven
      for each count of the semaphore, twelve, 18 for each command submitted meanwhile and 7 for each
      power-up, then every command accepted by now has been finished, in order. */
  lemma {:induction false} EveryCommandIsFinished(lclk: bool, run: seq<Action>, more: seq<Action>)
    requires
      var s := Run(Init(lclk), run);
      && !s.stopReq && Serving(s.pc)
      && Turns(s, more) > 12 + 11 * |s.queue| + 7 * s.sema + Charges(more)
    requires forall a :: a in more ==> Calm(a)
    ensures
      var s := Run(Init(lclk), run);
      s.accepted <= Run(s, more).finished
  {
    hide Run, Turns, Work, Calm, Init;
    var s := Run(Init(lclk), run);
    Reached(lclk, run);
    WorkBound(s);
    hide Traced, CmdOutcome.Held, CmdWakeup.Woken;
    ServesAll(s, more);
  }

  lemma {:induction false} Reached(lclk: bool, run: seq<Action>)
    ensures
      var s := Run(Init(lclk), run);
      Traced(s) && CmdOutcome.Held(s) && CmdWakeup.Woken(s) && s.lclk == lclk
  {
    RunKeepsTrace(Init(lclk), run);
    CmdOutcome.BeginsSo(lclk);
    CmdOutcome.RunHeld(Init(lclk), run);
    CmdWakeup.RunWoken(Init(lclk), run);
    CmdWakeup.RunLclk(Init(lclk), run);
    hide Run, Traced, CmdOutcome.Held, CmdWakeup.Woken;
  }

  /** Which turns count: without power saving all but those that find an owner inside the sctx mutex; with
      it, also not those that find the first command put back and the semaphore down. */
  lemma {:induction false} TurnsThatCount(lclk: bool, run: seq<Action>, env: Env)
    ensures
      var s := Run(Init(lclk), run);
      && (!lclk ==> (Counts(s, ThreadAct(env)) <==> !s.mutex.ByOwner?))
      && (!s.mutex.ByOwner? && !Counts(s, ThreadAct(env)) ==> s.sema == 0 && CmdWakeup.HeadPutBack(s))
  {
    hide Run, Init;
    Reached(lclk, run);
    hide Traced, CmdOutcome.Held;
  }
}
