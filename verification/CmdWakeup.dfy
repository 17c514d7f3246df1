/** The two semaphores over every run: no command is forgotten in the queue, no stop request goes
    unheard, and a stop that has waited for the thread's end leaves an empty and closed queue. */
module CmdWakeup {
  import opened CmdProtocol
  import opened CmdOrder
  import opened CmdRuns

  // ---------- commands ----------

  /** The first command has been put back, to wait for power. */
  predicate HeadPutBack(s: St) {
    s.lclk && s.queue != [] && s.queue[0] < |s.jobs| && s.jobs[s.queue[0]].res == H2C_ENQ_HEAD
  }

  predicate Arriving(pc: Pc) {
    pc == Announcing || pc == Sema
  }

  predicate Woken(s: St) {
    Arriving(s.pc) ==> |s.queue| <= s.sema || HeadPutBack(s)
  }

  lemma WorkedPc(s: St, stage: Stage, i: Id, env: Env)
    requires i < |s.jobs| && stage != Vetting && s.pc == Working(stage, i)
    ensures !Arriving(Worked(s, stage, i, env).pc)
  {
    hide Worked, Following;
    WorkedGoes(s, stage, i, env);
  }

  lemma {:induction false} VettedWoken(s: St, i: Id, env: Env)
    requires i < |s.jobs|
    ensures Woken(Vetted(s, i, env))
  {
    hide Refusal;
  }

  lemma {:induction false} PolledWoken(s: St, env: Env)
    requires Woken(s) && Phase(s) && Idle(s.pc)
    ensures Woken(Polled(s, env))
  {
    hide Polled, HeadPutBack;
    PolledPc(s, env);
    if Arriving(Polled(s, env).pc) {
      StillThere(s, env);
      SameHead(s, Polled(s, env));
    }
  }

  /** Coming to the semaphore, or staying there, changes neither queue nor semaphore. */
  lemma StillThere(s: St, env: Env)
    requires Idle(s.pc) && Arriving(Polled(s, env).pc)
    ensures
      var t := Polled(s, env);
      t.queue == s.queue && t.sema == s.sema && t.jobs == s.jobs && t.lclk == s.lclk
  {
    hide Gone;
  }

  lemma SameHead(s: St, t: St)
    requires t.queue == s.queue && t.jobs == s.jobs && t.lclk == s.lclk
    ensures HeadPutBack(t) == HeadPutBack(s)
  {
  }

  lemma {:induction false} FaultsWoken(s: St, faults: set<Fault>)
    requires Woken(s)
    ensures Woken(s.(faults := faults))
  {
  }

  lemma {:induction false} ThreadWoken(s: St, env: Env)
    requires Woken(s) && Phase(s)
    ensures Woken(ThreadStep(s, env))
  {
    hide Woken, Polled, Vetted, Worked, Harms, Phase;
    if Idle(s.pc) {
      PolledWoken(s, env);
    } else if s.pc.id < |s.jobs| {
      var i := s.pc.id;
      var t := if s.pc.stage == Vetting then Vetted(s, i, env) else Worked(s, s.pc.stage, i, env);
      if s.pc.stage == Vetting {
        VettedWoken(s, i, env);
      } else {
        WorkedPc(s, s.pc.stage, i, env);
        NotArriving(t);
      }
      FaultsWoken(t, ThreadStep(s, env).faults);
    }
  }

  lemma {:induction false} NotArriving(s: St)
    requires !Arriving(s.pc)
    ensures Woken(s)
  {
  }

  lemma {:induction false} EnqueuedWoken(s: St, c: Cmd)
    requires Woken(s)
    ensures Woken(Enqueued(s, c))
  {
    hide Enqueued, NewJob;
    EnqueuedIs(s, c);
    EnqueuedUp(s, c);
  }

  lemma {:induction false} OwnerWoken(s: St, i: Id, cut: bool)
    requires Woken(s)
    ensures Woken(OwnerStep(s, i, cut))
  {
    if i < |s.jobs| {
      assert Acted(s.jobs[i], s.mutex == Nobody, cut).res == s.jobs[i].res;
      hide Acted;
    }
  }

  lemma {:induction false} OutsideWoken(s: St, a: Action)
    requires Woken(s) && Outside(a)
    ensures Woken(Step(s, a))
  {
    hide Step;
    OutsideIs(s, a);
  }

  lemma {:induction false} StepWoken(s: St, a: Action)
    requires Woken(s) && Phase(s)
    ensures Woken(Step(s, a))
  {
    hide Woken, Phase, Enqueued, ThreadStep, OwnerStep;
    match a {
      case Enqueue(c) => EnqueuedWoken(s, c);
      case ThreadAct(env) => ThreadWoken(s, env);
      case OwnerAct(i, cut) => OwnerWoken(s, i, cut);
      case _ => OutsideWoken(s, a);
    }
  }

  lemma {:induction false} RunWoken(s: St, run: seq<Action>)
    requires Woken(s) && Traced(s)
    ensures Woken(Run(s, run))
    decreases |run|
  {
    if run != [] {
      TracedPhase(s);
      hide Woken, Traced, Step;
      StepWoken(s, run[0]);
      StepKeepsTrace(s, run[0]);
      RunWoken(Step(s, run[0]), run[1..]);
    }
  }

  /** In every reachable state: when the thread is at its semaphore and a command is queued, the semaphore
      is up, unless power saving is built in and the first command has been put back.  Without power
      saving no wake-up is ever lost. */
  lemma {:induction false} NoLostWakeUp(lclk: bool, run: seq<Action>)
    ensures
      var s := Run(Init(lclk), run);
      && (s.pc == Sema && s.queue != [] ==> s.sema > 0 || HeadPutBack(s))
      && (s.pc == Sema && s.queue != [] && !lclk ==> s.sema > 0)
  {
    RunWoken(Init(lclk), run);
    RunLclk(Init(lclk), run);
    hide Run;
  }

  lemma {:induction false} StepLclk(s: St, a: Action)
    ensures Step(s, a).lclk == s.lclk
  {
    hide ThreadStep, Enqueued, StopStep, SpawnerStep, Acted;
    if a.ThreadAct? {
      ThreadIs(s, a.env);
    } else if a.Enqueue? {
      EnqueuedIs(s, a.cmd);
    } else if Outside(a) {
      OutsideIs(s, a);
    }
  }

  lemma {:induction false} RunLclk(s: St, run: seq<Action>)
    ensures Run(s, run).lclk == s.lclk
    decreases |run|
  {
    if run != [] {
      StepLclk(s, run[0]);
      hide Step;
      RunLclk(Step(s, run[0]), run[1..]);
    }
  }

  // ---------- what putting back loses ----------

  /** Steps that raise no semaphore of the thread and interrupt nothing. */
  predicate Quiet(a: Action) {
    match a
    case HwInit(_) => true
    case ThreadAct(env) => !env.interrupted
    case OwnerAct(_, _) => true
    case StopCall => true
    case SpawnerAct(_) => true
    case _ => false
  }

  /** It stays asleep until someone raises the semaphore. */
  lemma {:induction false} SleepsOn(s: St, run: seq<Action>)
    requires s.pc == Sema && s.sema == 0
    requires forall a :: a in run ==> Quiet(a)
    ensures Run(s, run).pc == Sema && Run(s, run).queue == s.queue
    decreases |run|
  {
    if run != [] {
      SleepsOneStep(s, run[0]);
      hide Step, Quiet;
      assert forall a :: a in run[1..] ==> a in run;
      SleepsOn(Step(s, run[0]), run[1..]);
    }
  }

  lemma SleepsOneTurn(s: St, env: Env)
    requires s.pc == Sema && s.sema == 0 && !env.interrupted
    ensures ThreadStep(s, env) == s
  {
  }

  lemma {:induction false} SleepsOneStep(s: St, a: Action)
    requires s.pc == Sema && s.sema == 0 && Quiet(a)
    ensures var t := Step(s, a); t.pc == Sema && t.sema == 0 && t.queue == s.queue
  {
    hide Acted, ThreadStep, Enqueued, StopStep;
    if a.ThreadAct? {
      SleepsOneTurn(s, a.env);
    }
  }

  /** Putting a command back raises no semaphore.  If it was up the thread goes on with its next step; if it
      was down the thread sleeps beside its work, through every run in which nobody raises it. */
  lemma {:induction false} PutBackSleeps(s: St, env: Env, run: seq<Action>, next: Env)
    requires s.pc.Working? && s.pc.stage == Vetting && s.pc.id < |s.jobs|
    requires var c := s.jobs[s.pc.id].cmd; Refusal(s, c) == H2C_SUCCESS && PutsBack(s, c, env)
    requires (forall a :: a in run ==> Quiet(a)) && !next.interrupted
    ensures
      var t := ThreadStep(s, env);
      && t.pc == Sema && t.queue == [s.pc.id] + s.queue && t.sema == s.sema && HeadPutBack(t)
      && (s.sema > 0 ==> ThreadStep(t, next).pc == ChkRun)
      && (s.sema == 0 ==> Run(t, run).pc == Sema && Run(t, run).queue == t.queue)
  {
    hide Refusal, Harms, Run, Quiet;
    if s.sema == 0 {
      SleepsOn(ThreadStep(s, env), run);
    }
  }

  const UNPOWERED := Env(false, false, false, H2C_SUCCESS)
  const TURN := ThreadAct(UNPOWERED)

  /** The state in which the thread has taken its only command and is about to ask for power. */
  function Asking(c: Cmd): St {
    Up(true).(jobs := [NewJob(c)], accepted := [0], pc := Working(Vetting, 0))
  }

  lemma {:induction false} ComesToAsk(c: Cmd)
    requires c.size <= MAX_CMDSZ
    ensures Run(Step(Up(true), Enqueue(c)), [TURN] + [TURN] + [TURN] + [TURN] + [TURN] + [TURN]) == Asking(c)
  {
    var s := Step(Up(true), Enqueue(c));
    var s1 := Step(s, TURN);
    assert s1 == s.(sema := 0, pc := ChkRun);
    var s3 := s1.(pc := ChkEmpty);
    TwoTurns(s1, s1.(pc := ChkStop), s3);
    TwoTurns(s3, s3.(pc := Next), s3.(pc := Taking));
    assert Step(s3.(pc := Taking), TURN) == Asking(c);
    hide Step;
    OneAct(s, TURN);
    OneAct(s3.(pc := Taking), TURN);
    RunTwo(s, [TURN], [TURN] + [TURN]);
    RunTwo(s, [TURN] + ([TURN] + [TURN]), [TURN] + [TURN]);
    RunTwo(s, [TURN] + ([TURN] + [TURN]) + ([TURN] + [TURN]), [TURN]);
    assert [TURN] + ([TURN] + [TURN]) + ([TURN] + [TURN]) + [TURN] == [TURN] + [TURN] + [TURN] + [TURN] + [TURN] + [TURN];
  }

  lemma {:induction false} TwoTurns(s: St, t: St, u: St)
    requires Step(s, TURN) == t && Step(t, TURN) == u
    ensures Run(s, [TURN] + [TURN]) == u
  {
    hide Step;
    OneAct(s, TURN);
    OneAct(t, TURN);
    RunTwo(s, [TURN], [TURN]);
  }

  /** A run that loses the wake-up: with power saving built in, one command is submitted while there is no
      power; it is put back, the semaphore is down, and so it stays whatever owners, handlers and the
      spawner do. */
  lemma {:induction false} LostWakeUpRun(quiet: seq<Action>)
    requires forall a :: a in quiet ==> Quiet(a)
    ensures
      var c := Cmd(16, false, false, true, NoWait, false);
      var run := UP + [Enqueue(c)] + ([TURN] + [TURN] + [TURN] + [TURN] + [TURN] + [TURN]) + [TURN];
      var s := Run(Init(true), run + quiet);
      s.pc == Sema && s.queue == [0]
  {
    var c := Cmd(16, false, false, true, NoWait, false);
    var six := [TURN] + [TURN] + [TURN] + [TURN] + [TURN] + [TURN];
    ComesUp(true);
    ComesToAsk(c);
    assert Refusal(Asking(c), c) == H2C_SUCCESS && PutsBack(Asking(c), c, UNPOWERED);
    PutBackSleeps(Asking(c), UNPOWERED, quiet, QUIET);
    var t := Step(Asking(c), TURN);
    assert [0] + [] == [0];
    hide Step, Quiet, Refusal, PutsBack;
    RunTwo(Init(true), UP, [Enqueue(c)]);
    OneAct(Up(true), Enqueue(c));
    RunTwo(Init(true), UP + [Enqueue(c)], six);
    OneAct(Asking(c), TURN);
    RunTwo(Init(true), UP + [Enqueue(c)] + six, [TURN]);
    RunTwo(Init(true), UP + [Enqueue(c)] + six + [TURN], quiet);
  }
}
