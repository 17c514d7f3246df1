/** Stopping the command thread: every request is heard, the thread alone ends within a bound, and a stop
    that has waited for the end leaves an empty queue that takes no more commands. */
module CmdShutdown {
  import opened CmdProtocol
  import opened CmdOrder
  import opened CmdRuns
  import CmdOutcome

  // ---------- the terminate semaphore ----------

  predicate Alive(pc: Pc) {
    !Starts(pc) && pc != Announcing
  }

  /** The thread raises the terminate semaphore once when it is up and once when it is done. */
  function Raised(pc: Pc): nat {
    (if Alive(pc) then 1 else 0) + (if pc == Done then 1 else 0)
  }

  function Taken(s: St): nat {
    s.joined + if s.spawner == Started then 1 else 0
  }

  predicate Balanced(s: St) {
    s.term + Taken(s) == Raised(s.pc)
  }

  predicate Asked(p: Stopper) {
    p == Waking || p == Awaiting || p == Joined || p == GaveUp
  }

  predicate Welcome(p: Stopper) {
    p == Requesting || Asked(p)
  }

  /** Where a raised stop request is sure to be seen without the semaphore. */
  predicate Seeing(pc: Pc) {
    pc == ChkRun || pc == ChkStop || pc == Leaving || Leaves(pc)
  }

  predicate StopperOk(s: St, p: Stopper) {
    && (Welcome(p) ==> !Starts(s.pc))
    && (Asked(p) ==> s.stopReq)
    && (p == Joined ==> s.joined > 0)
    && (p == Awaiting || p == Joined || p == GaveUp ==> Seeing(s.pc) || s.sema > 0)
  }

  ghost predicate StoppersOk(s: St) {
    forall k :: 0 <= k < |s.stops| ==> StopperOk(s, s.stops[k])
  }

  ghost predicate Heard(s: St) {
    Balanced(s) && StoppersOk(s)
  }

  // ---------- the thread's step ----------

  /** What a step of the thread does to the parts of the state that concern stopping. */
  predicate Forward(s: St, t: St) {
    Weighed(s, t) && Sighted(s, t)
  }

  predicate Weighed(s: St, t: St) {
    && t.stops == s.stops && t.joined == s.joined && t.spawner == s.spawner
    && t.term + Raised(s.pc) == s.term + Raised(t.pc)
  }

  predicate Sighted(s: St, t: St) {
    && (Starts(t.pc) ==> Starts(s.pc))
    && (s.stopReq && !Starts(s.pc) ==> t.stopReq)
    && (s.stopReq && (Seeing(s.pc) || s.sema > 0) ==> Seeing(t.pc) || t.sema > 0 || Starts(s.pc))
  }

  lemma {:induction false} ForwardHeard(s: St, t: St)
    requires Heard(s) && Forward(s, t)
    ensures Heard(t)
  {
    hide Raised, Seeing, Starts, Leaves;
    forall k | 0 <= k < |t.stops|
      ensures StopperOk(t, t.stops[k])
    {
      assert StopperOk(s, s.stops[k]);
    }
  }

  lemma {:induction false} PolledForward(s: St, env: Env)
    requires Idle(s.pc)
    ensures Forward(s, Polled(s, env))
  {
    hide Weighed, Sighted;
    PolledWeighed(s, env);
    PolledSighted(s, env);
  }

  lemma {:induction false} PolledWeighed(s: St, env: Env)
    requires Idle(s.pc)
    ensures Weighed(s, Polled(s, env))
  {
    OnwardRaises(s, env);
    hide Onward, Raised;
  }

  lemma {:induction false} OnwardRaises(s: St, env: Env)
    requires Idle(s.pc)
    ensures Raised(Onward(s, env)) == Raised(s.pc) + if s.pc == Announcing || s.pc == Ending then 1 else 0
  {
  }

  lemma {:induction false} PolledSighted(s: St, env: Env)
    requires Idle(s.pc)
    ensures Sighted(s, Polled(s, env))
  {
    OnwardSees(s, env);
    hide Onward, Seeing, Starts;
  }

  lemma {:induction false} OnwardSees(s: St, env: Env)
    requires Idle(s.pc)
    ensures
      var pc := Onward(s, env);
      && (Starts(pc) ==> s.pc == Zeroing)
      && Starts(Zeroing)
      && (s.stopReq && Seeing(s.pc) ==> Seeing(pc))
      && (s.pc == Sema && pc == ChkRun ==> Seeing(pc))
  {
  }

  lemma {:induction false} VettedForward(s: St, i: Id, env: Env)
    requires i < |s.jobs| && s.pc.Working?
    ensures Forward(s, Vetted(s, i, env))
  {
    hide Vetted;
    var _ := VettedIs(s, i, env);
  }

  lemma {:induction false} WorkedForward(s: St, stage: Stage, i: Id, env: Env)
    requires i < |s.jobs| && stage != Vetting && s.pc.Working?
    ensures Forward(s, Worked(s, stage, i, env))
  {
    hide Treated, Following;
  }

  lemma {:induction false} ThreadForward(s: St, env: Env)
    requires s.pc.Working? ==> s.pc.id < |s.jobs|
    ensures Forward(s, ThreadStep(s, env))
  {
    hide Polled, Vetted, Worked, Harms;
    if Idle(s.pc) {
      PolledForward(s, env);
    } else if s.pc.stage == Vetting {
      VettedForward(s, s.pc.id, env);
    } else {
      WorkedForward(s, s.pc.stage, s.pc.id, env);
    }
  }

  // ---------- the stoppers' and the others' steps ----------

  lemma {:induction false} StopHeard(s: St, k: nat, interrupted: bool)
    requires Heard(s) && Phase(s)
    ensures Heard(StopStep(s, k, interrupted))
  {
    if k < |s.stops| {
      var t := StopStep(s, k, interrupted);
      assert StopperOk(s, s.stops[k]);
      MovedOk(s, t, s.stops[k], interrupted);
      hide Raised, Seeing, Starts, Moved, Leaves;
      forall i | 0 <= i < |t.stops|
        ensures StopperOk(t, t.stops[i])
      {
        assert StopperOk(s, s.stops[i]);
      }
    }
  }

  lemma {:induction false} MovedOk(s: St, t: St, p: Stopper, interrupted: bool)
    requires StopperOk(s, p) && Phase(s) && t.pc == s.pc
    requires t.stopReq == (s.stopReq || p == Requesting)
    requires t.sema == if p == Waking then s.sema + 1 else s.sema
    requires var q := Moved(p, s.running && !s.stopReq, interrupted, s.term > 0);
      t.joined == if p == Awaiting && q == Joined then s.joined + 1 else s.joined
    ensures StopperOk(t, Moved(p, s.running && !s.stopReq, interrupted, s.term > 0))
    ensures Moved(p, s.running && !s.stopReq, interrupted, s.term > 0) == Joined && p == Awaiting ==> s.term > 0
  {
  }

  lemma {:induction false} SpawnerHeard(s: St, interrupted: bool)
    requires Heard(s)
    ensures Heard(SpawnerStep(s, interrupted))
  {
    hide Raised, Seeing, Starts, Leaves;
    var t := SpawnerStep(s, interrupted);
    forall k | 0 <= k < |t.stops|
      ensures StopperOk(t, t.stops[k])
    {
      assert StopperOk(s, s.stops[k]);
    }
  }

  /** Nothing that concerns stopping changes, but for semaphore-ups. */
  predicate Apart(s: St, t: St) {
    && t.stops == s.stops && t.joined == s.joined && t.spawner == s.spawner && t.term == s.term
    && t.pc == s.pc && t.stopReq == s.stopReq && t.sema >= s.sema
  }

  lemma {:induction false} ApartHeard(s: St, t: St)
    requires Heard(s) && Apart(s, t)
    ensures Heard(t)
  {
    hide Raised, Seeing, Starts, Leaves;
    forall k | 0 <= k < |t.stops|
      ensures StopperOk(t, t.stops[k])
    {
      assert StopperOk(s, s.stops[k]);
    }
  }

  lemma {:induction false} CallHeard(s: St)
    requires Heard(s)
    ensures Heard(s.(stops := s.stops + [Testing]))
  {
    hide Raised, Seeing, Starts, Leaves;
    var t := s.(stops := s.stops + [Testing]);
    forall k | 0 <= k < |t.stops|
      ensures StopperOk(t, t.stops[k])
    {
      if k < |s.stops| {
        assert StopperOk(s, s.stops[k]);
      }
    }
  }

  lemma {:induction false} OthersApart(s: St, a: Action)
    requires a.Enqueue? || a.HwInit? || a.PowerUp? || a.OwnerAct?
    ensures Apart(s, Step(s, a))
  {
    hide Acted, Enqueued;
    if a.Enqueue? {
      EnqueuedIs(s, a.cmd);
      EnqueuedUp(s, a.cmd);
    }
  }

  lemma {:induction false} StepHeard(s: St, a: Action)
    requires Heard(s) && Traced(s)
    ensures Heard(Step(s, a))
  {
    TracedPhase(s);
    HandKnown(s);
    hide Heard, Traced, Phase, Forward, Apart, ThreadStep, StopStep, SpawnerStep, Enqueued, OwnerStep;
    match a {
      case ThreadAct(env) =>
        ThreadForward(s, env);
        ForwardHeard(s, ThreadStep(s, env));
      case StopAct(k, interrupted) => StopHeard(s, k, interrupted);
      case StopCall => CallHeard(s);
      case SpawnerAct(interrupted) => SpawnerHeard(s, interrupted);
      case _ =>
        OthersApart(s, a);
        ApartHeard(s, Step(s, a));
    }
  }

  lemma {:induction false} RunHeard(s: St, run: seq<Action>)
    requires Heard(s) && Traced(s)
    ensures Heard(Run(s, run))
    decreases |run|
  {
    if run != [] {
      hide Heard, Traced, Step;
      StepHeard(s, run[0]);
      StepKeepsTrace(s, run[0]);
      RunHeard(Step(s, run[0]), run[1..]);
    }
  }

  /** Once a stopper has woken the thread, the request is never lost: the thread has it in view or will
      find its semaphore up. */
  lemma {:induction false} StopIsHeard(lclk: bool, run: seq<Action>, k: nat)
    requires k < |Run(Init(lclk), run).stops| && Run(Init(lclk), run).stops[k] == Awaiting
    ensures
      var s := Run(Init(lclk), run);
      s.stopReq && (Seeing(s.pc) || s.sema > 0)
  {
    RunHeard(Init(lclk), run);
    var s := Run(Init(lclk), run);
    hide Run;
    assert StopperOk(s, s.stops[k]);
  }

  // ---------- after the end ----------

  lemma DoneAsItIs(s: St, env: Env)
    requires s.pc == Done
    ensures ThreadStep(s, env).pc == Done && ThreadStep(s, env).running == s.running && ThreadStep(s, env).queue == s.queue
    ensures ThreadStep(s, env).accepted == s.accepted
  {
    hide Gone;
  }

  lemma {:induction false} DoneStays(s: St, a: Action)
    requires s.pc == Done && !s.running && s.queue == []
    ensures
      var t := Step(s, a);
      t.pc == Done && !t.running && t.queue == [] && t.accepted == s.accepted
  {
    hide Acted, Enqueued, ThreadStep, StopStep, SpawnerStep;
    if a.ThreadAct? {
      DoneAsItIs(s, a.env);
    } else if a.Enqueue? {
      EnqueuedIs(s, a.cmd);
    } else if Outside(a) {
      OutsideIs(s, a);
    }
  }

  lemma {:induction false} DoneForGood(s: St, run: seq<Action>)
    requires s.pc == Done && !s.running && s.queue == []
    ensures
      var t := Run(s, run);
      t.pc == Done && !t.running && t.queue == [] && t.accepted == s.accepted
    decreases |run|
  {
    if run != [] {
      DoneStays(s, run[0]);
      hide Step;
      DoneForGood(Step(s, run[0]), run[1..]);
    }
  }

  /** The thread is gone, and what is queued or accepted will not change in any run. */
  ghost predicate Quiescent(s: St) {
    && s.pc == Done && !s.running && s.queue == []
    && forall more: seq<Action> :: Run(s, more).accepted == s.accepted && Run(s, more).queue == [] && !Run(s, more).running
  }

  lemma {:induction false} DoneIsQuiescent(s: St)
    requires s.pc == Done && !s.running && s.queue == []
    ensures Quiescent(s)
  {
    hide Run;
    forall more: seq<Action>
      ensures Run(s, more).accepted == s.accepted && Run(s, more).queue == [] && !Run(s, more).running
    {
      DoneForGood(s, more);
    }
  }

  /** A stop has returned: from a wait that took the semaphore, or from one that a signal interrupted.  The
      caller of rtw_stop_cmd_thread is not told which. */
  predicate Back(p: Stopper) {
    p == Joined || p == GaveUp
  }

  /** What a returned stop leaves, the spawner having had the thread's sign of life.  After a wait that was
      not interrupted the thread is gone and the queue empty and closed for good.  After an interrupted one
      only the request stands: the thread has it in view or will find its semaphore up, and once it is gone
      the same holds. */
  lemma {:induction false} ReturnedStop(lclk: bool, run: seq<Action>, k: nat)
    requires
      var s := Run(Init(lclk), run);
      k < |s.stops| && Back(s.stops[k]) && s.spawner == Started
    ensures
      var s := Run(Init(lclk), run);
      && (s.stops[k] == Joined ==> Quiescent(s))
      && s.stopReq && (Seeing(s.pc) || s.sema > 0)
      && (s.pc == Done <==> Quiescent(s))
  {
    hide Run, Sound, Quiescent, Init;
    RunSound(lclk, run);
    ReturnedIs(Run(Init(lclk), run), k);
  }

  lemma {:induction false} ReturnedIs(s: St, k: nat)
    requires Sound(s) && k < |s.stops| && Back(s.stops[k]) && s.spawner == Started
    ensures
      && (s.stops[k] == Joined ==> Quiescent(s))
      && s.stopReq && (Seeing(s.pc) || s.sema > 0)
      && (s.pc == Done <==> Quiescent(s))
  {
    hide Quiescent, CmdOutcome.Held, Run;
    TracedPhase(s);
    hide Traced;
    assert StopperOk(s, s.stops[k]);
    if s.pc == Done {
      DoneIsQuiescent(s);
    } else {
      AliveIsNotQuiescent(s);
    }
  }

  /** A stop that has returned from a wait that took the semaphore or was interrupted, after a spawner's wait
      that did or was. */
  predicate Returned(s: St, k: nat, joined: bool, started: bool) {
    && k < |s.stops| && s.stops[k] == (if joined then Joined else GaveUp)
    && s.spawner == (if started then Started else Abandoned)
  }

  /** So a returned stop assures that the thread is gone if and only if neither its own wait nor the
      spawner's was interrupted: only then does it hold in every run. */
  lemma {:induction false} QuiescentExactly(joined: bool, started: bool)
    ensures
      (forall lclk: bool, run: seq<Action>, k: nat ::
         Returned(Run(Init(lclk), run), k, joined, started) ==> Quiescent(Run(Init(lclk), run)))
      <==> joined && started
  {
    hide Run, Quiescent;
    if joined && started {
      forall lclk: bool, run: seq<Action>, k: nat | Returned(Run(Init(lclk), run), k, joined, started)
        ensures Quiescent(Run(Init(lclk), run))
      {
        ReturnedStop(lclk, run, k);
      }
    } else {
      var run, c := AliveRun(joined, started);
      AliveIsNotQuiescent(Run(Init(false), run));
      assert Returned(Run(Init(false), run), 0, joined, started);
    }
  }

  lemma AliveIsNotQuiescent(s: St)
    requires s.pc != Done
    ensures !Quiescent(s)
  {
    hide Run;
  }

  const SPAWNED := SpawnerAct(false)
  const MOVE := StopAct(0, false)

  lemma {:induction false} Requests(s: St)
    requires s.running && !s.stopReq && s.stops == []
    ensures Run(s, [StopCall] + [MOVE] + [MOVE] + [MOVE]) == s.(stops := [Awaiting], stopReq := true, sema := s.sema + 1)
  {
    var a := s.(stops := [Testing]);
    assert s.stops + [Testing] == [Testing];
    assert Step(s, StopCall) == a;
    var b := s.(stops := [Requesting]);
    assert [Testing][0 := Requesting] == [Requesting] && [Requesting][0 := Waking] == [Waking] && [Waking][0 := Awaiting] == [Awaiting];
    assert Step(a, MOVE) == b;
    var c := s.(stops := [Waking], stopReq := true);
    assert Step(b, MOVE) == c;
    assert Step(c, MOVE) == s.(stops := [Awaiting], stopReq := true, sema := s.sema + 1);
    hide Step;
    OneAct(s, StopCall);
    OneAct(a, MOVE);
    OneAct(b, MOVE);
    OneAct(c, MOVE);
    RunTwo(s, [StopCall], [MOVE]);
    RunTwo(s, [StopCall] + [MOVE], [MOVE]);
    RunTwo(s, [StopCall] + [MOVE] + [MOVE], [MOVE]);
  }

  const TURN := ThreadAct(QUIET)
  const ABANDON := SpawnerAct(true)
  const GIVE_UP := StopAct(0, true)
  const REQUEST := [StopCall] + [MOVE] + [MOVE] + [MOVE]

  lemma {:induction false} Then(s: St, a: seq<Action>, t: St, b: seq<Action>, u: St)
    requires Run(s, a) == t && Run(t, b) == u
    ensures Run(s, a + b) == u
  {
    hide Run;
    RunTwo(s, a, b);
  }

  lemma ThenOne(s: St, run: seq<Action>, t: St, a: Action, u: St)
    requires Run(s, run) == t && Step(t, a) == u
    ensures Run(s, run + [a]) == u
  {
    hide Run, Step;
    OneAct(t, a);
    Then(s, run, t, [a], u);
  }

  /** The spawner has had the sign of life; then the stop's own wait is interrupted. */
  lemma {:induction false} GivesUp()
    ensures Run(Init(false), UP + [SPAWNED] + REQUEST + [GIVE_UP]) ==
      Up(false).(term := 0, spawner := Started, stops := [GaveUp], stopReq := true, sema := 1)
  {
    var s := Up(false).(term := 0, spawner := Started);
    var w := s.(stops := [Awaiting], stopReq := true, sema := 1);
    ComesUp(false);
    assert Step(Up(false), SPAWNED) == s;
    assert Step(w, GIVE_UP) == w.(stops := [GaveUp]);
    Requests(s);
    hide Run, Step;
    ThenOne(Init(false), UP, Up(false), SPAWNED, s);
    Then(Init(false), UP + [SPAWNED], s, REQUEST, w);
    ThenOne(Init(false), UP + [SPAWNED] + REQUEST, w, GIVE_UP, w.(stops := [GaveUp]));
  }

  /** The spawner's wait is interrupted before the thread has announced itself. */
  function Early(): St {
    Init(false).(running := true, spawner := Abandoned, pc := Announcing)
  }

  const EARLY := [ABANDON] + [TURN] + [TURN]

  lemma {:induction false} ComesEarly()
    ensures Run(Init(false), EARLY) == Early()
  {
    var a := Init(false).(spawner := Abandoned);
    var b := a.(pc := Raising);
    assert Step(Init(false), ABANDON) == a && Step(a, TURN) == b && Step(b, TURN) == Early();
    hide Run, Step;
    OneAct(Init(false), ABANDON);
    ThenOne(Init(false), [ABANDON], a, TURN, b);
    ThenOne(Init(false), [ABANDON] + [TURN], b, TURN, Early());
  }

  /** The count meant for it ends the wait of the first stop. */
  lemma {:induction false} TakesTheCount()
    ensures Run(Init(false), EARLY + [TURN] + [HwInit(true)] + REQUEST + [MOVE]) ==
      Up(false).(term := 0, joined := 1, spawner := Abandoned, stops := [Joined], stopReq := true, sema := 1)
  {
    var s := Early().(pc := Sema, term := 1);
    var u := Up(false).(spawner := Abandoned);
    var w := u.(stops := [Awaiting], stopReq := true, sema := 1);
    var t := w.(stops := [Joined], term := 0, joined := 1);
    assert Step(Early(), TURN) == s && Step(s, HwInit(true)) == u && Step(w, MOVE) == t;
    ComesEarly();
    Requests(u);
    hide Run, Step;
    ThenOne(Init(false), EARLY, Early(), TURN, s);
    ThenOne(Init(false), EARLY + [TURN], s, HwInit(true), u);
    Then(Init(false), EARLY + [TURN] + [HwInit(true)], u, REQUEST, w);
    ThenOne(Init(false), EARLY + [TURN] + [HwInit(true)] + REQUEST, w, MOVE, t);
  }

  /** A stop comes before the thread has announced itself, and is interrupted as well. */
  lemma {:induction false} BothGiveUp()
    ensures Run(Init(false), EARLY + REQUEST + [GIVE_UP] + [TURN] + [HwInit(true)]) ==
      Up(false).(spawner := Abandoned, stops := [GaveUp], stopReq := true, sema := 1)
  {
    var w := Early().(stops := [Awaiting], stopReq := true, sema := 1);
    var g := w.(stops := [GaveUp]);
    var t := g.(pc := Sema, term := 1);
    assert Step(w, GIVE_UP) == g && Step(g, TURN) == t && Step(t, HwInit(true)) == t.(hwInit := true);
    ComesEarly();
    Requests(Early());
    hide Run, Step;
    Then(Init(false), EARLY, Early(), REQUEST, w);
    ThenOne(Init(false), EARLY + REQUEST, w, GIVE_UP, g);
    ThenOne(Init(false), EARLY + REQUEST + [GIVE_UP], g, TURN, t);
    ThenOne(Init(false), EARLY + REQUEST + [GIVE_UP] + [TURN], t, HwInit(true), t.(hwInit := true));
  }

  /** The runs that fail: a stop has returned, by a signal or with the count meant for the spawner, while
      the thread is at its semaphore, and the next command is let in. */
  lemma {:induction false} AliveRun(joined: bool, started: bool) returns (run: seq<Action>, c: Cmd)
    requires !(joined && started)
    ensures
      var s := Run(Init(false), run);
      Returned(s, 0, joined, started) && s.pc == Sema && Admits(s, c)
  {
    c := Cmd(16, false, false, true, NoWait, false);
    hide Run;
    if started {
      GivesUp();
      run := UP + [SPAWNED] + REQUEST + [GIVE_UP];
    } else if joined {
      TakesTheCount();
      run := EARLY + [TURN] + [HwInit(true)] + REQUEST + [MOVE];
    } else {
      BothGiveUp();
      run := EARLY + REQUEST + [GIVE_UP] + [TURN] + [HwInit(true)];
    }
  }

  /** When exactly a stop returns from its wait: when it is interrupted, or when the thread has raised its
      semaphore more often than the spawner and other stops have taken it; with a count it takes it, whether a
      signal is there or not.  So, uninterrupted, the first
      stop to return does so at the thread's end if the spawner had its turn, and as soon as the thread is
      up if it had not. */
  lemma {:induction false} StopReturnsExactly(lclk: bool, run: seq<Action>, k: nat, interrupted: bool)
    requires k < |Run(Init(lclk), run).stops| && Run(Init(lclk), run).stops[k] == Awaiting
    ensures
      var s := Run(Init(lclk), run);
      var back := Back(StopStep(s, k, interrupted).stops[k]);
      && (back <==> interrupted || Raised(s.pc) > Taken(s))
      && (StopStep(s, k, interrupted).stops[k] == Joined <==> Raised(s.pc) > Taken(s))
      && (s.joined == 0 && s.spawner == Started ==> (back <==> interrupted || s.pc == Done))
      && (s.joined == 0 && s.spawner != Started ==> (back <==> interrupted || Alive(s.pc)))
  {
    hide Run, Sound, Init;
    RunSound(lclk, run);
    ReturnsIf(Run(Init(lclk), run), k, interrupted);
  }

  lemma {:induction false} ReturnsIf(s: St, k: nat, interrupted: bool)
    requires Sound(s) && k < |s.stops| && s.stops[k] == Awaiting
    ensures
      var back := Back(StopStep(s, k, interrupted).stops[k]);
      && (back <==> interrupted || Raised(s.pc) > Taken(s))
      && (StopStep(s, k, interrupted).stops[k] == Joined <==> Raised(s.pc) > Taken(s))
      && (s.joined == 0 && s.spawner == Started ==> (back <==> interrupted || s.pc == Done))
      && (s.joined == 0 && s.spawner != Started ==> (back <==> interrupted || Alive(s.pc)))
  {
    hide StoppersOk, Traced, CmdOutcome.Held;
  }

  // ---------- the end is reached ----------

  /** A bound on the steps that the thread, left alone with a raised stop request, still makes. */
  function Rank(pc: Pc, q: nat): nat {
    match pc
    case Done => 0
    case Ending => 1
    case Draining => 2 + q
    case Leaving => 3 + q
    case ChkStop => 4 + q
    case ChkRun => 5 + q
    case Sema => 6 + q
    case ChkEmpty => 10 + 12 * q
    case Next => 9 + 12 * q
    case Taking => 8 + 12 * q
    case Working(stage, _) => StageRank(stage) + 12 * q
    case _ => 7 + q
  }

  function StageRank(stage: Stage): nat {
    match stage
    case Vetting => 18
    case Handling => 17
    case Entering => 16
    case Looking => 15
    case Marking => 14
    case Completing => 13
    case Clearing => 12
    case Unlocking => 11
    case Finishing => 10
  }

  predicate Blocked(s: St) {
    (s.pc == Sema && s.sema == 0) || (s.pc.Working? && s.pc.stage == Entering && s.mutex != Nobody)
  }

  lemma {:induction false} OnwardRank(s: St, env: Env)
    requires Idle(s.pc) && s.stopReq && !Starts(s.pc) && s.pc != Done && !Blocked(s)
    requires !(s.pc == Draining && s.queue != []) && !(s.pc == Taking && s.queue != [])
    ensures Rank(Onward(s, env), |s.queue|) < Rank(s.pc, |s.queue|)
  {
  }

  lemma PolledQueue(s: St, env: Env)
    requires Idle(s.pc)
    ensures
      Polled(s, env).queue == if (s.pc == Draining || s.pc == Taking) && s.queue != [] then s.queue[1..] else s.queue
  {
    hide Onward, Gone;
  }

  lemma {:induction false} PolledRank(s: St, env: Env)
    requires Idle(s.pc) && s.stopReq && !Starts(s.pc) && s.pc != Done && !Blocked(s)
    ensures Rank(Polled(s, env).pc, |Polled(s, env).queue|) < Rank(s.pc, |s.queue|)
  {
    hide Polled, Blocked, Starts;
    PolledPc(s, env);
    PolledQueue(s, env);
    if (s.pc == Draining || s.pc == Taking) && s.queue != [] {
    } else {
      OnwardRank(s, env);
    }
  }

  lemma {:induction false} WorkedRank(s: St, stage: Stage, i: Id, env: Env)
    requires s.pc == Working(stage, i) && i < |s.jobs| && stage != Vetting && !Blocked(s)
    ensures Rank(Worked(s, stage, i, env).pc, |Worked(s, stage, i, env).queue|) < Rank(s.pc, |s.queue|)
  {
    hide Worked;
    WorkedGoes(s, stage, i, env);
  }

  lemma {:induction false} VettedRank(s: St, i: Id, env: Env)
    requires s.pc == Working(Vetting, i) && i < |s.jobs|
    ensures Rank(Vetted(s, i, env).pc, |Vetted(s, i, env).queue|) < Rank(s.pc, |s.queue|)
  {
    hide Vetted;
    var _ := VettedIs(s, i, env);
  }

  lemma {:induction false} ThreadRank(s: St, env: Env)
    requires s.stopReq && !Starts(s.pc) && s.pc != Done && !Blocked(s)
    requires s.pc.Working? ==> s.pc.id < |s.jobs|
    ensures Rank(ThreadStep(s, env).pc, |ThreadStep(s, env).queue|) < Rank(s.pc, |s.queue|)
  {
    hide Polled, Vetted, Worked, Harms, Rank, Blocked;
    if Idle(s.pc) {
      PolledRank(s, env);
    } else if s.pc.stage == Vetting {
      VettedRank(s, s.pc.id, env);
    } else {
      WorkedRank(s, s.pc.stage, s.pc.id, env);
    }
  }

  lemma {:induction false} MutexStaysClear(s: St, env: Env)
    requires !s.mutex.ByOwner?
    ensures !ThreadStep(s, env).mutex.ByOwner?
  {
    hide Polled, Vetted, Treated, Following, Harms;
    if Idle(s.pc) {
      PolledIs(s, env);
    } else if s.pc.id < |s.jobs| && s.pc.stage == Vetting {
      var _ := VettedIs(s, s.pc.id, env);
    }
  }

  ghost predicate Sound(s: St) {
    Heard(s) && Traced(s) && CmdOutcome.Held(s)
  }

  lemma {:induction false} StepSound(s: St, a: Action)
    requires Sound(s)
    ensures Sound(Step(s, a))
  {
    hide Heard, Traced, CmdOutcome.Held, Step;
    StepHeard(s, a);
    StepKeepsTrace(s, a);
    CmdOutcome.StepHeld(s, a);
  }

  /** The stopper has woken the thread; it waits, or has returned. */
  predicate Awoken(p: Stopper) {
    p == Awaiting || Back(p)
  }

  /** With the request raised and the mutex with no owner, the thread is not blocked. */
  lemma {:induction false} NotBlocked(s: St, k: nat)
    requires Sound(s) && k < |s.stops| && Awoken(s.stops[k]) && !s.mutex.ByOwner?
    ensures !Blocked(s) && s.stopReq && !Starts(s.pc) && (s.pc.Working? ==> s.pc.id < |s.jobs|)
  {
    hide Traced;
    HandKnown(s);
    assert StopperOk(s, s.stops[k]);
  }

  /** From then on every step that the thread makes alone brings it nearer to its end. */
  lemma {:induction false} EndsAlone(s: St, k: nat, more: seq<Action>)
    requires Sound(s) && k < |s.stops| && Awoken(s.stops[k]) && !s.mutex.ByOwner?
    requires forall a :: a in more ==> a.ThreadAct?
    requires |more| >= Rank(s.pc, |s.queue|)
    ensures Run(s, more).pc == Done
    decreases |more|
  {
    if s.pc == Done {
      DoneAlready(s);
      DoneForGood(s, more);
    } else {
      NotBlocked(s, k);
      RankPositive(s.pc, |s.queue|);
      assert more[0] in more;
      var env := more[0].env;
      ThreadRank(s, env);
      ThreadForward(s, env);
      MutexStaysClear(s, env);
      StepSound(s, more[0]);
      hide Rank, Sound, ThreadStep, Starts, Blocked, Sighted;
      assert forall a :: a in more[1..] ==> a in more;
      EndsAlone(ThreadStep(s, env), k, more[1..]);
    }
  }

  lemma RankPositive(pc: Pc, q: nat)
    requires pc != Done
    ensures Rank(pc, q) > 0
  {
  }

  lemma {:induction false} DoneAlready(s: St)
    requires Sound(s) && s.pc == Done
    ensures !s.running && s.queue == []
  {
    hide Heard, CmdOutcome.Held;
    TracedPhase(s);
    hide Traced;
  }

  lemma RankBound(pc: Pc, q: nat)
    ensures Rank(pc, q) <= 18 + 12 * q
  {
  }

  lemma {:induction false} RunSound(lclk: bool, run: seq<Action>)
    ensures Sound(Run(Init(lclk), run))
  {
    RunHeard(Init(lclk), run);
    RunKeepsTrace(Init(lclk), run);
    CmdOutcome.RunHeld(Init(lclk), run);
    hide Run, Heard, Traced, CmdOutcome.Held;
  }

  /** A stop request ends the thread, also when the stopper has been interrupted: after it has been raised,
      and while no owner holds the sctx mutex, 18 steps and 12 for each queued command are enough, whatever
      the handlers return and however often a command is put back. */
  lemma {:induction false} StopEndsTheThread(lclk: bool, run: seq<Action>, k: nat, more: seq<Action>)
    requires
      var s := Run(Init(lclk), run);
      && k < |s.stops| && Awoken(s.stops[k]) && !s.mutex.ByOwner?
      && |more| >= 18 + 12 * |s.queue|
    requires forall a :: a in more ==> a.ThreadAct?
    ensures Run(Run(Init(lclk), run), more).pc == Done
  {
    var s := Run(Init(lclk), run);
    RunSound(lclk, run);
    RankBound(s.pc, |s.queue|);
    hide Run, Sound, Rank;
    EndsAlone(s, k, more);
  }

  // ---------- a stopped adapter ----------

  /** The thread will see next that the adapter has stopped, or is on its way out. */
  predicate Doomed(s: St) {
    (s.pc == Sema && s.sema > 0) || s.pc == ChkRun || s.pc == Next || Leaves(s.pc) || s.pc == Leaving
  }

  predicate Unfit(a: Action) {
    a.ThreadAct? && a.env.cannotRun
  }

  lemma DoomedParts(s: St, env: Env)
    requires Idle(s.pc)
    ensures
      var t := ThreadStep(s, env);
      && t.finished == s.finished
      && t.pc == (if s.pc == Draining && s.queue != [] then Draining else Onward(s, env))
      && t.queue == if (s.pc == Draining || s.pc == Taking) && s.queue != [] then s.queue[1..] else s.queue
  {
    hide Onward, Gone;
  }

  lemma {:induction false} DoomedStep(s: St, env: Env)
    requires Doomed(s) && s.pc != Done && env.cannotRun
    ensures
      var t := ThreadStep(s, env);
      && Doomed(t) && t.finished == s.finished && |t.queue| <= |s.queue|
      && (if s.pc == Next then t.pc == Leaving && t.queue == s.queue else Rank(t.pc, |t.queue|) < Rank(s.pc, |s.queue|))
  {
    hide ThreadStep;
    DoomedParts(s, env);
  }

  /** How many steps are enough from here. */
  function Left(s: St): nat {
    if s.pc == Next then 4 + |s.queue| else Rank(s.pc, |s.queue|)
  }

  lemma {:induction false} DoomedNext(s: St, a: Action)
    requires Doomed(s) && Traced(s) && s.pc != Done && Unfit(a)
    ensures var t := Step(s, a); Doomed(t) && Traced(t) && t.finished == s.finished && Left(t) < Left(s)
  {
    DoomedStep(s, a.env);
    StepKeepsTrace(s, a);
    LeavingRank(|s.queue|);
    hide Rank, ThreadStep, Doomed, Traced;
  }

  lemma {:induction false} DoomedEnds(s: St, more: seq<Action>)
    requires Doomed(s) && Traced(s) && (forall a :: a in more ==> Unfit(a))
    requires |more| >= Left(s)
    ensures Run(s, more).pc == Done && Run(s, more).finished == s.finished
    decreases |more|
  {
    hide Rank, Left, Step, Doomed, Traced, Unfit;
    if s.pc == Done {
      DoneRests(s, more);
    } else {
      LeftSome(s);
      assert more[0] in more;
      DoomedNext(s, more[0]);
      assert forall a :: a in more[1..] ==> a in more;
      DoomedEnds(Step(s, more[0]), more[1..]);
    }
  }

  lemma LeftSome(s: St)
    requires s.pc != Done
    ensures Left(s) > 0
  {
    RankPositive(s.pc, |s.queue|);
  }

  lemma LeavingRank(q: nat)
    ensures Rank(Leaving, q) == 3 + q
  {
  }

  lemma {:induction false} DoneRests(s: St, more: seq<Action>)
    requires s.pc == Done && forall a :: a in more ==> Unfit(a)
    ensures Run(s, more).pc == Done && Run(s, more).finished == s.finished
    decreases |more|
  {
    if more != [] {
      assert more[0] in more;
      DoneAsItIs(s, more[0].env);
      DoneFinishes(s, more[0].env);
      hide ThreadStep;
      assert forall a :: a in more[1..] ==> a in more;
      DoneRests(Step(s, more[0]), more[1..]);
    }
  }

  lemma DoneFinishes(s: St, env: Env)
    requires s.pc == Done
    ensures ThreadStep(s, env).finished == s.finished
  {
    hide Gone;
  }

  /** Once the adapter has stopped, a thread that is woken, or about to look whether it may run or for its next
      command, begins no further command and is at its end after six steps and one for each queued
      command, which it frees. */
  lemma {:induction false} StoppedAdapterEndsTheThread(lclk: bool, run: seq<Action>, more: seq<Action>)
    requires
      var s := Run(Init(lclk), run);
      && ((s.pc == Sema && s.sema > 0) || s.pc == ChkRun || s.pc == Next)
      && |more| >= 6 + |s.queue|
    requires forall a :: a in more ==> a.ThreadAct? && a.env.cannotRun
    ensures
      var s, t := Run(Init(lclk), run), Run(Run(Init(lclk), run), more);
      t.pc == Done && t.finished == s.finished
  {
    RunKeepsTrace(Init(lclk), run);
    hide Run, Traced;
    DoomedEnds(Run(Init(lclk), run), more);
  }

  function StepsInside(o: Owner): nat {
    match o
    case Checking => 3
    case Detaching => 2
    case Releasing => 1
    case _ => 0
  }

  predicate Away(s: St, i: Id) {
    i < |s.jobs| && s.mutex == Nobody && (s.jobs[i].owner == Reporting || s.jobs[i].owner.Returned?)
  }

  lemma {:induction false} OneStepOut(s: St, i: Id, cut: bool)
    requires i < |s.jobs| && (CmdOutcome.Inside(s.jobs[i].owner) || Away(s, i))
    ensures
      var t := OwnerStep(s, i, cut);
      || Away(t, i)
      || (|t.jobs| == |s.jobs| && CmdOutcome.Inside(t.jobs[i].owner)
          && StepsInside(t.jobs[i].owner) < StepsInside(s.jobs[i].owner))
    ensures Away(s, i) ==> Away(OwnerStep(s, i, cut), i)
  {
  }

  /** An owner that holds the mutex lets go of it in its own next three steps. */
  lemma {:induction false} OwnerLetsGo(s: St, i: Id, x: bool, y: bool, z: bool)
    requires i < |s.jobs| && CmdOutcome.Inside(s.jobs[i].owner)
    ensures Away(OwnerStep(OwnerStep(OwnerStep(s, i, x), i, y), i, z), i)
  {
    hide OwnerStep, Away;
    var a := OwnerStep(s, i, x);
    var b := OwnerStep(a, i, y);
    OneStepOut(s, i, x);
    AwayKnown(a, i);
    OneStepOut(a, i, y);
    AwayKnown(b, i);
    OneStepOut(b, i, z);
    InsideSteps(s.jobs[i].owner);
    var c := OwnerStep(b, i, z);
    if !Away(c, i) {
      InsideSteps(c.jobs[i].owner);
    }
  }

  lemma InsideSteps(o: Owner)
    ensures CmdOutcome.Inside(o) ==> 1 <= StepsInside(o) <= 3
  {
  }

  lemma AwayKnown(s: St, i: Id)
    ensures Away(s, i) ==> i < |s.jobs|
  {
  }
}
