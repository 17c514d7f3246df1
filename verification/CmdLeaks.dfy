/** The disconnect command's callback does not free a command that has failed: what is lost by it, for good. */
module CmdLeaks {
  import opened CmdProtocol
  import opened CmdOrder
  import opened CmdRuns

  /** Handed to its callback, and kept there. */
  predicate Leaked(s: St, i: Id) {
    i < |s.jobs| && i in s.finished && Keeps(s.jobs[i])
  }

  // ---------- for good ----------

  lemma {:induction false} SameLeaked(s: St, t: St, i: Id)
    requires Leaked(s, i) && |s.jobs| <= |t.jobs| && s.finished <= t.finished
    requires Keeps(t.jobs[i]) == Keeps(s.jobs[i])
    ensures Leaked(t, i)
  {
    hide Keeps;
  }

  lemma {:induction false} WorkedKeepsLeak(s: St, stage: Stage, k: Id, env: Env, i: Id)
    requires Leaked(s, i) && k < |s.jobs| && k != i && stage != Vetting
    ensures var t := Worked(s, stage, k, env); |t.jobs| == |s.jobs| && t.jobs[i] == s.jobs[i] && s.finished <= t.finished
  {
    hide Treated, Following, Keeps;
  }

  lemma {:induction false} ThreadKeepsLeak(s: St, env: Env, i: Id)
    requires Traced(s) && Leaked(s, i)
    ensures Leaked(ThreadStep(s, env), i)
  {
    hide Traced, Polled, Vetted, Worked, Harms, Keeps;
    var t := ThreadStep(s, env);
    if Idle(s.pc) {
      PolledIs(s, env);
      if s.pc == Draining && s.queue != [] {
        QueuedIsOpen(s, 0);
        FrontGone(s, env);
      } else {
        PolledJobs(s, env);
      }
    } else if s.pc.id < |s.jobs| {
      HandIsOpen(s);
      if s.pc.stage == Vetting {
        var _ := VettedIs(s, s.pc.id, env);
      } else {
        WorkedKeepsLeak(s, s.pc.stage, s.pc.id, env, i);
      }
    }
    SameLeaked(s, t, i);
  }

  lemma FrontGone(s: St, env: Env)
    requires s.pc == Draining && s.queue != []
    ensures
      var t, i := Polled(s, env), s.queue[0];
      t.jobs == if i < |s.jobs| then s.jobs[i := Gone(s.jobs[i])] else s.jobs
  {
  }

  lemma {:induction false} StepKeepsLeak(s: St, a: Action, i: Id)
    requires Traced(s) && Leaked(s, i)
    ensures Leaked(Step(s, a), i)
  {
    hide Traced, ThreadStep, Enqueued, StopStep, SpawnerStep, Acted, Keeps;
    if a.ThreadAct? {
      ThreadKeepsLeak(s, a.env, i);
    } else {
      if a.Enqueue? {
        EnqueuedIs(s, a.cmd);
      } else if a.OwnerAct? && a.id < |s.jobs| {
        ActedIs(s.jobs[a.id], s.mutex == Nobody, a.cut);
      } else if Outside(a) {
        OutsideIs(s, a);
      }
      SameLeaked(s, Step(s, a), i);
    }
  }

  /** What is lost is never freed. */
  lemma {:induction false} LeakedForGood(s: St, run: seq<Action>, i: Id)
    requires Traced(s) && Leaked(s, i)
    ensures var t := Run(s, run); Leaked(t, i) && !t.jobs[i].freed
    decreases |run|
  {
    hide Leaked, Step;
    if run == [] {
      LeakedIsKept(s, i);
    } else {
      hide Traced;
      StepKeepsLeak(s, run[0], i);
      StepKeepsTrace(s, run[0]);
      LeakedForGood(Step(s, run[0]), run[1..], i);
    }
  }

  lemma LeakedIsKept(s: St, i: Id)
    requires Traced(s) && Leaked(s, i)
    ensures i < |s.jobs| && !s.jobs[i].freed
  {
  }

  // ---------- a run that leaks ----------

  /** The disconnect command; nobody waits for it. */
  const DISCONNECT := Cmd(16, false, false, true, NoWait, true)

  const TURN := ThreadAct(QUIET)

  /** Accepted while the hardware is up; then that goes down, and the thread fetches the command. */
  function Fetched(): St {
    Up(false).(jobs := [NewJob(DISCONNECT)], accepted := [0], hwInit := false, pc := Working(Vetting, 0))
  }

  const FETCH := [Enqueue(DISCONNECT)] + [HwInit(false)] + [TURN] + [TURN] + [TURN] + [TURN] + [TURN] + [TURN]

  lemma Then(s: St, run: seq<Action>, t: St, a: Action, u: St)
    requires Run(s, run) == t && Step(t, a) == u
    ensures Run(s, run + [a]) == u
  {
    hide Run, Step;
    RunTwo(s, run, [a]);
    OneAct(t, a);
  }

  lemma {:induction false} Fetches()
    ensures Run(Up(false), FETCH) == Fetched()
  {
    var e := [Enqueue(DISCONNECT)];
    var s := Up(false).(jobs := [NewJob(DISCONNECT)], accepted := [0], queue := [0], sema := 1);
    var d := s.(hwInit := false);
    var w := d.(sema := 0);
    assert Step(Up(false), Enqueue(DISCONNECT)) == s;
    assert Step(s, HwInit(false)) == d;
    assert Step(d, TURN) == w.(pc := ChkRun);
    assert Step(w.(pc := ChkRun), TURN) == w.(pc := ChkStop);
    assert Step(w.(pc := ChkStop), TURN) == w.(pc := ChkEmpty);
    assert Step(w.(pc := ChkEmpty), TURN) == w.(pc := Next);
    assert Step(w.(pc := Next), TURN) == w.(pc := Taking);
    assert Step(w.(pc := Taking), TURN) == Fetched();
    hide Step, Run;
    OneAct(Up(false), Enqueue(DISCONNECT));
    Then(Up(false), e, s, HwInit(false), d);
    Then(Up(false), e + [HwInit(false)], d, TURN, w.(pc := ChkRun));
    Then(Up(false), e + [HwInit(false)] + [TURN], w.(pc := ChkRun), TURN, w.(pc := ChkStop));
    Then(Up(false), e + [HwInit(false)] + [TURN] + [TURN], w.(pc := ChkStop), TURN, w.(pc := ChkEmpty));
    Then(Up(false), e + [HwInit(false)] + [TURN] + [TURN] + [TURN], w.(pc := ChkEmpty), TURN, w.(pc := Next));
    Then(Up(false), e + [HwInit(false)] + [TURN] + [TURN] + [TURN] + [TURN], w.(pc := Next), TURN, w.(pc := Taking));
    Then(Up(false), e + [HwInit(false)] + [TURN] + [TURN] + [TURN] + [TURN] + [TURN], w.(pc := Taking), TURN, Fetched());
  }

  /** It is refused, nobody is signalled, and its callback leaves it. */
  const REFUSE := [TURN] + [TURN] + [TURN] + [TURN] + [TURN]

  lemma {:induction false} Refuses()
    ensures var s := Run(Fetched(), REFUSE); Leaked(s, 0) && s.queue == [] && s.pc == Next
  {
    var s := Fetched();
    var j := NewJob(DISCONNECT).(res := H2C_DROPPED);
    var r := s.(jobs := [j], pc := Working(Entering, 0));
    var l := r.(pc := Working(Looking, 0), mutex := Thread);
    var u := l.(pc := Working(Unlocking, 0));
    var f := r.(pc := Working(Finishing, 0));
    var t := f.(pc := Next, jobs := [j.(over := true)], finished := [0]);
    assert Step(s, TURN) == r;
    assert Step(r, TURN) == l;
    assert Step(l, TURN) == u;
    assert Step(u, TURN) == f;
    assert Step(f, TURN) == t;
    assert Leaked(t, 0);
    hide Step, Run, Traced;
    OneAct(s, TURN);
    Then(s, [TURN], r, TURN, l);
    Then(s, [TURN] + [TURN], l, TURN, u);
    Then(s, [TURN] + [TURN] + [TURN], u, TURN, f);
    Then(s, [TURN] + [TURN] + [TURN] + [TURN], f, TURN, t);
  }

  /** A run from the start after which the disconnect command is neither queued nor in hand, and has not been
      freed; nor is it in any continuation. */
  lemma {:induction false} LeakRun(more: seq<Action>)
    ensures
      var s := Run(Init(false), UP + FETCH + REFUSE);
      var t := Run(s, more);
      && s.queue == [] && s.pc == Next && 0 in s.finished
      && |s.jobs| > 0 && !s.jobs[0].freed && |t.jobs| > 0 && !t.jobs[0].freed
  {
    hide Run, Leaked, Traced, Init;
    ComesUp(false);
    Fetches();
    Refuses();
    RunTwo(Init(false), UP, FETCH);
    RunTwo(Init(false), UP + FETCH, REFUSE);
    TracedFromStart(false, UP + FETCH + REFUSE);
    var s := Run(Init(false), UP + FETCH + REFUSE);
    LeakedForGood(s, more, 0);
    LeakedIsKept(s, 0);
    LeakedIsFinished(s, 0);
    LeakedIsFinished(Run(s, more), 0);
  }

  lemma LeakedIsFinished(s: St, i: Id)
    requires Leaked(s, i)
    ensures i in s.finished && i < |s.jobs|
  {
  }

  lemma TracedFromStart(lclk: bool, run: seq<Action>)
    ensures Traced(Run(Init(lclk), run))
  {
    RunKeepsTrace(Init(lclk), run);
  }
}
