/** When a command's handler runs: which commands the thread takes to their handler, by the state in which it
    looked at them last, and which it finishes without (`core/rtw_cmd.c`). */
module CmdExecution {
  import opened Memory
  import opened CmdProtocol
  import opened CmdOrder
  import opened CmdOutcome

  // ---------- what is let in ----------

  /** A command is let in exactly when the thread runs, and the hardware is up or the command passes without;
      it is queued, as the last one, exactly if it is not too long either. */
  lemma {:induction false} AcceptedExactly(s: St, c: Cmd)
    ensures
      var t, passes := Step(s, Enqueue(c)), s.running && (s.hwInit || c.noIo || c.exempt);
      && t.queue == (if passes && c.size <= 1024 then s.queue + [|s.jobs|] else s.queue)
      && t.accepted == (if passes && c.size <= 1024 then s.accepted + [|s.jobs|] else s.accepted)
      && |t.jobs| == (if passes then |s.jobs| + 1 else |s.jobs|)
      && (passes ==> t.jobs[|s.jobs|].cmd == c && t.jobs[|s.jobs|].results == [] && (t.jobs[|s.jobs|].freed <==> c.size > 1024))
  {
  }

  // ---------- the last look ----------

  /** The state in which the thread, over a run, last looked at a command before its handler. */
  function LastVetted(s: St, run: seq<Action>, i: Id, v: Option<St>): Option<St>
    decreases |run|
  {
    if run == [] then v
    else LastVetted(Step(s, run[0]), run[1..], i, if run[0].ThreadAct? && s.pc == Working(Vetting, i) then Some(s) else v)
  }

  /** Then the command fits, has a handler, the thread runs, and the hardware is up or the command passes
      without. */
  predicate Executable(v: St, c: Cmd) {
    c.size <= 1024 && c.hasHandler && v.running && (v.hwInit || c.noIo || c.exempt)
  }

  /** The handler has run once, or not at all and the command has the code it was refused with. */
  predicate Executed(j: Job, v: Option<St>) {
    && v.Some?
    && if Executable(v.value, j.cmd) then |j.results| == 1 && j.res == j.results[0]
       else j.results == [] && j.res == if j.cmd.size > 1024 || !j.cmd.hasHandler then 4 else 3
  }

  predicate Looked(j: Job, spot: Spot, finished: bool, v: Option<St>) {
    && (finished ==> j.over)
    && (spot == At(Handling) ==> v.Some? && Executable(v.value, j.cmd))
    && (finished || !Unjudged(spot) ==> Executed(j, v))
  }

  predicate LookedAt(s: St, i: Id, v: Option<St>) {
    && (i in s.finished ==> i < |s.jobs|)
    && (i < |s.jobs| ==> Looked(s.jobs[i], SpotOf(s, i), i in s.finished, v))
  }

  // ---------- the thread's steps ----------

  /** The verdict at the look. */
  lemma {:induction false} VettedExecutable(s: St, i: Id, env: Env)
    requires s.pc == Working(Vetting, i) && i < |s.jobs| && s.jobs[i].results == [] && i !in s.finished
    ensures LookedAt(Vetted(s, i, env), i, Some(s))
  {
    RefusalIs(s, s.jobs[i].cmd);
    hide PutsBack, Refusal, Executable;
  }

  lemma RefusalIs(s: St, c: Cmd)
    ensures Refusal(s, c) == if Executable(s, c) then 0 else if c.size > 1024 || !c.hasHandler then 4 else 3
  {
  }

  /** Where a look leads: to the handler; back to the queue's head, if the chip sleeps and the command is not a
      no_io one; or on without the handler. */
  lemma {:induction false} LookLeads(s: St, i: Id, env: Env)
    requires s.pc == Working(Vetting, i) && i < |s.jobs|
    ensures
      var t, c := ThreadStep(s, env), s.jobs[i].cmd;
      var putBack := Executable(s, c) && s.lclk && !c.noIo && !env.registered;
      && t.queue == (if putBack then [i] + s.queue else s.queue) && t.finished == s.finished
      && t.pc == if putBack then Sema else Working(if Executable(s, c) then Handling else Entering, i)
  {
    RefusalIs(s, s.jobs[i].cmd);
    hide Harms, Refusal, Executable, Polled, Worked;
  }

  lemma {:induction false} TreatedLooked(j: Job, stage: Stage, env: Env, v: Option<St>)
    requires Looked(j, At(stage), false, v) && stage != Vetting && stage != Finishing && (stage == Handling ==> j.results == [])
    ensures Looked(Treated(j, stage, env), At(Following(j, stage)), false, v)
  {
    if stage == Handling {
      assert j.results + [env.result] == [env.result];
    }
  }

  lemma {:induction false} FinishedLooked(j: Job, env: Env, v: Option<St>)
    requires Looked(j, At(Finishing), false, v)
    ensures Looked(Treated(j, Finishing, env), Away, true, v)
  {
    hide Keeps;
  }

  lemma {:induction false} WorkedLooked(s: St, stage: Stage, k: Id, env: Env, i: Id, v: Option<St>)
    requires s.pc == Working(stage, k) && k < |s.jobs| && stage != Vetting && LookedAt(s, i, v)
    requires k !in s.finished && (stage == Handling ==> s.jobs[k].results == [])
    ensures LookedAt(Worked(s, stage, k, env), i, v)
  {
    hide Treated, Following, Looked;
    if i == k {
      if stage == Finishing {
        FinishedLooked(s.jobs[i], env, v);
      } else {
        TreatedLooked(s.jobs[i], stage, env, v);
      }
    }
  }

  /** Nothing that concerns this command changes but who owns it. */
  lemma {:induction false} SameLooked(s: St, t: St, i: Id, v: Option<St>)
    requires LookedAt(s, i, v) && |t.jobs| >= |s.jobs| && (i in t.finished <==> i in s.finished)
    requires i < |s.jobs| ==>
      && t.jobs[i].results == s.jobs[i].results && t.jobs[i].res == s.jobs[i].res && t.jobs[i].cmd == s.jobs[i].cmd
      && (s.jobs[i].over ==> t.jobs[i].over)
    requires SpotOf(t, i) == SpotOf(s, i) || SpotOf(t, i) == Away || SpotOf(t, i) == At(Vetting)
    requires |s.jobs| <= i < |t.jobs| ==> SpotOf(t, i) == Away || SpotOf(t, i) == At(Vetting)
    ensures LookedAt(t, i, v)
  {
    hide Executable;
  }

  lemma {:induction false} PolledLooked(s: St, env: Env, i: Id, v: Option<St>)
    requires Idle(s.pc) && LookedAt(s, i, v)
    ensures LookedAt(Polled(s, env), i, v)
  {
    hide Looked, LookedAt, Onward;
    PolledIs(s, env);
    PolledSpot(s, env, i);
    SameLooked(s, Polled(s, env), i, v);
  }

  lemma PolledSpot(s: St, env: Env, i: Id)
    requires Idle(s.pc)
    ensures SpotOf(s, i) == Away && (SpotOf(Polled(s, env), i) == Away || SpotOf(Polled(s, env), i) == At(Vetting))
  {
  }

  lemma {:induction false} VettingLooked(s: St, k: Id, env: Env, i: Id, v: Option<St>)
    requires s.pc == Working(Vetting, k) && k < |s.jobs| && LookedAt(s, i, v) && k !in s.finished && s.jobs[k].results == []
    ensures LookedAt(Vetted(s, k, env), i, if k == i then Some(s) else v)
  {
    if k == i {
      VettedExecutable(s, i, env);
    } else {
      hide Vetted, Looked, LookedAt;
      var _ := VettedIs(s, k, env);
      SameLooked(s, Vetted(s, k, env), i, v);
    }
  }

  lemma {:induction false} ThreadLooked(s: St, env: Env, i: Id, v: Option<St>)
    requires AllJudged(s) && Traced(s) && LookedAt(s, i, v)
    ensures LookedAt(ThreadStep(s, env), i, if s.pc == Working(Vetting, i) then Some(s) else v)
  {
    hide Polled, Vetted, Worked, Harms, Looked, LookedAt, Traced, AllJudged;
    if Idle(s.pc) {
      PolledLooked(s, env, i, v);
    } else {
      var k := s.pc.id;
      HandKnown(s);
      HandIsOpen(s);
      NoResults(s, k);
      if s.pc.stage == Vetting {
        VettingLooked(s, k, env, i, v);
        FaultsOnly(Vetted(s, k, env), ThreadStep(s, env), i, if k == i then Some(s) else v);
      } else {
        WorkedLooked(s, s.pc.stage, k, env, i, v);
        FaultsOnly(Worked(s, s.pc.stage, k, env), ThreadStep(s, env), i, v);
      }
    }
  }

  lemma NoResults(s: St, k: Id)
    requires AllJudged(s) && s.pc.Working? && s.pc.id == k && k < |s.jobs|
    ensures s.pc.stage == Vetting || s.pc.stage == Handling ==> s.jobs[k].results == []
  {
    hide Reported, Woken;
    assert Judged(s.jobs[k], SpotOf(s, k));
  }

  lemma FaultsOnly(s: St, t: St, i: Id, v: Option<St>)
    requires LookedAt(s, i, v) && t.jobs == s.jobs && t.pc == s.pc && t.finished == s.finished
    ensures LookedAt(t, i, v)
  {
    hide Looked;
  }

  // ---------- runs ----------

  lemma {:induction false} StepLooked(s: St, a: Action, i: Id, v: Option<St>)
    requires AllJudged(s) && Traced(s) && LookedAt(s, i, v)
    ensures LookedAt(Step(s, a), i, if a.ThreadAct? && s.pc == Working(Vetting, i) then Some(s) else v)
  {
    hide AllJudged, Traced, Enqueued, ThreadStep, StopStep, SpawnerStep, Acted, Looked, LookedAt, NewJob;
    if a.ThreadAct? {
      ThreadLooked(s, a.env, i, v);
    } else {
      var t := Step(s, a);
      HandKnown(s);
      if a.Enqueue? {
        EnqueuedIs(s, a.cmd);
      } else if a.OwnerAct? {
        if a.id < |s.jobs| {
          ActedAside(s.jobs[a.id], s.mutex == Nobody, a.cut);
        }
      } else {
        OutsideIs(s, a);
      }
      SameLooked(s, t, i, v);
    }
  }

  lemma ActedAside(j: Job, free: bool, cut: bool)
    ensures var k := Acted(j, free, cut); k.results == j.results && k.res == j.res && k.cmd == j.cmd && k.over == j.over
  {
  }

  lemma {:induction false} RunLooked(s: St, run: seq<Action>, i: Id, v: Option<St>)
    requires AllJudged(s) && Traced(s) && LookedAt(s, i, v)
    ensures LookedAt(Run(s, run), i, LastVetted(s, run, i, v))
    decreases |run|
  {
    if run != [] {
      hide AllJudged, Traced, LookedAt, Step;
      StepLooked(s, run[0], i, v);
      StepJudged(s, run[0]);
      StepKeepsTrace(s, run[0]);
      RunLooked(Step(s, run[0]), run[1..], i, if run[0].ThreadAct? && s.pc == Working(Vetting, i) then Some(s) else v);
    }
  }

  lemma BeginsLooked(lclk: bool, i: Id)
    ensures AllJudged(Init(lclk)) && Traced(Init(lclk)) && LookedAt(Init(lclk), i, None)
  {
  }

  lemma LookedEnd(s: St, i: Id, v: Option<St>)
    requires LookedAt(s, i, v) && i in s.finished
    ensures i < |s.jobs| && Executed(s.jobs[i], v)
  {
  }

  /** Over every run: the handler of a finished command has run, and then once, exactly if at the thread's last
      look at it the command fitted and had a handler, the thread was running, and the hardware was up or
      the command passes without.  Otherwise it has the code 4, if it was too long or had no handler, or 3. */
  lemma {:induction false} ExecutedExactly(lclk: bool, run: seq<Action>, i: Id)
    requires i in Run(Init(lclk), run).finished
    ensures i < |Run(Init(lclk), run).jobs|
    ensures
      var j, v := Run(Init(lclk), run).jobs[i], LastVetted(Init(lclk), run, i, None);
      && v.Some?
      && ((exists r :: j.results == [r]) <==>
            j.cmd.size <= 1024 && j.cmd.hasHandler && v.value.running && (v.value.hwInit || j.cmd.noIo || j.cmd.exempt))
      && (j.results != [] ==> j.results == [j.res])
      && (j.results == [] ==> j.res == if j.cmd.size > 1024 || !j.cmd.hasHandler then 4 else 3)
  {
    hide Run, AllJudged, Traced, LookedAt, Init, LastVetted;
    BeginsLooked(lclk, i);
    RunLooked(Init(lclk), run, i, None);
    LookedEnd(Run(Init(lclk), run), i, LastVetted(Init(lclk), run, i, None));
    var j := Run(Init(lclk), run).jobs[i];
    assert |j.results| == 1 ==> j.results == [j.results[0]];
  }

  /** So a command that passes without the hardware, fits and has a handler has run it when it is finished,
      whatever the hardware did, if only the thread was running when it looked. */
  lemma {:induction false} ExemptIsExecuted(lclk: bool, run: seq<Action>, i: Id)
    requires i in Run(Init(lclk), run).finished && i < |Run(Init(lclk), run).jobs|
    requires
      var c, v := Run(Init(lclk), run).jobs[i].cmd, LastVetted(Init(lclk), run, i, None);
      (c.noIo || c.exempt) && c.size <= 1024 && c.hasHandler && (v.Some? ==> v.value.running)
    ensures |Run(Init(lclk), run).jobs[i].results| == 1
  {
    hide Run, Init, LastVetted;
    ExecutedExactly(lclk, run, i);
  }

  // ---------- the sequence number ----------

  /** How often handlers have run. */
  function Calls(js: seq<Job>): nat {
    if js == [] then 0 else |js[0].results| + Calls(js[1..])
  }

  lemma {:induction false} CallsAppend(a: seq<Job>, b: seq<Job>)
    ensures Calls(a + b) == Calls(a) + Calls(b)
  {
    if a == [] {
      PlusNothing(b);
    } else {
      TailOfSum(a, b);
      CallsAppend(a[1..], b);
    }
  }

  lemma {:induction false} CallsUpdate(js: seq<Job>, i: nat, j: Job)
    requires i < |js|
    ensures Calls(js[i := j]) == Calls(js) - |js[i].results| + |j.results|
  {
    if i == 0 {
      assert js[0 := j][1..] == js[1..];
    } else {
      assert js[i := j][1..] == js[1..][i - 1 := j];
      CallsUpdate(js[1..], i - 1, j);
    }
  }

  predicate Numbered(s: St) {
    s.cmdSeq == Calls(s.jobs) % 256
  }

  lemma WorkedCounts(s: St, stage: Stage, i: Id, env: Env)
    requires i < |s.jobs| && stage != Vetting
    ensures
      var t := Worked(s, stage, i, env);
      || t == s
      || (t.jobs == s.jobs[i := Treated(s.jobs[i], stage, env)] && t.cmdSeq == if stage == Handling then (s.cmdSeq + 1) % 256 else s.cmdSeq)
  {
    hide Treated, Following;
  }

  lemma TreatedCounts(j: Job, stage: Stage, env: Env)
    ensures |Treated(j, stage, env).results| == |j.results| + if stage == Handling then 1 else 0
  {
    hide Keeps;
  }

  lemma {:induction false} WorkedNumbered(s: St, stage: Stage, i: Id, env: Env)
    requires Numbered(s) && i < |s.jobs| && stage != Vetting
    ensures Numbered(Worked(s, stage, i, env))
  {
    hide Calls, Worked, Treated;
    WorkedCounts(s, stage, i, env);
    TreatedCounts(s.jobs[i], stage, env);
    CallsUpdate(s.jobs, i, Treated(s.jobs[i], stage, env));
  }

  lemma PolledCounts(s: St, env: Env)
    requires Idle(s.pc)
    ensures
      var t := Polled(s, env);
      && t.cmdSeq == s.cmdSeq
      && (t.jobs == s.jobs || (s.queue != [] && s.queue[0] < |s.jobs| && t.jobs == s.jobs[s.queue[0] := Gone(s.jobs[s.queue[0]])]))
  {
    hide Onward, Gone;
  }

  lemma {:induction false} PolledNumbered(s: St, env: Env)
    requires Numbered(s) && Idle(s.pc)
    ensures Numbered(Polled(s, env))
  {
    hide Calls, Polled;
    PolledCounts(s, env);
    if s.queue != [] && s.queue[0] < |s.jobs| {
      CallsUpdate(s.jobs, s.queue[0], Gone(s.jobs[s.queue[0]]));
    }
  }

  lemma {:induction false} ThreadNumbered(s: St, env: Env)
    requires Numbered(s)
    ensures Numbered(ThreadStep(s, env))
  {
    hide Calls, Harms, Polled, Vetted, Worked;
    if Idle(s.pc) {
      PolledNumbered(s, env);
    } else if s.pc.id < |s.jobs| {
      var i := s.pc.id;
      if s.pc.stage == Vetting {
        var res := VettedIs(s, i, env);
        CallsUpdate(s.jobs, i, s.jobs[i].(res := res));
      } else {
        WorkedNumbered(s, s.pc.stage, i, env);
      }
    }
  }

  lemma {:induction false} StepNumbered(s: St, a: Action)
    requires Numbered(s)
    ensures Numbered(Step(s, a))
  {
    hide Calls, Enqueued, ThreadStep, StopStep, SpawnerStep, Acted;
    if a.ThreadAct? {
      ThreadNumbered(s, a.env);
    } else if a.Enqueue? {
      EnqueuedIs(s, a.cmd);
      CallsAppend(s.jobs, [NewJob(a.cmd)]);
      NoCalls(a.cmd);
    } else if a.OwnerAct? {
      if a.id < |s.jobs| {
        ActedAside(s.jobs[a.id], s.mutex == Nobody, a.cut);
        CallsUpdate(s.jobs, a.id, Acted(s.jobs[a.id], s.mutex == Nobody, a.cut));
      }
    } else {
      OutsideIs(s, a);
      OutsideSeq(s, a);
    }
  }

  lemma NoCalls(c: Cmd)
    ensures Calls([NewJob(c)]) == 0
  {
    assert [NewJob(c)][1..] == [];
  }

  lemma OutsideSeq(s: St, a: Action)
    requires Outside(a)
    ensures Step(s, a).cmdSeq == s.cmdSeq
  {
    hide Moved;
  }

  lemma {:induction false} RunNumbered(s: St, run: seq<Action>)
    requires Numbered(s)
    ensures Numbered(Run(s, run))
    decreases |run|
  {
    if run != [] {
      hide Numbered, Step;
      StepNumbered(s, run[0]);
      RunNumbered(Step(s, run[0]), run[1..]);
    }
  }

  /** Over every run the sequence number counts the handlers' calls, modulo 256. */
  lemma {:induction false} SequenceCountsCalls(lclk: bool, run: seq<Action>)
    ensures Run(Init(lclk), run).cmdSeq == Calls(Run(Init(lclk), run).jobs) % 256
  {
    RunNumbered(Init(lclk), run);
    hide Run, Calls;
  }
}
