/** Over every run the accepted commands are the finished ones, then the dropped ones, then the one in
    hand, then the queue: nothing is lost, doubled or overtaken. */
module CmdOrder {
  import opened CmdProtocol

  function Hand(pc: Pc): seq<Id> {
    if pc.Working? then [pc.id] else []
  }

  /** The commands inserted and not yet given away, oldest first. */
  function Live(s: St): seq<Id> {
    Hand(s.pc) + s.queue
  }

  ghost predicate Rising(q: seq<Id>) {
    forall a, b :: 0 <= a < b < |q| ==> q[a] < q[b]
  }

  predicate Leaves(pc: Pc) {
    pc == Draining || pc == Ending || pc == Done
  }

  predicate Starts(pc: Pc) {
    pc == Zeroing || pc == Raising
  }

  ghost predicate InOrder(s: St) {
    s.accepted == s.finished + s.dropped + Live(s)
  }

  ghost predicate Known(s: St) {
    Rising(s.accepted) && forall i :: i in s.accepted ==> i < |s.jobs|
  }

  /** A command is given away exactly when it is neither in hand nor queued; it is freed then, unless its
      callback keeps it. */
  ghost predicate GivenOnce(s: St) {
    forall i :: 0 <= i < |s.jobs| ==>
      && (s.jobs[i].over <==> i !in Live(s))
      && (s.jobs[i].freed <==> s.jobs[i].over && !(i in s.finished && Keeps(s.jobs[i])))
  }

  predicate Phase(s: St) {
    && (s.dropped != [] ==> Leaves(s.pc))
    && (Leaves(s.pc) || Starts(s.pc) ==> !s.running)
    && (s.pc == Ending || s.pc == Done || Starts(s.pc) ==> s.queue == [])
  }

  ghost predicate Traced(s: St) {
    InOrder(s) && Known(s) && GivenOnce(s) && Phase(s)
  }

  // ---------- sequences ----------

  lemma RisingPart(a: seq<Id>, b: seq<Id>)
    requires Rising(a + b)
    ensures Rising(b)
    ensures forall i :: i in b ==> i in a + b
  {
    forall x, y | 0 <= x < y < |b|
      ensures b[x] < b[y]
    {
      assert (a + b)[|a| + x] == b[x] && (a + b)[|a| + y] == b[y];
    }
  }

  lemma LiveKnown(s: St)
    requires InOrder(s) && Known(s)
    ensures Rising(Live(s)) && forall i :: i in Live(s) ==> i < |s.jobs|
  {
    hide Live;
    RisingPart(s.finished + s.dropped, Live(s));
  }

  // ---------- steps that give nothing away ----------

  /** The same commands are accepted, finished, dropped and live. */
  ghost predicate Aside(s: St, t: St) {
    t.accepted == s.accepted && t.finished == s.finished && t.dropped == s.dropped && Live(t) == Live(s)
  }

  lemma {:induction false} AsideKeeps(s: St, t: St)
    requires Traced(s) && Aside(s, t) && Phase(t) && t.jobs == s.jobs
    ensures Traced(t)
  {
    hide Live, Phase;
  }

  lemma {:induction false} OneJobKeeps(s: St, t: St, i: Id, j: Job)
    requires Traced(s) && Aside(s, t) && Phase(t)
    requires i < |s.jobs| && t.jobs == s.jobs[i := j] && j.freed == s.jobs[i].freed && j.over == s.jobs[i].over
    requires i in s.finished ==> Keeps(j) == Keeps(s.jobs[i])
    ensures Traced(t)
  {
    hide Live, Phase, Keeps;
  }

  lemma HandKnown(s: St)
    requires Traced(s)
    ensures s.pc.Working? ==> s.pc.id < |s.jobs| && !s.jobs[s.pc.id].over && !s.jobs[s.pc.id].freed
  {
    LiveKnown(s);
    assert s.pc.Working? ==> Live(s)[0] == s.pc.id && s.pc.id in Live(s);
  }

  /** What is in hand has not been finished. */
  lemma HandIsOpen(s: St)
    requires Traced(s) && s.pc.Working?
    ensures s.pc.id !in s.finished
  {
    var n := |s.finished + s.dropped|;
    assert s.accepted[n] == s.pc.id;
    forall k | 0 <= k < |s.finished|
      ensures s.finished[k] != s.pc.id
    {
      assert s.accepted[k] == s.finished[k];
    }
  }

  lemma PutBackLive(i: Id, q: seq<Id>)
    ensures [] + ([i] + q) == [i] + q
  {
  }

  lemma TakenLive(q: seq<Id>)
    requires q != []
    ensures [q[0]] + q[1..] == [] + q
  {
  }

  /** Vetting changes only the command's code, and where the thread goes from there. */
  lemma {:induction false} VettedIs(s: St, i: Id, env: Env) returns (res: nat)
    requires i < |s.jobs|
    ensures
      var t := Vetted(s, i, env);
      && t == s.(jobs := s.jobs[i := s.jobs[i].(res := res)], pc := t.pc, queue := t.queue)
      && (t.pc == Sema || t.pc == Working(Handling, i) || (t.pc == Working(Entering, i) && res != H2C_SUCCESS))
      && t.queue == if t.pc == Sema then [i] + s.queue else s.queue
  {
    hide Refusal, PutsBack;
    var j := s.jobs[i];
    assert s.jobs == s.jobs[i := j.(res := j.res)];
    res := if Refusal(s, j.cmd) != H2C_SUCCESS then Refusal(s, j.cmd) else if PutsBack(s, j.cmd, env) then H2C_ENQ_HEAD else j.res;
  }

  lemma VettedAside(s: St, t: St, i: Id)
    requires s.pc == Working(Vetting, i) && Phase(s) && t == s.(jobs := t.jobs, pc := t.pc, queue := t.queue)
    requires t.pc == Sema || (t.pc.Working? && t.pc.id == i)
    requires t.queue == if t.pc == Sema then [i] + s.queue else s.queue
    ensures Aside(s, t) && Phase(t)
  {
    PutBackLive(i, s.queue);
  }

  lemma {:induction false} VettedKeeps(s: St, i: Id, env: Env)
    requires Traced(s) && s.pc == Working(Vetting, i) && i < |s.jobs|
    ensures Traced(Vetted(s, i, env))
  {
    hide Traced, Keeps, Vetted, Aside, Phase;
    HandIsOpen(s);
    TracedPhase(s);
    var res := VettedIs(s, i, env);
    VettedAside(s, Vetted(s, i, env), i);
    OneJobKeeps(s, Vetted(s, i, env), i, s.jobs[i].(res := res));
  }

  lemma {:induction false} WorkedKeeps(s: St, stage: Stage, i: Id, env: Env)
    requires Traced(s) && s.pc == Working(stage, i) && i < |s.jobs| && stage != Vetting
    ensures Traced(Worked(s, stage, i, env))
  {
    if stage == Finishing {
      FinishKeeps(s, i, env);
    } else {
      hide Traced, Keeps;
      HandIsOpen(s);
      assert Phase(s) by { TracedPhase(s); }
      var t := Worked(s, stage, i, env);
      if t == s {
      } else {
        OneJobKeeps(s, t, i, Treated(s.jobs[i], stage, env));
      }
    }
  }

  lemma FinishIs(s: St, i: Id, env: Env)
    requires s.pc == Working(Finishing, i) && i < |s.jobs|
    ensures Worked(s, Finishing, i, env) ==
      s.(jobs := s.jobs[i := s.jobs[i].(freed := !Keeps(s.jobs[i]), over := true)], pc := Next, finished := s.finished + [i])
    ensures Keeps(s.jobs[i].(freed := !Keeps(s.jobs[i]), over := true)) == Keeps(s.jobs[i])
  {
  }

  /** Finishing moves the command in hand to the end of the finished ones. */
  lemma {:induction false} FinishKeeps(s: St, i: Id, env: Env)
    requires Traced(s) && s.pc == Working(Finishing, i) && i < |s.jobs|
    ensures Traced(Worked(s, Finishing, i, env))
  {
    hide Worked, Keeps;
    FinishIs(s, i, env);
    var t := Worked(s, Finishing, i, env);
    LiveKnown(s);
    GiveAway(s, t, i);
    assert s.dropped == [];
    assert t.finished + t.dropped + Live(t) == s.finished + s.dropped + Live(s);
  }

  /** Giving away the first live command. */
  lemma {:induction false} GiveAway(s: St, t: St, i: Id)
    requires GivenOnce(s) && i < |s.jobs| && Live(s) == [i] + Live(t) && Rising(Live(s))
    requires |t.jobs| == |s.jobs| && t.jobs == s.jobs[i := t.jobs[i]] && t.jobs[i].over
    requires t.jobs[i].freed <==> !(i in t.finished && Keeps(t.jobs[i]))
    requires forall k :: k != i ==> (k in t.finished <==> k in s.finished)
    ensures GivenOnce(t)
  {
    hide Live, Keeps;
    forall x | 0 <= x < |Live(t)|
      ensures Live(t)[x] != i
    {
      assert Live(s)[0] == i && Live(s)[x + 1] == Live(t)[x];
    }
    forall k | 0 <= k < |t.jobs|
      ensures t.jobs[k].over <==> k !in Live(t)
      ensures t.jobs[k].freed <==> t.jobs[k].over && !(k in t.finished && Keeps(t.jobs[k]))
    {
      if k != i {
        assert k in Live(s) <==> k in Live(t);
      }
    }
  }

  lemma {:induction false} DroppedKeeps(s: St)
    requires Traced(s) && s.pc == Draining && s.queue != []
    ensures Traced(Dropped(s))
  {
    var t := Dropped(s);
    LiveKnown(s);
    TakenLive(s.queue);
    QueuedIsOpen(s, 0);
    assert Live(s) == [s.queue[0]] + Live(t);
    assert s.queue[0] in Live(s);
    GiveAway(s, t, s.queue[0]);
    assert t.finished + t.dropped + Live(t) == s.finished + s.dropped + Live(s);
  }

  lemma QueuedIsOpen(s: St, q: nat)
    requires Traced(s) && !s.pc.Working? && q < |s.queue|
    ensures s.queue[q] !in s.finished
  {
    var n := |s.finished + s.dropped| + q;
    assert s.accepted[n] == s.queue[q];
    forall k | 0 <= k < |s.finished|
      ensures s.finished[k] != s.queue[q]
    {
      assert s.accepted[k] == s.finished[k];
    }
  }

  // ---------- what a step of the thread can change ----------

  lemma PolledIs(s: St, env: Env)
    requires Idle(s.pc)
    ensures
      var t := Polled(s, env);
      t == s.(pc := t.pc, stopReq := t.stopReq, running := t.running, term := t.term, sema := t.sema, queue := t.queue,
              jobs := t.jobs, dropped := t.dropped)
  {
    hide Onward, Gone;
  }

  lemma PolledPc(s: St, env: Env)
    requires Idle(s.pc)
    ensures Polled(s, env).pc == if s.pc == Draining && s.queue != [] then Draining else Onward(s, env)
  {
    hide Onward, Gone;
  }

  lemma WorkedIs(s: St, stage: Stage, i: Id, env: Env)
    requires i < |s.jobs| && stage != Vetting
    ensures
      var t := Worked(s, stage, i, env);
      t == s.(pc := t.pc, jobs := t.jobs, mutex := t.mutex, cmdSeq := t.cmdSeq, finished := t.finished,
              threadIntruded := t.threadIntruded)
  {
    hide Treated, Following;
  }

  lemma WorkedGoes(s: St, stage: Stage, i: Id, env: Env)
    requires i < |s.jobs| && stage != Vetting
    ensures
      var t := Worked(s, stage, i, env);
      && t.queue == s.queue
      && if stage == Entering && s.mutex != Nobody && !env.interrupted then t == s
         else t.pc == (if stage == Finishing then Next else Working(Following(s.jobs[i], stage), i))
              && t.finished == if stage == Finishing then s.finished + [i] else s.finished
  {
    hide Treated, Following;
  }

  lemma {:induction false} ThreadIs(s: St, env: Env)
    ensures
      var t := ThreadStep(s, env);
      && t == s.(pc := t.pc, stopReq := t.stopReq, running := t.running, term := t.term, sema := t.sema, queue := t.queue,
                 jobs := t.jobs, dropped := t.dropped, mutex := t.mutex, cmdSeq := t.cmdSeq, finished := t.finished,
                 threadIntruded := t.threadIntruded, faults := t.faults)
      && (s.threadIntruded ==> t.threadIntruded)
  {
    hide Polled, Vetted, Worked, Harms;
    if Idle(s.pc) {
      PolledIs(s, env);
    } else if s.pc.id < |s.jobs| {
      if s.pc.stage == Vetting {
        var _ := VettedIs(s, s.pc.id, env);
      } else {
        WorkedIs(s, s.pc.stage, s.pc.id, env);
        IntrudedStays(s, s.pc.stage, s.pc.id, env);
      }
    }
  }

  lemma IntrudedStays(s: St, stage: Stage, i: Id, env: Env)
    requires i < |s.jobs| && stage != Vetting
    ensures s.threadIntruded ==> Worked(s, stage, i, env).threadIntruded
  {
    hide Treated, Following;
  }

  lemma TracedPhase(s: St)
    requires Traced(s)
    ensures Phase(s)
  {
  }

  lemma PolledJobs(s: St, env: Env)
    requires Idle(s.pc) && !(s.pc == Draining && s.queue != [])
    ensures Polled(s, env).jobs == s.jobs
    ensures Aside(s, Polled(s, env))
  {
    if s.pc == Taking && s.queue != [] {
      TakenLive(s.queue);
    }
  }

  lemma PolledPhase(s: St, env: Env)
    requires Idle(s.pc) && Phase(s) && !(s.pc == Draining && s.queue != [])
    ensures Phase(Polled(s, env))
  {
  }

  lemma {:induction false} PolledKeeps(s: St, env: Env)
    requires Traced(s) && Idle(s.pc)
    ensures Traced(Polled(s, env))
  {
    if s.pc == Draining && s.queue != [] {
      DroppedKeeps(s);
    } else {
      hide Traced, Aside, Phase, Polled;
      assert Phase(s) by { TracedPhase(s); }
      PolledJobs(s, env);
      PolledPhase(s, env);
      AsideKeeps(s, Polled(s, env));
    }
  }

  lemma {:induction false} FaultsAside(s: St, faults: set<Fault>)
    requires Traced(s)
    ensures Traced(s.(faults := faults))
  {
    AsideKeeps(s, s.(faults := faults));
  }

  lemma {:induction false} ThreadStepKeeps(s: St, env: Env)
    requires Traced(s)
    ensures Traced(ThreadStep(s, env))
  {
    hide Traced, Polled, Vetted, Worked, Harms;
    if Idle(s.pc) {
      PolledKeeps(s, env);
    } else if s.pc.id < |s.jobs| {
      var i := s.pc.id;
      if s.pc.stage == Vetting {
        VettedKeeps(s, i, env);
        FaultsAside(Vetted(s, i, env), ThreadStep(s, env).faults);
      } else {
        WorkedKeeps(s, s.pc.stage, i, env);
        FaultsAside(Worked(s, s.pc.stage, i, env), ThreadStep(s, env).faults);
      }
    }
  }

  // ---------- the other parties ----------

  lemma RisingMore(q: seq<Id>, n: Id)
    requires Rising(q) && forall i :: i in q ==> i < n
    ensures Rising(q + [n]) && forall i :: i in q + [n] ==> i < n + 1
  {
    forall a, b | 0 <= a < b < |q + [n]|
      ensures (q + [n])[a] < (q + [n])[b]
    {
      assert q[a] in q;
    }
  }

  lemma EnqueuedIs(s: St, c: Cmd)
    ensures
      var t := Enqueued(s, c);
      && t == s.(jobs := t.jobs, queue := t.queue, accepted := t.accepted, sema := t.sema)
      && (t.jobs == s.jobs || t.jobs == s.jobs + [NewJob(c)])
      && (!s.running ==> t == s)
  {
    hide NewJob;
  }

  lemma EnqueuedUp(s: St, c: Cmd)
    ensures
      var t := Enqueued(s, c);
      || (t.queue == s.queue && t.sema == s.sema && t.accepted == s.accepted)
      || (t.queue == s.queue + [|s.jobs|] && t.sema == s.sema + 1 && t.accepted == s.accepted + [|s.jobs|])
  {
    hide Admits, NewJob;
    if Admits(s, c) && c.size <= MAX_CMDSZ {
      assert Enqueued(s, c).queue == s.queue + [|s.jobs|];
    } else {
      assert Enqueued(s, c).queue == s.queue;
    }
  }

  /** A command inserted at the end. */
  lemma {:induction false} InsertKeeps(s: St, t: St, c: Cmd)
    requires Traced(s) && t == Enqueued(s, c) && Admits(s, c) && c.size <= MAX_CMDSZ
    ensures Traced(t)
  {
    var n := |s.jobs|;
    RisingMore(s.accepted, n);
    LiveKnown(s);
    assert Live(t) == Live(s) + [n];
    assert t.accepted == t.finished + t.dropped + Live(t);
    hide Live, Known, InOrder, Admits;
    assert forall i :: i in Live(t) <==> i in Live(s) || i == n;
  }

  /** A command that is too long is freed at once and never live. */
  lemma {:induction false} TooLongKeeps(s: St, t: St, c: Cmd)
    requires Traced(s) && t == Enqueued(s, c) && Admits(s, c) && c.size > MAX_CMDSZ
    ensures Traced(t)
  {
    LiveKnown(s);
    assert Live(t) == Live(s) && |s.jobs| !in Live(t);
    hide Live, Admits;
  }

  lemma {:induction false} EnqueuedKeeps(s: St, c: Cmd)
    requires Traced(s)
    ensures Traced(Enqueued(s, c))
  {
    hide Traced;
    if Admits(s, c) {
      if c.size > MAX_CMDSZ {
        TooLongKeeps(s, Enqueued(s, c), c);
      } else {
        InsertKeeps(s, Enqueued(s, c), c);
      }
    }
  }

  lemma ActedIs(j: Job, mutexFree: bool, cut: bool)
    ensures var k := Acted(j, mutexFree, cut); Keeps(k) == Keeps(j) && k.freed == j.freed && k.over == j.over
  {
  }

  lemma {:induction false} OwnerStepKeeps(s: St, i: Id, cut: bool)
    requires Traced(s)
    ensures Traced(OwnerStep(s, i, cut))
  {
    if i < |s.jobs| {
      hide Traced, Acted, Keeps;
      assert Phase(s) by { TracedPhase(s); }
      ActedIs(s.jobs[i], s.mutex == Nobody, cut);
      OneJobKeeps(s, OwnerStep(s, i, cut), i, Acted(s.jobs[i], s.mutex == Nobody, cut));
    }
  }

  predicate Outside(a: Action) {
    !a.Enqueue? && !a.ThreadAct? && !a.OwnerAct?
  }

  /** What a step leaves alone that concerns no command. */
  predicate Untouched(s: St, t: St) {
    && t.jobs == s.jobs && t.pc == s.pc && t.running == s.running && t.queue == s.queue && t.mutex == s.mutex
    && t.accepted == s.accepted && t.finished == s.finished && t.dropped == s.dropped && t.faults == s.faults
    && t.threadIntruded == s.threadIntruded && t.ownerIntruded == s.ownerIntruded
    && t.lclk == s.lclk && t.sema >= s.sema
  }

  lemma StopUntouched(s: St, k: nat, interrupted: bool)
    ensures Untouched(s, StopStep(s, k, interrupted))
  {
    hide Moved;
  }

  lemma SpawnerUntouched(s: St, interrupted: bool)
    ensures Untouched(s, SpawnerStep(s, interrupted))
  {
    if SpawnerStep(s, interrupted) != s {
      assert s.spawner == Pending;
    }
  }

  lemma OutsideIs(s: St, a: Action)
    requires Outside(a)
    ensures Untouched(s, Step(s, a))
  {
    hide StopStep, SpawnerStep, Enqueued, ThreadStep, OwnerStep;
    if a.StopAct? {
      StopUntouched(s, a.k, a.interrupted);
    } else if a.SpawnerAct? {
      SpawnerUntouched(s, a.interrupted);
    }
  }

  lemma {:induction false} OutsideKeeps(s: St, a: Action)
    requires Traced(s) && Outside(a)
    ensures Traced(Step(s, a))
  {
    OutsideIs(s, a);
    hide Traced, Step;
    assert Phase(s) by { TracedPhase(s); }
    assert Phase(Step(s, a));
    AsideKeeps(s, Step(s, a));
  }

  lemma {:induction false} StepKeepsTrace(s: St, a: Action)
    requires Traced(s)
    ensures Traced(Step(s, a))
  {
    hide Traced, Enqueued, ThreadStep, OwnerStep;
    match a {
      case Enqueue(c) => EnqueuedKeeps(s, c);
      case ThreadAct(env) => ThreadStepKeeps(s, env);
      case OwnerAct(i, cut) => OwnerStepKeeps(s, i, cut);
      case _ => OutsideKeeps(s, a);
    }
  }

  // ---------- over runs ----------

  lemma {:induction false} RunKeepsTrace(s: St, run: seq<Action>)
    requires Traced(s)
    ensures Traced(Run(s, run))
    decreases |run|
  {
    if run != [] {
      hide Traced, Step;
      StepKeepsTrace(s, run[0]);
      RunKeepsTrace(Step(s, run[0]), run[1..]);
    }
  }

  /** In every reachable state the accepted commands, in the order of their acceptance, are those
      finished, those dropped by the drain, the one in hand and those queued, and no command is there
      twice.  Nothing is dropped before the drain begins.  What is in hand or queued has not been freed;
      everything else has, but for the commands that failed and whose callback keeps them. */
  lemma {:induction false} EveryCommandLeavesOnceInOrder(lclk: bool, run: seq<Action>)
    ensures
      var s := Run(Init(lclk), run);
      && s.accepted == s.finished + s.dropped + Hand(s.pc) + s.queue
      && Rising(s.accepted)
      && (s.dropped != [] ==> Leaves(s.pc))
      && (forall i :: 0 <= i < |s.jobs| ==>
            (s.jobs[i].freed <==> i !in Hand(s.pc) && i !in s.queue && !(i in s.finished && Keeps(s.jobs[i]))))
  {
    RunKeepsTrace(Init(lclk), run);
    var s := Run(Init(lclk), run);
    hide Run, Keeps;
    assert s.finished + s.dropped + Live(s) == s.finished + s.dropped + Hand(s.pc) + s.queue;
    assert forall i :: i in Live(s) <==> i in Hand(s.pc) || i in s.queue;
  }
}
