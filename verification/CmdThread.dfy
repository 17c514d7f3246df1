/** The command thread, its queue and the other parties in memory: commands and completions are objects that
    point to each other, the thread is the source's nested loop, and between any two of its steps the others
    do whatever the schedule says.  What comes of it is a run of the protocol (`core/rtw_cmd.c`). */
module CmdThread {
  import opened CmdProtocol
  import opened CmdOrder
  import opened CmdOutcome
  import opened CmdLifetime
  import opened CmdOrphans
  import opened CmdExecution
  import opened CmdRuns
  import opened CmdMemory
  import Memory

  // ---------- the schedule ----------

  /** What another party does. */
  type Foreign = a: Action | !a.ThreadAct? witness StopCall

  /** Before the thread's next step the others do this; the step itself meets that. */
  datatype Turn = Turn(others: seq<Foreign>, env: Env)

  /** The run that some turns amount to. */
  function Script(turns: seq<Turn>): seq<Action> {
    if turns == [] then [] else turns[0].others + [ThreadAct(turns[0].env)] + Script(turns[1..])
  }

  /** What a step of the thread gives: it has gone on with a value, or the schedule was over before it. */
  datatype Met<+T> = Suspended | Went(value: T) {
    predicate IsFailure() {
      Suspended?
    }

    function PropagateFailure<U>(): Met<U>
      requires IsFailure()
    {
      Suspended
    }

    function Extract(): T
      requires !IsFailure()
    {
      value
    }
  }

  lemma {:induction false} RunSnoc(s: St, run: seq<Action>, a: Action)
    ensures Run(s, run + [a]) == Step(Run(s, run), a)
  {
    hide Run, Step;
    RunTwo(s, run, [a]);
    OneAct(Run(s, run), a);
  }

  class CmdPriv {
    const lclk: bool
    const queue: CmdQueue
    const sctxMutex: Mutex
    var cmdQueueSema: nat
    var terminateSema: nat
    var running: bool
    var stopReq: bool
    var hwInit: bool
    var cmdSeq: nat
    /** By number of their command: the frames of the submitters that wait or have waited. */
    var owners: seq<Frame?>
    var stops: seq<Stopper>
    var spawner: Spawner
    /** What is to come of the schedule. */
    var turns: seq<Turn>
    /** Where the thread is. */
    ghost var at: Pc
    ghost var objs: seq<CmdObj>
    ghost var cmds: set<CmdObj>
    ghost var frames: set<Frame>
    ghost var accepted: seq<Id>
    ghost var finished: seq<Id>
    ghost var dropped: seq<Id>
    ghost var joined: nat
    ghost var faults: set<Fault>
    ghost var threadIntruded: bool
    ghost var ownerIntruded: bool
    ghost var log: seq<Action>
    ghost const plan: seq<Action>

    // ---------- the state in memory ----------

    /** Every command is numbered, and its submitter's frame, if it waits, points to it. */
    ghost predicate Shape()
      reads this`objs, this`owners, this`cmds, this`frames
    {
      && |owners| == |objs|
      && forall i :: 0 <= i < |objs| ==> objs[i].id == i && objs[i] in cmds && Owned(objs[i], owners[i])
    }

    ghost predicate Owned(o: CmdObj, f: Frame?)
      reads this`frames
    {
      Watched(o, f) && (f != null ==> f in frames)
    }

    static ghost predicate Watched(o: CmdObj, f: Frame?) {
      (f == null <==> o.cmd.wait == NoWait) && (f != null ==> f.pcmd == o && (f.looks <==> o.cmd.wait == Checked))
    }

    /** Only known commands are listed. */
    ghost predicate Listed()
      reads this`objs, this`cmds, queue, cmds`next, cmds`prev
    {
      (forall o :: o in queue.chain ==> o in cmds && o.id < |objs| && objs[o.id] == o) && queue.Valid()
    }

    /** A command points to its own submitter's frame or nowhere. */
    ghost predicate Pointed()
      requires Shape()
      reads this`objs, this`owners, this`cmds, this`frames, cmds`sctx
    {
      forall i :: 0 <= i < |objs| ==> objs[i].sctx == null || objs[i].sctx == owners[i]
    }

    /** The pointers are as they should be. */
    ghost predicate Fit(): (fit: bool)
      reads this`objs, this`owners, this`cmds, this`frames, sctxMutex, queue, cmds`next, cmds`prev, cmds`sctx
      ensures fit ==> Shape() && forall o :: o in queue.chain ==> o in cmds
    {
      Shape() && Listed() && Pointed() && sctxMutex.Valid()
    }

    ghost function Jobs(): (r: seq<Job>)
      requires Shape()
      reads this`objs, this`owners, this`cmds, this`frames, cmds`freed, cmds`over, cmds`left, cmds`sctx, cmds`res, cmds`results, frames
      ensures |r| == |objs|
    {
      JobsOf(objs, owners)
    }

    /** The protocol's state. */
    ghost function State(): St
      requires Shape()
      reads this`objs, this`owners, this`cmds, this`frames, cmds`freed, cmds`over, cmds`left, cmds`sctx, cmds`res, cmds`results, frames
      reads queue, this`cmdQueueSema, this`terminateSema, this`running, this`stopReq, this`hwInit, this`cmdSeq, this`at, sctxMutex
      reads this`stops, this`spawner, this`accepted, this`finished, this`dropped, this`joined, this`faults
      reads this`threadIntruded, this`ownerIntruded
    {
      St(lclk, Jobs(), IdsOf(queue.chain), cmdQueueSema, terminateSema, running, stopReq, hwInit, cmdSeq, at, sctxMutex.holder, stops,
         spawner, accepted, finished, dropped, joined, faults, threadIntruded, ownerIntruded)
    }

    /** The state is what the actions so far make of the initial one. */
    ghost predicate Ran(): (ran: bool)
      reads this, sctxMutex, queue, cmds, frames
      ensures ran ==> Fit() && Shape()
    {
      Fit() && State() == Run(Init(lclk), log)
    }

    /** And the actions so far, with what is still to come, are the plan. */
    ghost predicate Valid()
      reads this, sctxMutex, queue, cmds, frames
    {
      Ran() && log + Script(turns) == plan
    }

    /** The thread's step is due and will meet this. */
    ghost predicate Due(env: Env)
      reads this, sctxMutex, queue, cmds, frames
    {
      Ran() && log + [ThreadAct(env)] + Script(turns) == plan
    }

    constructor (lclk: bool, turns: seq<Turn>)
      ensures Valid() && at == Zeroing && plan == Script(turns) && this.turns == turns
      ensures fresh(queue) && fresh(sctxMutex) && cmds == {} && frames == {}
    {
      this.lclk, this.turns, plan := lclk, turns, Script(turns);
      queue := new CmdQueue();
      cmdQueueSema, terminateSema, running, stopReq, hwInit, cmdSeq := 0, 0, false, false, false, 0;
      sctxMutex := new Mutex();
      owners, stops, spawner := [], [], Pending;
      at, objs, cmds, frames := Zeroing, [], {}, {};
      accepted, finished, dropped, joined, faults, log := [], [], [], 0, {}, [];
      threadIntruded, ownerIntruded := false, false;
      new;
      hide Script, CmdQueue.Valid, JobsOf, IdsOf;
      assert log + Script(this.turns) == plan;
      NoJobs();
    }

    /** New commands and frames are newly allocated. */
    twostate predicate Grown()
      reads this
    {
      && (forall o :: o in cmds ==> o in old(cmds) || fresh(o))
      && (forall f :: f in frames ==> f in old(frames) || fresh(f))
    }

    lemma NoJobs()
      ensures JobsOf([], []) == [] && IdsOf([]) == []
    {
    }

    /** An action done in memory is added to the log. */
    ghost method Note(a: Action, was: St)
      requires Fit() && was == Run(Init(lclk), log) && State() == Step(was, a)
      modifies this`log
      ensures Ran() && log == old(log) + [a]
    {
      hide Step, Run, Fit, State;
      RunSnoc(Init(lclk), log, a);
      log := log + [a];
    }

    /** The state after one command or its submitter's frame has changed. */
    lemma OneJob(was: seq<Job>, i: Id)
      requires Shape() && i < |objs| == |was|
      requires forall k :: 0 <= k < |objs| && k != i ==> was[k] == JobOf(objs[k], owners[k])
      ensures Jobs() == was[i := JobOf(objs[i], owners[i])]
    {
      hide JobOf;
    }

    lemma Apart(i: Id)
      requires Shape() && i < |objs|
      ensures forall k :: 0 <= k < |objs| && k != i ==> objs[k] != objs[i] && (owners[k] == null || owners[k] != owners[i])
    {
      forall k | 0 <= k < |objs| && k != i
        ensures objs[k] != objs[i] && (owners[k] == null || owners[k] != owners[i])
      {
        assert objs[k].id != objs[i].id;
        assert Owned(objs[k], owners[k]) && Owned(objs[i], owners[i]);
      }
    }

    // ---------- submitting ----------

    /** rtw_cmd_filter */
    method CmdFilter(c: Cmd) returns (ok: bool)
      requires Shape()
      ensures ok == Admits(State(), c)
      ensures ok == (running && (hwInit || c.noIo || c.exempt))
    {
      var allow := false;
      if c.exempt {
        allow := true;
      }
      if c.noIo {
        allow := true;
      }
      if (!hwInit && !allow) || !running {
        return false;
      }
      ok := true;
    }

    static ghost function Only(f: Frame?): set<Frame> {
      if f == null then {} else {f}
    }

    /** A command that its submitter has just filled in. */
    ghost predicate Made(pcmd: CmdObj, frame: Frame?)
      reads pcmd, frame
    {
      && Watched(pcmd, frame) && !pcmd.freed && !pcmd.over && pcmd.res == H2C_SUCCESS && pcmd.results == [] && pcmd.sctx == frame
      && (frame != null ==> frame.status == Submitted && !frame.signalled && frame.at == Waiting && !frame.late)
    }

    /** The command is known from now on. */
    method Register(pcmd: CmdObj, frame: Frame?)
      requires Shape() && pcmd.id == |objs| && Watched(pcmd, frame)
      modifies this`objs, this`owners, this`cmds, this`frames
      ensures Shape() && objs == old(objs) + [pcmd] && owners == old(owners) + [frame]
      ensures cmds == old(cmds) + {pcmd} && frames == old(frames) + Only(frame)
      ensures Jobs() == old(Jobs()) + [JobOf(pcmd, frame)]
    {
      hide JobOf;
      objs, owners := objs + [pcmd], owners + [frame];
      cmds, frames := cmds + {pcmd}, frames + Only(frame);
    }

    lemma NewJobIs(pcmd: CmdObj, frame: Frame?)
      requires Watched(pcmd, frame) && pcmd.res == H2C_SUCCESS && pcmd.results == [] && pcmd.sctx == frame
      requires frame != null ==> frame.status == Submitted && !frame.signalled && frame.at == Waiting && !frame.late
      requires (pcmd.freed <==> pcmd.cmd.size > MAX_CMDSZ) && pcmd.over == pcmd.freed && (pcmd.freed ==> pcmd.left == (pcmd.sctx != null))
      ensures JobOf(pcmd, frame) == NewJob(pcmd.cmd)
    {
    }

    /** The command at the end of the list. */
    method Accept(pcmd: CmdObj, frame: Frame?)
      requires Fit() && pcmd !in cmds && pcmd.id == |objs| && Made(pcmd, frame) && pcmd.cmd.size <= MAX_CMDSZ
      modifies this`owners, this`objs, this`cmds, this`frames, queue, queue.chain`next, pcmd`next, pcmd`prev
      ensures Fit() && Jobs() == old(Jobs()) + [NewJob(pcmd.cmd)] && IdsOf(queue.chain) == IdsOf(old(queue.chain)) + [pcmd.id]
      ensures objs == old(objs) + [pcmd] && cmds == old(cmds) + {pcmd} && frames == old(frames) + Only(frame)
    {
      hide JobOf, Jobs, NewJob, Watched, CmdQueue.Valid, Owned, IdsOf;
      NewJobIs(pcmd, frame);
      IdsSnoc(queue.chain, pcmd);
      queue.InsertTail(pcmd);
      assert Jobs() == old(Jobs());
      Register(pcmd, frame);
    }

    lemma OneMore(s: St, t: St, c: Cmd)
      requires Admits(s, c)
      requires if c.size > MAX_CMDSZ then t == s.(jobs := s.jobs + [NewJob(c)])
               else t == s.(jobs := s.jobs + [NewJob(c)], queue := s.queue + [|s.jobs|], accepted := s.accepted + [|s.jobs|], sema := s.sema + 1)
      ensures t == Enqueued(s, c)
    {
      hide Admits, NewJob;
    }

    method CountUp(ghost i: Id)
      requires Shape()
      modifies this`accepted, this`cmdQueueSema
      ensures State() == old(State()).(accepted := old(State()).accepted + [i], sema := old(State()).sema + 1)
    {
      hide Shape, Jobs, IdsOf;
      accepted := accepted + [i];
      cmdQueueSema := cmdQueueSema + 1;
    }

    lemma IdsSnoc(c: seq<CmdObj>, o: CmdObj)
      ensures IdsOf(c + [o]) == IdsOf(c) + [o.id]
    {
    }

    /** A command that is too long is freed, and known all the same. */
    method Reject(pcmd: CmdObj, frame: Frame?)
      requires Fit() && pcmd !in cmds && pcmd.id == |objs| && Made(pcmd, frame) && pcmd.cmd.size > MAX_CMDSZ
      modifies this`owners, this`objs, this`cmds, this`frames, pcmd`freed, pcmd`over, pcmd`left
      ensures Fit() && Jobs() == old(Jobs()) + [NewJob(pcmd.cmd)] && pcmd.freed
      ensures objs == old(objs) + [pcmd] && cmds == old(cmds) + {pcmd} && frames == old(frames) + Only(frame)
    {
      hide JobOf, Jobs, NewJob, CmdQueue.Valid, Owned;
      pcmd.Free(frame);
      NewJobIs(pcmd, frame);
      hide Watched;
      assert Jobs() == old(Jobs());
      Register(pcmd, frame);
    }

    method AcceptState(pcmd: CmdObj, frame: Frame?)
      requires Fit() && pcmd !in cmds && pcmd.id == |objs| && Made(pcmd, frame) && pcmd.cmd.size <= MAX_CMDSZ
      modifies this`owners, this`objs, this`cmds, this`frames, queue, queue.chain`next, pcmd`next, pcmd`prev
      ensures Fit() && State() == old(State()).(jobs := old(State()).jobs + [NewJob(pcmd.cmd)], queue := old(State()).queue + [pcmd.id])
      ensures objs == old(objs) + [pcmd] && cmds == old(cmds) + {pcmd} && frames == old(frames) + Only(frame)
    {
      hide Jobs, IdsOf, NewJob, Fit, Shape, Made;
      Accept(pcmd, frame);
    }

    method RejectState(pcmd: CmdObj, frame: Frame?)
      requires Fit() && pcmd !in cmds && pcmd.id == |objs| && Made(pcmd, frame) && pcmd.cmd.size > MAX_CMDSZ
      modifies this`owners, this`objs, this`cmds, this`frames, pcmd`freed, pcmd`over, pcmd`left
      ensures Fit() && State() == old(State()).(jobs := old(State()).jobs + [NewJob(pcmd.cmd)]) && pcmd.freed
      ensures objs == old(objs) + [pcmd] && cmds == old(cmds) + {pcmd} && frames == old(frames) + Only(frame)
    {
      hide Jobs, IdsOf, NewJob, Fit, Shape, Made;
      Reject(pcmd, frame);
    }

    /** An allowed command becomes known: freed if it is too long, else listed, counted and announced. */
    method TakeLong(pcmd: CmdObj, frame: Frame?)
      requires Fit() && pcmd !in cmds && pcmd.id == |objs| && Made(pcmd, frame) && pcmd.cmd.size > MAX_CMDSZ && Admits(State(), pcmd.cmd)
      modifies this`owners, this`objs, this`cmds, this`frames, pcmd`freed, pcmd`over, pcmd`left
      ensures Fit() && State() == Enqueued(old(State()), pcmd.cmd) && pcmd.freed
      ensures objs == old(objs) + [pcmd] && cmds == old(cmds) + {pcmd} && frames == old(frames) + Only(frame)
    {
      hide State, Jobs, IdsOf, NewJob, Admits, Fit, Shape, Enqueued, Made;
      ghost var s := State();
      RejectState(pcmd, frame);
      OneMore(s, State(), pcmd.cmd);
    }

    method TakeShort(pcmd: CmdObj, frame: Frame?)
      requires Fit() && pcmd !in cmds && pcmd.id == |objs| && Made(pcmd, frame) && pcmd.cmd.size <= MAX_CMDSZ && Admits(State(), pcmd.cmd)
      modifies this`owners, this`objs, this`cmds, this`frames, this`accepted, this`cmdQueueSema
      modifies queue, queue.chain`next, pcmd`next, pcmd`prev
      ensures Fit() && State() == Enqueued(old(State()), pcmd.cmd)
      ensures objs == old(objs) + [pcmd] && cmds == old(cmds) + {pcmd} && frames == old(frames) + Only(frame)
    {
      hide State, Jobs, IdsOf, NewJob, Admits, Fit, Shape, Enqueued, Made;
      StateHas();
      ghost var s := State();
      AcceptState(pcmd, frame);
      CountUp(pcmd.id);
      OneMore(s, State(), pcmd.cmd);
    }

    /** rtw_enqueue_cmd: what it answers, and what becomes of the command. */
    method Enqueue(pcmd: CmdObj, frame: Frame?) returns (ok: bool)
      requires Fit() && pcmd !in cmds && pcmd.id == |objs| && Made(pcmd, frame)
      modifies this`owners, this`objs, this`cmds, this`frames, this`accepted, this`cmdQueueSema
      modifies queue, queue.chain`next, pcmd`next, pcmd`prev, pcmd`freed, pcmd`over, pcmd`left
      ensures Fit() && State() == Enqueued(old(State()), pcmd.cmd)
      ensures ok == Admits(old(State()), pcmd.cmd) && (pcmd.freed <==> !ok || pcmd.cmd.size > MAX_CMDSZ)
      ensures ok ==> objs == old(objs) + [pcmd] && cmds == old(cmds) + {pcmd} && frames == old(frames) + Only(frame)
      ensures !ok ==> objs == old(objs) && cmds == old(cmds) && frames == old(frames)
    {
      hide Jobs, State, Admits, Fit, Shape, Enqueued;
      MadeSound(pcmd, frame);
      hide Made;
      ok := CmdFilter(pcmd.cmd);
      if !ok {
        NoneMore(State(), pcmd.cmd);
        pcmd.Free(frame);
      } else if pcmd.cmd.size > MAX_CMDSZ {
        TakeLong(pcmd, frame);
      } else {
        TakeShort(pcmd, frame);
      }
    }

    lemma NoneMore(s: St, c: Cmd)
      requires !Admits(s, c)
      ensures Enqueued(s, c) == s
    {
    }

    lemma MadeSound(pcmd: CmdObj, frame: Frame?)
      requires Made(pcmd, frame)
      ensures !pcmd.freed
    {
    }

    /** A submitter makes its command, with a completion on its stack if it will wait, and enqueues it. */
    method Submit(c: Cmd)
      requires Ran()
      modifies this`owners, this`objs, this`cmds, this`frames, this`accepted, this`cmdQueueSema, this`log
      modifies queue, queue.chain`next
      ensures Ran() && log == old(log) + [Action.Enqueue(c)] && Grown() && old(objs) <= objs
    {
      hide Admits, Run, Fit, State, Enqueued;
      ghost var s := State();
      var pcmd := new CmdObj(c, |objs|);
      var frame := null;
      if c.wait != NoWait {
        frame := new Frame(pcmd, c.wait == Checked);
        pcmd.sctx := frame;
      }
      var _ := Enqueue(pcmd, frame);
      Note(Action.Enqueue(c), s);
    }

    // ---------- a waiting submitter after its enqueue: rtw_createbss_cmd, _rtw_set_chplan_cmd, rtw_mp_cmd ----------

    method OwnerTurn(i: Id, cut: bool)
      requires Fit()
      modifies frames, cmds`sctx, sctxMutex, this`faults, this`ownerIntruded
      ensures Fit() && State() == OwnerStep(old(State()), i, cut)
    {
      hide JobOf, IdsOf, Listed, Pointed, OwnerStep, Owned;
      if i < |owners| && owners[i] != null {
        OwnerFacts(i, owners[i]);
        OwnerMoves(i, owners[i], cut);
      } else {
        if i < |objs| {
          NotOwned(i);
        }
        NoOwner(State(), i, cut);
      }
    }

    lemma NotOwned(i: Id)
      requires Shape() && i < |objs| && owners[i] == null
      ensures Jobs()[i].owner == Absent
    {
    }

    lemma NoOwner(s: St, i: Id, cut: bool)
      requires i < |s.jobs| ==> s.jobs[i].owner == Absent
      ensures OwnerStep(s, i, cut) == s
    {
    }

    lemma OwnerState(s: St, t: St, i: Id, cut: bool)
      requires i < |s.jobs|
      requires
        var j := s.jobs[i];
        t == s.(jobs := s.jobs[i := Acted(j, s.mutex == Nobody, cut)],
                mutex := if j.owner == Locking && s.mutex == Nobody then ByOwner(i) else if j.owner == Releasing then Nobody else s.mutex,
                faults := s.faults + if j.owner == Detaching && j.freed then {OfOwner(i)} else {},
                ownerIntruded := s.ownerIntruded || (j.owner == Locking && s.mutex != Nobody && cut))
      ensures t == OwnerStep(s, i, cut)
    {
      hide Acted;
      assert s.faults + {} == s.faults;
    }

    /** A step of a waiting submitter; a write to a freed command is a fault. */
    method OwnerMoves(i: Id, f: Frame, cut: bool)
      requires Fit() && i < |objs| && owners[i] == f
      modifies f, f.pcmd`sctx, sctxMutex, this`faults, this`ownerIntruded
      ensures Fit() && State() == OwnerStep(old(State()), i, cut)
    {
      hide JobOf, IdsOf, Acted, Listed, OwnerStep, Jobs, State;
      ghost var s := State();
      OwnerFacts(i, f);
      OwnerSees(i, f);
      Charge(if f.at == Detaching && f.pcmd.freed then {OfOwner(i)} else {}, f.at == Locking && sctxMutex.holder != Nobody && cut);
      ghost var m := State();
      MoveFrame(i, f, cut);
      assert State() == m.(jobs := Jobs(), mutex := sctxMutex.holder);
      OwnerState(s, State(), i, cut);
    }

    /** What a step has to answer for. */
    ghost method Charge(blamed: set<Fault>, intrudes: bool)
      requires Shape()
      modifies this`faults, this`ownerIntruded
      ensures State() == old(State()).(faults := old(faults) + blamed, ownerIntruded := old(ownerIntruded) || intrudes)
    {
      hide Shape, Jobs, IdsOf;
      faults, ownerIntruded := faults + blamed, ownerIntruded || intrudes;
    }

    lemma OwnerSees(i: Id, f: Frame)
      requires Shape() && i < |objs|
      ensures State().jobs == Jobs() && State().mutex == sctxMutex.holder
      ensures State().faults == faults && State().ownerIntruded == ownerIntruded
    {
      hide Jobs, IdsOf;
    }

    lemma OwnerFacts(i: Id, f: Frame)
      requires Fit() && i < |objs| && owners[i] == f
      ensures f.pcmd == objs[i] && Jobs()[i] == JobOf(f.pcmd, f) && f.pcmd.id == i && f in frames && f.pcmd in cmds
      ensures JobOf(f.pcmd, f).owner == f.at && JobOf(f.pcmd, f).freed == f.pcmd.freed && (f.looks <==> f.pcmd.cmd.wait != Ack)
    {
      assert Owned(objs[i], owners[i]);
    }

    method MoveFrame(i: Id, f: Frame, cut: bool)
      requires Fit() && i < |objs| && owners[i] == f
      modifies f, f.pcmd`sctx, sctxMutex
      ensures Fit() && Jobs() == old(Jobs())[i := Acted(old(Jobs())[i], old(sctxMutex.holder) == Nobody, cut)]
      ensures State() == old(State()).(jobs := Jobs(), mutex := sctxMutex.holder)
      ensures sctxMutex.holder ==
        if old(Jobs())[i].owner == Locking && old(sctxMutex.holder) == Nobody then ByOwner(i)
        else if old(Jobs())[i].owner == Releasing then Nobody else old(sctxMutex.holder)
    {
      hide JobOf, Acted, CmdQueue.Valid, Owned;
      ghost var was := Jobs();
      Apart(i);
      OwnerFacts(i, f);
      f.Advance(sctxMutex, cut);
      OneJob(was, i);
    }

    // ---------- the others ----------

    lemma StateHas()
      requires Shape()
      ensures
        var s := State();
        && s.jobs == Jobs() && s.pc == at && s.mutex == sctxMutex.holder && s.faults == faults && s.queue == IdsOf(queue.chain)
        && s.threadIntruded == threadIntruded && s.running == running && s.finished == finished && s.dropped == dropped
        && s.stops == stops && s.stopReq == stopReq && s.sema == cmdQueueSema && s.term == terminateSema
    {
      hide Jobs, IdsOf;
    }

    /** rtw_stop_cmd_thread, one step at a time. */
    method StopMoves(k: nat, interrupted: bool)
      requires k < |stops|
      modifies this`stops, this`stopReq, this`cmdQueueSema, this`terminateSema, this`joined
      ensures stops == old(stops)[k := Moved(old(stops)[k], running && !old(stopReq), interrupted, old(terminateSema) > 0)]
      ensures stopReq == (old(stopReq) || old(stops)[k] == Requesting)
      ensures cmdQueueSema == if old(stops)[k] == Waking then old(cmdQueueSema) + 1 else old(cmdQueueSema)
      ensures if old(stops)[k] == Awaiting && stops[k] == Joined then terminateSema == old(terminateSema) - 1 && joined == old(joined) + 1
              else terminateSema == old(terminateSema) && joined == old(joined)
    {
      var p, q := stops[k], stops[k];
      if p == Testing {
        q := if running && !stopReq then Requesting else Skipped;
      } else if p == Requesting {
        stopReq, q := true, Waking;
      } else if p == Waking {
        cmdQueueSema, q := cmdQueueSema + 1, Awaiting;
      } else if p == Awaiting {
        if terminateSema > 0 {
          terminateSema, joined, q := terminateSema - 1, joined + 1, Joined;
        } else if interrupted {
          q := GaveUp;
        }
      }
      stops := stops[k := q];
    }

    method StopApply(k: nat, interrupted: bool)
      requires Shape() && k < |stops|
      modifies this`stops, this`stopReq, this`cmdQueueSema, this`terminateSema, this`joined
      ensures
        var s := old(State());
        var p, q := s.stops[k], Moved(s.stops[k], s.running && !s.stopReq, interrupted, s.term > 0);
        State() == s.(stops := s.stops[k := q], stopReq := s.stopReq || p == Requesting, sema := s.sema + if p == Waking then 1 else 0,
                      term := if p == Awaiting && q == Joined then s.term - 1 else s.term,
                      joined := if p == Awaiting && q == Joined then s.joined + 1 else s.joined)
    {
      hide Shape, Jobs, IdsOf, Moved;
      StopMoves(k, interrupted);
      assert Jobs() == old(Jobs());
    }

    method StopTurn(k: nat, interrupted: bool)
      requires Fit()
      modifies this`stops, this`stopReq, this`cmdQueueSema, this`terminateSema, this`joined
      ensures Fit() && State() == StopStep(old(State()), k, interrupted)
    {
      hide Jobs, IdsOf, Shape, StopStep, Moved, Fit, State;
      StateHas();
      ghost var s := State();
      if k < |stops| {
        StopApply(k, interrupted);
        StopState(s, State(), k, interrupted);
      } else {
        NoStopper(s, k, interrupted);
      }
    }

    lemma StopState(s: St, t: St, k: nat, interrupted: bool)
      requires k < |s.stops|
      requires
        var p, q := s.stops[k], Moved(s.stops[k], s.running && !s.stopReq, interrupted, s.term > 0);
        t == s.(stops := s.stops[k := q], stopReq := s.stopReq || p == Requesting, sema := s.sema + if p == Waking then 1 else 0,
                term := if p == Awaiting && q == Joined then s.term - 1 else s.term,
                joined := if p == Awaiting && q == Joined then s.joined + 1 else s.joined)
      ensures t == StopStep(s, k, interrupted)
    {
      hide Moved;
    }

    lemma NoStopper(s: St, k: nat, interrupted: bool)
      requires k >= |s.stops|
      ensures StopStep(s, k, interrupted) == s
    {
    }

    /** rtw_start_drv_threads waits for the thread's sign of life. */
    method SpawnerTurn(interrupted: bool)
      requires Fit()
      modifies this`spawner, this`terminateSema
      ensures Fit() && State() == SpawnerStep(old(State()), interrupted)
    {
      hide Jobs, IdsOf, Shape, Fit;
      if spawner == Pending {
        if terminateSema > 0 {
          terminateSema, spawner := terminateSema - 1, Started;
        } else if interrupted {
          spawner := Abandoned;
        }
      }
    }

    method OutsideTurn(a: Foreign)
      requires Fit() && (a.HwInit? || a.PowerUp? || a.StopCall?)
      modifies this`hwInit, this`cmdQueueSema, this`stops
      ensures Fit() && State() == Step(old(State()), a)
    {
      hide Jobs, IdsOf, Shape, Fit;
      if a.HwInit? {
        hwInit := a.up;
      } else if a.StopCall? {
        stops := stops + [Testing];
      } else if lclk {
        cmdQueueSema := cmdQueueSema + 1;
      }
    }

    method OtherTurn(a: Foreign)
      requires Fit() && !a.Enqueue?
      modifies frames, cmds`sctx, sctxMutex, this`faults, this`ownerIntruded, this`hwInit, this`cmdQueueSema, this`stops
      modifies this`stopReq, this`terminateSema, this`joined, this`spawner
      ensures Fit() && State() == Step(old(State()), a)
    {
      hide Jobs, IdsOf, Fit, Shape, Enqueued, OwnerStep, StopStep, SpawnerStep, State;
      if a.OwnerAct? {
        OwnerTurn(a.id, a.cut);
      } else if a.StopAct? {
        StopTurn(a.k, a.interrupted);
      } else if a.SpawnerAct? {
        SpawnerTurn(a.interrupted);
      } else {
        OutsideTurn(a);
      }
    }

    /** What another party does, whatever it is. */
    method Perform(a: Foreign)
      requires Ran()
      modifies this, sctxMutex, queue, cmds, frames
      ensures Ran() && log == old(log) + [a] && State() == Step(old(State()), a)
      ensures Grown() && turns == old(turns) && old(objs) <= objs
    {
      hide Jobs, IdsOf, Fit, Shape, Step, State, Run;
      ghost var s := State();
      RunSnoc(Init(lclk), log, a);
      if a.Enqueue? {
        Submit(a.cmd);
      } else {
        OtherTurn(a);
        Note(a, s);
      }
    }

    method PerformAll(acts: seq<Foreign>)
      requires Ran()
      modifies this, sctxMutex, queue, cmds, frames
      ensures Ran() && log == old(log) + acts && State() == Run(old(State()), acts)
      ensures Grown() && turns == old(turns) && old(objs) <= objs
    {
      hide Step, Run, Ran, State, Fit, Shape;
      ghost var s := State();
      RunNone(s);
      for i := 0 to |acts|
        invariant Ran() && log == old(log) + acts[..i] && State() == Run(s, acts[..i])
        invariant Grown() && turns == old(turns) && old(objs) <= objs
      {
        RunSnoc(s, acts[..i], acts[i]);
        assert acts[..i + 1] == acts[..i] + [acts[i]];
        Perform(acts[i]);
      }
      assert acts[..|acts|] == acts;
    }

    lemma RunNone(s: St)
      ensures Run(s, []) == s
    {
    }

    // ---------- the thread and its schedule ----------

    /** The others' turn; then, unless the schedule is over, the thread's. */
    method Meet() returns (r: Met<Env>)
      requires Valid()
      modifies this, sctxMutex, queue, cmds, frames
      ensures Grown() && if r.Suspended? then Valid() && turns == [] else Due(r.value) && |turns| < |old(turns)|
      ensures at == old(at) && finished == old(finished) && old(objs) <= objs
      ensures !old(running) ==> !running && dropped + IdsOf(queue.chain) == old(dropped + IdsOf(queue.chain))
    {
      hide Run, Fit, Shape, IdsOf, Step, State, Jobs;
      if turns == [] {
        return Suspended;
      }
      var t := turns[0];
      StateHas();
      ghost var s := State();
      turns := turns[1..];
      PerformAll(t.others);
      StateHas();
      OthersKeep(s, t.others);
      assert log + [ThreadAct(t.env)] + Script(turns) == old(log) + (t.others + [ThreadAct(t.env)] + Script(turns));
      return Went(t.env);
    }

    /** This is the state that the thread's step, which meets this, starts from. */
    ghost predicate From(env: Env, was: St)
      reads this`log, this`turns
    {
      was == Run(Init(lclk), log) && log + [ThreadAct(env)] + Script(turns) == plan
    }

    lemma Opens(env: Env)
      requires Due(env)
      ensures Fit() && From(env, State())
    {
    }

    /** The thread's own step is done. */
    ghost method Did(env: Env, was: St)
      requires Fit() && From(env, was) && State() == ThreadStep(was, env)
      modifies this`log
      ensures Valid()
    {
      hide ThreadStep, Run, Fit, State, Script;
      Note(ThreadAct(env), was);
    }

    /** Where the thread is from now on. */
    ghost method GoTo(pc: Pc)
      requires Shape()
      modifies this`at
      ensures at == pc && State() == old(State()).(pc := pc)
    {
      hide Shape, Jobs, IdsOf;
      at := pc;
    }

    ghost method Settle(blamed: set<Fault>, pc: Pc)
      requires Shape()
      modifies this`faults, this`at
      ensures at == pc && State() == old(State()).(faults := blamed, pc := pc)
    {
      hide Shape, Jobs, IdsOf;
      faults, at := blamed, pc;
    }

    // ---------- the thread without a command in hand ----------

    method ClearStopReq(env: Env)
      requires Due(env) && at == Zeroing
      modifies this`stopReq, this`at, this`log
      ensures Valid() && at == Raising
    {
      hide Fit, Shape, IdsOf, Jobs, Run, Due, Valid, Ran, From;
      Opens(env);
      ghost var s := State();
      stopReq, at := false, Raising;
      Did(env, s);
    }

    method SetRunning(env: Env)
      requires Due(env) && at == Raising
      modifies this`running, this`at, this`log
      ensures Valid() && at == Announcing
    {
      hide Fit, Shape, IdsOf, Jobs, Run, Due, Valid, Ran, From;
      Opens(env);
      ghost var s := State();
      running, at := true, Announcing;
      Did(env, s);
    }

    method UpTerminateSema(env: Env)
      requires Due(env) && (at == Announcing || at == Ending)
      modifies this`terminateSema, this`at, this`log
      ensures Valid() && at == if old(at) == Announcing then Sema else Done
    {
      hide Fit, Shape, IdsOf, Jobs, Run, Due, Valid, Ran, From;
      Opens(env);
      ghost var s := State();
      at := if at == Announcing then Sema else Done;
      terminateSema := terminateSema + 1;
      Did(env, s);
    }

    method StartUp() returns (r: Met<()>)
      requires Valid() && at == Zeroing
      modifies this, sctxMutex, queue, cmds, frames
      ensures Valid() && Grown() && if r.Suspended? then turns == [] else at == Sema
    {
      hide Due, Valid;
      var env :- Meet();
      ClearStopReq(env);
      env :- Meet();
      SetRunning(env);
      env :- Meet();
      UpTerminateSema(env);
      r := Went(());
    }

    method StopWaiting(env: Env)
      requires Due(env) && at == Sema && env.interrupted && cmdQueueSema == 0
      modifies this`at, this`log
      ensures Valid() && at == Leaving
    {
      hide Fit, Shape, IdsOf, Jobs, Run, Due, Valid, Ran, From;
      Opens(env);
      ghost var s := State();
      at := Leaving;
      Did(env, s);
    }

    method TryDown(env: Env) returns (ok: bool)
      requires Due(env) && at == Sema && (cmdQueueSema > 0 || !env.interrupted)
      modifies this`at, this`cmdQueueSema, this`log
      ensures Valid() && at == if ok then ChkRun else Sema
    {
      hide Fit, Shape, IdsOf, Jobs, Run, Due, Valid, Ran, From;
      Opens(env);
      ghost var s := State();
      ok := cmdQueueSema > 0;
      if ok {
        cmdQueueSema, at := cmdQueueSema - 1, ChkRun;
      }
      Did(env, s);
    }

    /** _rtw_down_sema on the queue's semaphore: false when a signal came while it was down. */
    method DownSema() returns (r: Met<bool>)
      requires Valid() && at == Sema
      modifies this, sctxMutex, queue, cmds, frames
      ensures Valid() && Grown() && if r.Suspended? then turns == [] else |turns| < |old(turns)| && at == if r.value then ChkRun else Leaving
    {
      hide Due, Valid;
      while true
        invariant Valid() && Grown() && at == Sema && |turns| <= |old(turns)|
        decreases |turns|
      {
        var env :- Meet();
        if cmdQueueSema == 0 && env.interrupted {
          StopWaiting(env);
          return Went(false);
        }
        var ok := TryDown(env);
        if ok {
          return Went(true);
        }
      }
    }

    method TestRun(env: Env)
      requires Due(env) && (at == ChkRun || at == Next)
      modifies this`at, this`log
      ensures Valid() && at == if env.cannotRun then Leaving else if old(at) == ChkRun then ChkStop else Taking
    {
      hide Fit, Shape, IdsOf, Jobs, Run, Due, Valid, Ran, From;
      Opens(env);
      ghost var s := State();
      at := if env.cannotRun then Leaving else if at == ChkRun then ChkStop else Taking;
      Did(env, s);
    }

    /** RTW_CANNOT_RUN, in both places. */
    method CannotRun() returns (r: Met<bool>)
      requires Valid() && (at == ChkRun || at == Next)
      modifies this, sctxMutex, queue, cmds, frames
      ensures Valid() && Grown() && |turns| <= |old(turns)|
      ensures if r.Suspended? then turns == [] else at == if r.value then Leaving else if old(at) == ChkRun then ChkStop else Taking
    {
      hide Due, Valid;
      var env :- Meet();
      TestRun(env);
      r := Went(env.cannotRun);
    }

    method TestStop(env: Env)
      requires Due(env) && at == ChkStop
      modifies this`at, this`log
      ensures Valid() && at == if stopReq then Leaving else ChkEmpty
    {
      hide Fit, Shape, IdsOf, Jobs, Run, Due, Valid, Ran, From;
      Opens(env);
      ghost var s := State();
      at := if stopReq then Leaving else ChkEmpty;
      Did(env, s);
    }

    method StopAsked() returns (r: Met<bool>)
      requires Valid() && at == ChkStop
      modifies this, sctxMutex, queue, cmds, frames
      ensures Valid() && Grown() && |turns| <= |old(turns)|
      ensures if r.Suspended? then turns == [] else at == if r.value then Leaving else ChkEmpty
    {
      hide Due, Valid;
      var env :- Meet();
      var asked := stopReq;
      TestStop(env);
      r := Went(asked);
    }

    method TestEmpty(env: Env) returns (empty: bool)
      requires Due(env) && at == ChkEmpty
      modifies this`at, this`log
      ensures Valid() && at == if empty then Sema else Next
    {
      hide Shape, IdsOf, Jobs, Run, Pointed, Due, Valid, Ran, From;
      Opens(env);
      ghost var s := State();
      empty := queue.first == null;
      at := if empty then Sema else Next;
      NoIds(queue.chain);
      hide Fit;
      Did(env, s);
    }

    lemma NoIds(c: seq<CmdObj>)
      ensures IdsOf(c) == [] <==> c == []
    {
    }

    method QueueIsEmpty() returns (r: Met<bool>)
      requires Valid() && at == ChkEmpty
      modifies this, sctxMutex, queue, cmds, frames
      ensures Valid() && Grown() && |turns| <= |old(turns)|
      ensures if r.Suspended? then turns == [] else at == if r.value then Sema else Next
    {
      hide Due, Valid;
      var env :- Meet();
      var empty := TestEmpty(env);
      r := Went(empty);
    }

    // ---------- the thread with a command in hand ----------

    /** The thread holds this command. */
    ghost predicate Holds(pcmd: CmdObj, stage: Stage)
      reads this`at, this`objs
    {
      at == Working(stage, pcmd.id) && pcmd.id < |objs| && objs[pcmd.id] == pcmd
    }

    lemma TakenIds(c: seq<CmdObj>)
      requires c != []
      ensures IdsOf(c) == [c[0].id] + IdsOf(c[1..])
    {
    }

    /** The first of the queue is no longer listed. */
    method Unlist() returns (pcmd: CmdObj?)
      requires Fit()
      modifies queue, queue.chain`next, queue.chain`prev
      ensures Fit() && if pcmd == null then IdsOf(queue.chain) == old(IdsOf(queue.chain)) == []
        else old(IdsOf(queue.chain)) == [pcmd.id] + IdsOf(queue.chain) && pcmd.id < |objs| && objs[pcmd.id] == pcmd && pcmd in old(queue.chain)
      ensures State() == old(State()).(queue := IdsOf(queue.chain))
    {
      hide Shape, IdsOf, Pointed, CmdQueue.Valid, Jobs;
      NoIds(queue.chain);
      if queue.chain != [] {
        TakenIds(queue.chain);
      }
      pcmd := queue.Dequeue();
    }

    method TakeStep(env: Env) returns (pcmd: CmdObj?)
      requires Fit() && at == Taking
      modifies queue, queue.chain`next, queue.chain`prev, this`at
      ensures Fit() && State() == ThreadStep(old(State()), env) && if pcmd == null then at == Sema else Holds(pcmd, Vetting)
    {
      hide Shape, State, IdsOf, Jobs, Fit, ThreadStep;
      StateHas();
      ghost var s := State();
      pcmd := Unlist();
      GoTo(if pcmd == null then Sema else Working(Vetting, pcmd.id));
      TakenIs(s, State(), env);
    }

    method TakeFront(env: Env) returns (pcmd: CmdObj?)
      requires Due(env) && at == Taking
      modifies queue, queue.chain`next, queue.chain`prev, this`at, this`log
      ensures Valid() && if pcmd == null then at == Sema else Holds(pcmd, Vetting)
    {
      hide Shape, State, Run, Fit, ThreadStep, Step, Due, Valid, Ran, From, Holds;
      Opens(env);
      ghost var s := State();
      pcmd := TakeStep(env);
      Did(env, s);
    }

    lemma ListedKnown(env: Env)
      requires Due(env)
      ensures forall o :: o in queue.chain ==> o in cmds
    {
    }

    /** rtw_dequeue_cmd */
    method Dequeue() returns (r: Met<CmdObj?>)
      requires Valid() && at == Taking
      modifies this, sctxMutex, queue, cmds, frames
      ensures Valid() && Grown() && |turns| <= |old(turns)|
      ensures if r.Suspended? then turns == [] else if r.value == null then at == Sema else Holds(r.value, Vetting) && |turns| < |old(turns)|
    {
      hide Due, Valid, Holds;
      var env :- Meet();
      ListedKnown(env);
      var pcmd := TakeFront(env);
      r := Went(pcmd);
    }

    /** The command in hand has not been freed and is not listed, and it points to its own submitter's frame or
        nowhere. */
    lemma HandIsLive(env: Env, pcmd: CmdObj, stage: Stage)
      requires Due(env) && Holds(pcmd, stage)
      ensures !pcmd.freed && pcmd !in queue.chain && pcmd in cmds
      ensures pcmd.sctx != null ==> pcmd.sctx in frames && pcmd.sctx == owners[pcmd.id]
    {
      hide Run, Traced, Guarded, Init, CmdQueue.Valid, Pointed;
      StartsGuarded(lclk);
      RunKeepsTrace(Init(lclk), log);
      HandNotListed(pcmd, stage);
      HandThere(pcmd, stage);
      assert Owned(pcmd, owners[pcmd.id]);
    }

    /** Only writes to the completion can touch what is gone. */
    lemma HandHarmsNot(env: Env, pcmd: CmdObj, stage: Stage)
      requires Due(env) && Holds(pcmd, stage) && stage != Marking && stage != Completing
      ensures !Harms(State().jobs[pcmd.id], stage) && Blames(State(), pcmd.id, stage) == faults
    {
      hide Run, Traced, Guarded, Init, CmdQueue.Valid, Pointed;
      StartsGuarded(lclk);
      RunKeepsTrace(Init(lclk), log);
      HandThere(pcmd, stage);
      NoBlame(State(), pcmd.id, stage);
    }

    /** Under every schedule the command in hand has not been freed, is not listed, and points to its own
        submitter's frame or nowhere.  As long as no party has gone on without the mutex the submitter is
        still there, and the thread's next step touches nothing that is gone. */
    lemma HandIsSafe(env: Env, pcmd: CmdObj, stage: Stage)
      requires Due(env) && Holds(pcmd, stage)
      ensures !pcmd.freed && pcmd !in queue.chain
      ensures pcmd.sctx != null ==> pcmd.sctx == owners[pcmd.id]
      ensures Intruded(State()) || !Harms(State().jobs[pcmd.id], stage)
      ensures Intruded(State()) || (pcmd.sctx != null ==> Watches(pcmd.sctx.at))
      ensures Intruded(State()) || (stage == Marking || Signalling(At(stage)) ==> pcmd.sctx != null)
    {
      hide Run, Traced, Guarded, Init, Signalling, CmdQueue.Valid, Pointed, Intruded;
      HandIsLive(env, pcmd, stage);
      if !Intruded(State()) {
        StartsGuarded(lclk);
        RunGuarded(Init(lclk), log);
        ThreadHarmsNobody(State());
        HandLinked(pcmd, stage);
      }
    }

    lemma HandThere(pcmd: CmdObj, stage: Stage)
      requires Fit() && Traced(State()) && Holds(pcmd, stage)
      ensures !pcmd.freed && (stage != Marking && stage != Completing ==> !Harms(State().jobs[pcmd.id], stage))
      ensures pcmd.sctx != null ==> pcmd.sctx == owners[pcmd.id]
    {
      hide Traced, Jobs;
      HandKnown(State());
      FreedIs(pcmd);
    }

    lemma HandLinked(pcmd: CmdObj, stage: Stage)
      requires Fit() && Guarded(State()) && Holds(pcmd, stage) && !pcmd.freed
      requires pcmd.sctx != null ==> pcmd.sctx == owners[pcmd.id]
      ensures pcmd.sctx != null ==> Watches(pcmd.sctx.at)
      ensures stage == Marking || Signalling(At(stage)) ==> pcmd.sctx != null
    {
      hide Judged, Blamed;
      assert Ok(State(), pcmd.id);
    }

    lemma HandNotListed(pcmd: CmdObj, stage: Stage)
      requires Fit() && Traced(State()) && Holds(pcmd, stage)
      ensures pcmd !in queue.chain
    {
      hide Jobs, CmdQueue.Valid, Pointed;
      LiveKnown(State());
      forall k | 0 <= k < |queue.chain|
        ensures queue.chain[k] != pcmd
      {
        assert Live(State())[0] == pcmd.id && Live(State())[k + 1] == queue.chain[k].id;
      }
    }

    lemma InReach(env: Env, pcmd: CmdObj, stage: Stage)
      requires Due(env) && Holds(pcmd, stage)
      ensures pcmd in cmds && (pcmd.sctx != null ==> pcmd.sctx in frames)
      ensures forall o :: o in queue.chain ==> o in cmds
    {
      HandIsLive(env, pcmd, stage);
    }

    /** The others' turn while the thread has a command in hand. */
    method MeetWith(pcmd: CmdObj, stage: Stage) returns (r: Met<Env>)
      requires Valid() && Holds(pcmd, stage)
      modifies this, sctxMutex, queue, cmds, frames
      ensures Grown() && if r.Suspended? then Valid() && turns == [] else Due(r.value) && Holds(pcmd, stage) && |turns| < |old(turns)|
      ensures r.Went? ==> pcmd in cmds && (pcmd.sctx != null ==> pcmd.sctx in frames)
      ensures r.Went? ==> forall o :: o in queue.chain ==> o in cmds
    {
      hide Due, Valid;
      r := Meet();
      if r.Went? {
        InReach(r.value, pcmd, stage);
      }
    }

    // ---------- the checks before the handler ----------

    method SetCode(pcmd: CmdObj, code: nat)
      requires Fit() && pcmd.id < |objs| && objs[pcmd.id] == pcmd && !pcmd.freed
      modifies pcmd`res
      ensures Fit() && Jobs() == old(Jobs())[pcmd.id := old(Jobs())[pcmd.id].(res := code)]
    {
      hide JobOf, Listed, Pointed;
      ghost var was := Jobs();
      Apart(pcmd.id);
      pcmd.Refuse(code, owners[pcmd.id]);
      OneJob(was, pcmd.id);
    }

    method Refuse(env: Env, pcmd: CmdObj, code: nat)
      requires Due(env) && Holds(pcmd, Vetting) && code == Refusal(State(), pcmd.cmd) != H2C_SUCCESS
      modifies pcmd`res, this`at, this`log
      ensures Valid() && Holds(pcmd, Entering)
    {
      hide Shape, IdsOf, Jobs, Run, Fit, ThreadStep, Refusal, Due, Valid, Ran, From;
      Opens(env);
      HandIsLive(env, pcmd, Vetting);
      HandHarmsNot(env, pcmd, Vetting);
      HandCmd(pcmd);
      ghost var s := State();
      SetCode(pcmd, code);
      at := Working(Entering, pcmd.id);
      VetIs(s, State(), pcmd.id, env);
      Did(env, s);
    }

    method PutBack(env: Env, pcmd: CmdObj)
      requires Due(env) && Holds(pcmd, Vetting) && Refusal(State(), pcmd.cmd) == H2C_SUCCESS && PutsBack(State(), pcmd.cmd, env)
      modifies pcmd`res, pcmd`next, pcmd`prev, queue, queue.chain`prev, this`at, this`log
      ensures Valid() && at == Sema
    {
      hide Shape, IdsOf, Jobs, Run, Fit, ThreadStep, Refusal, PutsBack, Due, Valid, Ran, From;
      Opens(env);
      HandIsLive(env, pcmd, Vetting);
      HandHarmsNot(env, pcmd, Vetting);
      HandCmd(pcmd);
      ghost var s := State();
      SetCode(pcmd, H2C_ENQ_HEAD);
      ListFirst(pcmd);
      at := Sema;
      VetIs(s, State(), pcmd.id, env);
      Did(env, s);
    }

    /** _rtw_enqueue_cmd, to the head. */
    method ListFirst(pcmd: CmdObj)
      requires Fit() && pcmd.id < |objs| && objs[pcmd.id] == pcmd && pcmd !in queue.chain
      modifies pcmd`next, pcmd`prev, queue, queue.chain`prev
      ensures Fit() && IdsOf(queue.chain) == [pcmd.id] + old(IdsOf(queue.chain))
    {
      hide IdsOf, Pointed, CmdQueue.Valid;
      assert pcmd in cmds;
      queue.InsertHead(pcmd);
      TakenIds(queue.chain);
      assert queue.chain[1..] == old(queue.chain);
    }

    method Pass(env: Env, pcmd: CmdObj)
      requires Due(env) && Holds(pcmd, Vetting) && Refusal(State(), pcmd.cmd) == H2C_SUCCESS && !PutsBack(State(), pcmd.cmd, env)
      modifies this`at, this`log
      ensures Valid() && Holds(pcmd, Handling)
    {
      hide Shape, IdsOf, Jobs, Run, Fit, ThreadStep, Refusal, PutsBack, Due, Valid, Ran, From;
      Opens(env);
      HandIsLive(env, pcmd, Vetting);
      HandHarmsNot(env, pcmd, Vetting);
      HandCmd(pcmd);
      ghost var s := State();
      at := Working(Handling, pcmd.id);
      VetIs(s, State(), pcmd.id, env);
      Did(env, s);
    }

    lemma HandCmd(pcmd: CmdObj)
      requires Shape() && pcmd.id < |objs| && objs[pcmd.id] == pcmd
      ensures Jobs()[pcmd.id].cmd == pcmd.cmd
    {
    }

    method Check(env: Env, pcmd: CmdObj) returns (v: Verdict)
      requires Due(env) && Holds(pcmd, Vetting) && pcmd in cmds && forall o :: o in queue.chain ==> o in cmds
      modifies pcmd`res, pcmd`next, pcmd`prev, queue, queue.chain`prev, this`at, this`log
      ensures Valid() && if v == EnqHead then at == Sema else Holds(pcmd, if v == ToHandler then Handling else Entering)
    {
      hide Fit, Shape, Jobs, IdsOf, Run;
      var pass := CmdFilter(pcmd.cmd);
      v := ToPost;
      if pcmd.cmd.size > MAX_CMDSZ || !pcmd.cmd.hasHandler {
        Refuse(env, pcmd, H2C_PARAMETERS_ERROR);
      } else if !pass {
        Refuse(env, pcmd, H2C_DROPPED);
      } else if lclk && !pcmd.cmd.noIo && !env.registered {
        PutBack(env, pcmd);
        v := EnqHead;
      } else {
        Pass(env, pcmd);
        v := ToHandler;
      }
    }

    /** The size, the handler, the filter and the power: what is to become of the command. */
    method Vet(pcmd: CmdObj) returns (r: Met<Verdict>)
      requires Valid() && Holds(pcmd, Vetting)
      modifies this, sctxMutex, queue, cmds, frames
      ensures Valid() && Grown() && |turns| <= |old(turns)|
      ensures if r.Suspended? then turns == []
              else if r.value == EnqHead then at == Sema else Holds(pcmd, if r.value == ToHandler then Handling else Entering)
    {
      hide Due, Valid, Holds;
      var env :- MeetWith(pcmd, Vetting);
      var v := Check(env, pcmd);
      r := Went(v);
    }

    // ---------- the handler, and what comes after it ----------

    method CallHandler(pcmd: CmdObj, env: Env)
      requires Fit() && pcmd.id < |objs| && objs[pcmd.id] == pcmd && !pcmd.freed
      modifies pcmd`res, pcmd`results
      ensures Fit() && Jobs() == old(Jobs())[pcmd.id := Treated(old(Jobs())[pcmd.id], Handling, env)]
    {
      hide JobOf, Listed, Pointed, Treated;
      ghost var was := Jobs();
      Apart(pcmd.id);
      pcmd.RunHandler(env, owners[pcmd.id]);
      OneJob(was, pcmd.id);
    }

    method ExecuteStep(env: Env, pcmd: CmdObj)
      requires Fit() && Holds(pcmd, Handling) && !pcmd.freed && Blames(State(), pcmd.id, Handling) == faults
      modifies pcmd`res, pcmd`results, this`cmdSeq, this`at
      ensures Fit() && State() == ThreadStep(old(State()), env) && Holds(pcmd, Entering)
    {
      hide Shape, IdsOf, Jobs, Fit, ThreadStep, Treated, Following, Blames, Harms;
      ghost var s := State();
      FollowingIs(s.jobs[pcmd.id]);
      CallHandler(pcmd, env);
      cmdSeq := (cmdSeq + 1) % 256;
      at := Working(Entering, pcmd.id);
      WorkIs(s, State(), Handling, pcmd.id, env);
    }

    method Execute(env: Env, pcmd: CmdObj)
      requires Due(env) && Holds(pcmd, Handling)
      modifies pcmd`res, pcmd`results, this`cmdSeq, this`at, this`log
      ensures Valid() && Holds(pcmd, Entering)
    {
      hide Shape, State, Run, Fit, ThreadStep, Step, Harms, Blames, Due, Valid, Ran, From, Holds;
      Opens(env);
      HandIsLive(env, pcmd, Handling);
      HandHarmsNot(env, pcmd, Handling);
      ghost var s := State();
      ExecuteStep(env, pcmd);
      Did(env, s);
    }

    /** cmd_hdl(pcmd->padapter, pcmdbuf) */
    method Handle(pcmd: CmdObj) returns (r: Met<()>)
      requires Valid() && Holds(pcmd, Handling)
      modifies this, sctxMutex, queue, cmds, frames
      ensures Valid() && Grown() && |turns| <= |old(turns)|
      ensures if r.Suspended? then turns == [] else Holds(pcmd, Entering)
    {
      hide Due, Valid, Holds;
      var env :- MeetWith(pcmd, Handling);
      Execute(env, pcmd);
      r := Went(());
    }

    method Grab(interrupted: bool, ghost pc: Pc) returns (on: bool)
      requires Fit()
      modifies sctxMutex, this`threadIntruded, this`at
      ensures Fit() && on == (old(State()).mutex == Nobody || interrupted) && at == if on then pc else old(at)
      ensures State() == old(State()).(
        mutex := if old(State()).mutex == Nobody then Thread else old(State()).mutex,
        threadIntruded := old(State()).threadIntruded || (on && old(State()).mutex != Nobody),
        pc := at)
    {
      hide Shape, Jobs, IdsOf, Listed, Pointed;
      ghost var was := sctxMutex.holder;
      on := sctxMutex.Enter(Thread, interrupted);
      threadIntruded := threadIntruded || (on && was != Nobody);
      at := if on then pc else at;
    }

    method EnterStep(env: Env, pcmd: CmdObj) returns (on: bool)
      requires Fit() && Holds(pcmd, Entering) && Blames(State(), pcmd.id, Entering) == faults && !Harms(State().jobs[pcmd.id], Entering)
      modifies sctxMutex, this`threadIntruded, this`at
      ensures Fit() && State() == ThreadStep(old(State()), env) && Holds(pcmd, if on then Looking else Entering)
    {
      hide Shape, State, IdsOf, Jobs, Fit, ThreadStep, Treated, Following, Blames, Harms;
      StateHas();
      ghost var s := State();
      FollowingIs(s.jobs[pcmd.id]);
      SameJob(s, pcmd.id, Entering, env);
      on := Grab(env.interrupted, Working(Looking, pcmd.id));
      if on {
        WorkIs(s, State(), Entering, pcmd.id, env);
      } else {
        assert State() == s;
        Blocked(s, pcmd.id, env);
      }
    }

    method TryEnter(env: Env, pcmd: CmdObj) returns (on: bool)
      requires Due(env) && Holds(pcmd, Entering)
      modifies sctxMutex, this`threadIntruded, this`at, this`log
      ensures Valid() && Holds(pcmd, if on then Looking else Entering)
    {
      hide Shape, State, Run, Fit, ThreadStep, Step, Harms, Blames, Due, Valid, Ran, From, Holds;
      Opens(env);
      HandIsLive(env, pcmd, Entering);
      HandHarmsNot(env, pcmd, Entering);
      ghost var s := State();
      on := EnterStep(env, pcmd);
      Did(env, s);
    }

    /** _enter_critical_mutex on the sctx mutex; what it returns is not looked at. */
    method EnterMutex(pcmd: CmdObj) returns (r: Met<()>)
      requires Valid() && Holds(pcmd, Entering)
      modifies this, sctxMutex, queue, cmds, frames
      ensures Valid() && Grown() && |turns| <= |old(turns)|
      ensures if r.Suspended? then turns == [] else Holds(pcmd, Looking)
    {
      hide Due, Valid, Holds;
      while true
        invariant Valid() && Grown() && Holds(pcmd, Entering) && |turns| <= |old(turns)|
        decreases |turns|
      {
        var env :- MeetWith(pcmd, Entering);
        var on := TryEnter(env, pcmd);
        if on {
          return Went(());
        }
      }
    }

    method Look(env: Env, pcmd: CmdObj) returns (attached: bool)
      requires Due(env) && Holds(pcmd, Looking)
      modifies this`at, this`log
      ensures Valid() && Holds(pcmd, if attached then Marking else Unlocking)
    {
      hide Shape, IdsOf, Jobs, Run, Pointed, Listed, ThreadStep, Treated, Following, Blames, Intruded, Harms, Step, Due, Valid, Ran, From;
      Opens(env);
      HandIsLive(env, pcmd, Looking);
      HandHarmsNot(env, pcmd, Looking);
      HandAttached(pcmd);
      ghost var s := State();
      FollowingIs(s.jobs[pcmd.id]);
      attached := pcmd.sctx != null;
      at := Working(if attached then Marking else Unlocking, pcmd.id);
      SameJob(s, pcmd.id, Looking, env);
      WorkIs(s, State(), Looking, pcmd.id, env);
      Did(env, s);
    }

    /** `if (pcmd->sctx)` */
    method LookAtSctx(pcmd: CmdObj) returns (r: Met<bool>)
      requires Valid() && Holds(pcmd, Looking)
      modifies this, sctxMutex, queue, cmds, frames
      ensures Valid() && Grown() && |turns| <= |old(turns)|
      ensures if r.Suspended? then turns == [] else Holds(pcmd, if r.value then Marking else Unlocking)
    {
      hide Due, Valid, Holds;
      var env :- MeetWith(pcmd, Looking);
      var attached := Look(env, pcmd);
      r := Went(attached);
    }

    /** The status, through a pointer that may have been cleared since. */
    method SetStatus(pcmd: CmdObj, env: Env)
      requires Fit() && pcmd.id < |objs| && objs[pcmd.id] == pcmd && !pcmd.freed
      requires pcmd.sctx != null ==> pcmd.sctx == owners[pcmd.id]
      modifies pcmd.sctx
      ensures Fit() && Jobs() == old(Jobs())[pcmd.id := Treated(old(Jobs())[pcmd.id], Marking, env)]
      ensures State() == old(State()).(jobs := Jobs())
    {
      hide JobOf, Listed, Treated;
      ghost var was := Jobs();
      Apart(pcmd.id);
      if pcmd.sctx != null {
        pcmd.SetStatus(env, pcmd.sctx);
      } else {
        NotAttached(pcmd, env);
      }
      OneJob(was, pcmd.id);
    }

    lemma NotAttached(pcmd: CmdObj, env: Env)
      requires !pcmd.freed && pcmd.sctx == null
      ensures forall f: Frame? :: Treated(JobOf(pcmd, f), Marking, env) == JobOf(pcmd, f)
      ensures forall f: Frame? :: Treated(JobOf(pcmd, f), Completing, env) == JobOf(pcmd, f)
    {
    }

    method Complete(pcmd: CmdObj, env: Env)
      requires Fit() && pcmd.id < |objs| && objs[pcmd.id] == pcmd && !pcmd.freed
      requires pcmd.sctx != null ==> pcmd.sctx == owners[pcmd.id]
      modifies pcmd.sctx
      ensures Fit() && Jobs() == old(Jobs())[pcmd.id := Treated(old(Jobs())[pcmd.id], Completing, env)]
      ensures State() == old(State()).(jobs := Jobs())
    {
      hide JobOf, Listed, Treated;
      ghost var was := Jobs();
      Apart(pcmd.id);
      if pcmd.sctx != null {
        pcmd.Complete(env, pcmd.sctx);
      } else {
        NotAttached(pcmd, env);
      }
      OneJob(was, pcmd.id);
    }

    method ClearSctx(pcmd: CmdObj, env: Env)
      requires Fit() && pcmd.id < |objs| && objs[pcmd.id] == pcmd && !pcmd.freed
      modifies pcmd`sctx
      ensures Fit() && Jobs() == old(Jobs())[pcmd.id := Treated(old(Jobs())[pcmd.id], Clearing, env)]
    {
      hide JobOf, Listed, Treated;
      ghost var was := Jobs();
      Apart(pcmd.id);
      pcmd.ClearSctx(env, owners[pcmd.id]);
      OneJob(was, pcmd.id);
    }

    method MarkStep(env: Env, pcmd: CmdObj)
      requires Fit() && Holds(pcmd, Marking) && !pcmd.freed && (pcmd.sctx != null ==> pcmd.sctx == owners[pcmd.id])
      modifies pcmd.sctx, this`faults, this`at
      ensures Fit() && State() == ThreadStep(old(State()), env) && Holds(pcmd, Completing)
    {
      hide Shape, State, IdsOf, Jobs, Fit, ThreadStep, Treated, Following, Blames, Harms;
      StateHas();
      ghost var s := State();
      FollowingIs(s.jobs[pcmd.id]);
      SetStatus(pcmd, env);
      Settle(Blames(s, pcmd.id, Marking), Working(Completing, pcmd.id));
      WorkIs(s, State(), Marking, pcmd.id, env);
    }

    method Mark(env: Env, pcmd: CmdObj)
      requires Due(env) && Holds(pcmd, Marking)
      modifies pcmd.sctx, this`faults, this`at, this`log
      ensures Valid() && Holds(pcmd, Completing)
    {
      hide Shape, State, Run, Fit, ThreadStep, Step, Harms, Blames, Due, Valid, Ran, From, Holds;
      Opens(env);
      HandIsLive(env, pcmd, Marking);
      ghost var s := State();
      MarkStep(env, pcmd);
      Did(env, s);
    }

    lemma HandAttached(pcmd: CmdObj)
      requires Shape() && pcmd.id < |objs| && objs[pcmd.id] == pcmd && !pcmd.freed
      ensures Jobs()[pcmd.id].attached == (pcmd.sctx != null)
    {
    }

    method SignalStep(env: Env, pcmd: CmdObj)
      requires Fit() && Holds(pcmd, Completing) && !pcmd.freed && (pcmd.sctx != null ==> pcmd.sctx == owners[pcmd.id])
      modifies pcmd.sctx, this`faults, this`at
      ensures Fit() && State() == ThreadStep(old(State()), env) && Holds(pcmd, Clearing)
    {
      hide Shape, State, IdsOf, Jobs, Fit, ThreadStep, Treated, Following, Blames, Harms;
      StateHas();
      ghost var s := State();
      FollowingIs(s.jobs[pcmd.id]);
      Complete(pcmd, env);
      Settle(Blames(s, pcmd.id, Completing), Working(Clearing, pcmd.id));
      WorkIs(s, State(), Completing, pcmd.id, env);
    }

    method Signal(env: Env, pcmd: CmdObj)
      requires Due(env) && Holds(pcmd, Completing)
      modifies pcmd.sctx, this`faults, this`at, this`log
      ensures Valid() && Holds(pcmd, Clearing)
    {
      hide Shape, State, Run, Fit, ThreadStep, Step, Harms, Blames, Due, Valid, Ran, From, Holds;
      Opens(env);
      HandIsLive(env, pcmd, Completing);
      ghost var s := State();
      SignalStep(env, pcmd);
      Did(env, s);
    }

    method Detach(env: Env, pcmd: CmdObj)
      requires Due(env) && Holds(pcmd, Clearing)
      modifies pcmd`sctx, this`at, this`log
      ensures Valid() && Holds(pcmd, Unlocking)
    {
      hide Shape, IdsOf, Jobs, Run, Fit, ThreadStep, Treated, Following, Blames, Intruded, Harms, Step, Due, Valid, Ran, From;
      Opens(env);
      HandIsLive(env, pcmd, Clearing);
      HandHarmsNot(env, pcmd, Clearing);
      ghost var s := State();
      FollowingIs(s.jobs[pcmd.id]);
      ClearSctx(pcmd, env);
      at := Working(Unlocking, pcmd.id);
      WorkIs(s, State(), Clearing, pcmd.id, env);
      Did(env, s);
    }

    method MarkSctx(pcmd: CmdObj) returns (r: Met<()>)
      requires Valid() && Holds(pcmd, Marking)
      modifies this, sctxMutex, queue, cmds, frames
      ensures Valid() && Grown() && |turns| <= |old(turns)|
      ensures if r.Suspended? then turns == [] else Holds(pcmd, Completing)
    {
      hide Due, Valid, Holds;
      var env :- MeetWith(pcmd, Marking);
      Mark(env, pcmd);
      r := Went(());
    }

    method SignalSctx(pcmd: CmdObj) returns (r: Met<()>)
      requires Valid() && Holds(pcmd, Completing)
      modifies this, sctxMutex, queue, cmds, frames
      ensures Valid() && Grown() && |turns| <= |old(turns)|
      ensures if r.Suspended? then turns == [] else Holds(pcmd, Clearing)
    {
      hide Due, Valid, Holds;
      var env :- MeetWith(pcmd, Completing);
      Signal(env, pcmd);
      r := Went(());
    }

    method DetachSctx(pcmd: CmdObj) returns (r: Met<()>)
      requires Valid() && Holds(pcmd, Clearing)
      modifies this, sctxMutex, queue, cmds, frames
      ensures Valid() && Grown() && |turns| <= |old(turns)|
      ensures if r.Suspended? then turns == [] else Holds(pcmd, Unlocking)
    {
      hide Due, Valid, Holds;
      var env :- MeetWith(pcmd, Clearing);
      Detach(env, pcmd);
      r := Went(());
    }

    /** rtw_sctx_done_err, if the command points to a completion. */
    method SctxDone(pcmd: CmdObj) returns (r: Met<()>)
      requires Valid() && Holds(pcmd, Looking)
      modifies this, sctxMutex, queue, cmds, frames
      ensures Valid() && Grown() && |turns| <= |old(turns)|
      ensures if r.Suspended? then turns == [] else Holds(pcmd, Unlocking)
    {
      hide Due, Valid, Holds;
      var attached :- LookAtSctx(pcmd);
      if attached {
        var _ :- MarkSctx(pcmd);
        var _ :- SignalSctx(pcmd);
        var _ :- DetachSctx(pcmd);
      }
      r := Went(());
    }

    method Unlock(env: Env, pcmd: CmdObj)
      requires Due(env) && Holds(pcmd, Unlocking)
      modifies sctxMutex, this`at, this`log
      ensures Valid() && Holds(pcmd, Finishing)
    {
      hide Shape, IdsOf, Jobs, Run, Pointed, Listed, ThreadStep, Treated, Following, Blames, Intruded, Harms, Step, Due, Valid, Ran, From;
      Opens(env);
      HandIsLive(env, pcmd, Unlocking);
      HandHarmsNot(env, pcmd, Unlocking);
      ghost var s := State();
      FollowingIs(s.jobs[pcmd.id]);
      sctxMutex.Unlock();
      at := Working(Finishing, pcmd.id);
      SameJob(s, pcmd.id, Unlocking, env);
      WorkIs(s, State(), Unlocking, pcmd.id, env);
      Did(env, s);
    }

    /** _exit_critical_mutex */
    method ExitMutex(pcmd: CmdObj) returns (r: Met<()>)
      requires Valid() && Holds(pcmd, Unlocking)
      modifies this, sctxMutex, queue, cmds, frames
      ensures Valid() && Grown() && |turns| <= |old(turns)|
      ensures if r.Suspended? then turns == [] else Holds(pcmd, Finishing)
    {
      hide Due, Valid, Holds;
      var env :- MeetWith(pcmd, Unlocking);
      Unlock(env, pcmd);
      r := Went(());
    }

    method FreeKnown(pcmd: CmdObj)
      requires Fit() && pcmd.id < |objs| && objs[pcmd.id] == pcmd && !pcmd.freed
      modifies pcmd`freed, pcmd`over, pcmd`left
      ensures Fit() && pcmd.freed && Jobs() == old(Jobs())[pcmd.id := Gone(old(Jobs())[pcmd.id])]
    {
      hide JobOf, Listed, Pointed;
      ghost var was := Jobs();
      Apart(pcmd.id);
      pcmd.Free(owners[pcmd.id]);
      OneJob(was, pcmd.id);
    }

    method HandOver(pcmd: CmdObj, env: Env)
      requires Fit() && pcmd.id < |objs| && objs[pcmd.id] == pcmd && !pcmd.freed
      modifies pcmd`freed, pcmd`over, pcmd`left
      ensures Fit() && Jobs() == old(Jobs())[pcmd.id := Treated(old(Jobs())[pcmd.id], Finishing, env)]
    {
      hide JobOf, Listed, Pointed, Treated;
      ghost var was := Jobs();
      Apart(pcmd.id);
      pcmd.Callback(env, owners[pcmd.id]);
      OneJob(was, pcmd.id);
    }

    method FinishStep(env: Env, pcmd: CmdObj)
      requires Fit() && Holds(pcmd, Finishing) && !pcmd.freed && Blames(State(), pcmd.id, Finishing) == faults
      modifies pcmd`freed, pcmd`over, pcmd`left, this`finished, this`at
      ensures Fit() && State() == ThreadStep(old(State()), env) && at == Next
    {
      hide Shape, IdsOf, Jobs, Fit, ThreadStep, Treated, Following, Blames, Harms;
      ghost var s := State();
      HandOver(pcmd, env);
      finished := finished + [pcmd.id];
      at := Next;
      WorkIs(s, State(), Finishing, pcmd.id, env);
    }

    method Finish(env: Env, pcmd: CmdObj)
      requires Due(env) && Holds(pcmd, Finishing)
      modifies pcmd`freed, pcmd`over, pcmd`left, this`finished, this`at, this`log
      ensures Valid() && at == Next
    {
      hide Shape, State, Run, Fit, ThreadStep, Step, Harms, Blames, Due, Valid, Ran, From, Holds;
      Opens(env);
      HandIsLive(env, pcmd, Finishing);
      HandHarmsNot(env, pcmd, Finishing);
      ghost var s := State();
      FinishStep(env, pcmd);
      Did(env, s);
    }

    /** The callback, which frees the command or does not. */
    method Callback(pcmd: CmdObj) returns (r: Met<()>)
      requires Valid() && Holds(pcmd, Finishing)
      modifies this, sctxMutex, queue, cmds, frames
      ensures Valid() && Grown() && |turns| <= |old(turns)|
      ensures if r.Suspended? then turns == [] else at == Next
    {
      hide Due, Valid, Holds;
      var env :- MeetWith(pcmd, Finishing);
      Finish(env, pcmd);
      r := Went(());
    }

    // ---------- the end of the thread ----------

    method ClearRunning(env: Env)
      requires Due(env) && at == Leaving
      modifies this`running, this`at, this`log
      ensures Valid() && at == Draining && !running
    {
      hide Fit, Shape, IdsOf, Jobs, Run, Due, Valid, Ran, From;
      Opens(env);
      ghost var s := State();
      running, at := false, Draining;
      Did(env, s);
    }

    /** What is queued has not been freed. */
    lemma QueuedAreLive()
      requires Ran()
      ensures forall o :: o in queue.chain ==> !o.freed && o in cmds
    {
      hide Traced, Jobs, IdsOf, CmdQueue.Valid, Pointed;
      StartsGuarded(lclk);
      RunKeepsTrace(Init(lclk), log);
      ListedAreLive(State());
    }

    lemma ListedAreLive(s: St)
      requires Fit() && Traced(s) && s.jobs == Jobs() && s.queue == IdsOf(queue.chain)
      ensures forall o :: o in queue.chain ==> !o.freed
    {
      hide CmdQueue.Valid, Pointed, Jobs, IdsOf, Traced;
      forall k | 0 <= k < |queue.chain|
        ensures !queue.chain[k].freed
      {
        NoneFreed(s, k);
        FreedIs(queue.chain[k]);
      }
    }

    lemma FreedIs(o: CmdObj)
      requires Shape() && o.id < |objs| && objs[o.id] == o
      ensures Jobs()[o.id].freed == o.freed
    {
    }

    method EndDrain(env: Env)
      requires Due(env) && at == Draining && IdsOf(queue.chain) == []
      modifies this`at, this`log
      ensures Valid() && at == Ending
    {
      hide Shape, IdsOf, Jobs, Run, Fit, ThreadStep, Due, Valid, Ran, From;
      Opens(env);
      ghost var s := State();
      at := Ending;
      DrainedIs(s, State(), env);
      Did(env, s);
    }

    /** rtw_free_cmd_obj on a command that the drain has dequeued. */
    method Drop(env: Env, pcmd: CmdObj, ghost was: St)
      requires Fit() && pcmd.id < |objs| && objs[pcmd.id] == pcmd && !pcmd.freed && at == Draining
      requires was == Run(Init(lclk), log) && log + [ThreadAct(env)] + Script(turns) == plan
      requires State() == was.(queue := State().queue) && was.queue == [pcmd.id] + State().queue
      modifies pcmd`freed, pcmd`over, pcmd`left, this`dropped, this`log
      ensures Valid() && dropped == old(dropped) + [pcmd.id]
    {
      hide Shape, IdsOf, Jobs, Run, Fit, ThreadStep, Script;
      FreeKnown(pcmd);
      dropped := dropped + [pcmd.id];
      assert was.queue[1..] == IdsOf(queue.chain);
      DropIs(was, State(), env);
      Did(env, was);
    }

    /** One turn of the loop that frees what is left in the queue. */
    method DropFront(env: Env) returns (pcmd: CmdObj?)
      requires Due(env) && at == Draining
      modifies queue, queue.chain`next, queue.chain`prev, queue.chain`freed, queue.chain`over, queue.chain`left, this`dropped, this`at, this`log
      ensures Valid()
      ensures if pcmd == null then at == Ending && dropped == old(dropped) && IdsOf(queue.chain) == old(IdsOf(queue.chain)) == []
              else at == Draining && dropped + IdsOf(queue.chain) == old(dropped + IdsOf(queue.chain))
    {
      hide Shape, IdsOf, Jobs, Run, Fit, ThreadStep, Script;
      QueuedAreLive();
      ghost var s := State();
      pcmd := Unlist();
      if pcmd == null {
        EndDrain(env);
      } else {
        Drop(env, pcmd, s);
      }
    }

    /** After the loop: no more commands are let in, those left are freed in order and unsignalled, and the
        last act is to raise the terminate semaphore. */
    method Leave() returns (r: Met<()>)
      requires Valid() && at == Leaving
      modifies this, sctxMutex, queue, cmds, frames
      ensures Valid() && Grown() && if r.Suspended? then turns == [] else at == Done
    {
      hide Due, Valid;
      var env :- Meet();
      ClearRunning(env);
      var _ :- Drain();
      env :- Meet();
      UpTerminateSema(env);
      r := Went(());
    }

    method Drain() returns (r: Met<()>)
      requires Valid() && at == Draining && !running
      modifies this, sctxMutex, queue, cmds, frames
      ensures Valid() && Grown() && if r.Suspended? then turns == [] else at == Ending && IdsOf(queue.chain) == []
      ensures finished == old(finished) && dropped + IdsOf(queue.chain) == old(dropped + IdsOf(queue.chain))
    {
      hide Due, Valid, IdsOf;
      while true
        invariant Valid() && Grown() && at == Draining && !running
        invariant finished == old(finished) && dropped + IdsOf(queue.chain) == old(dropped + IdsOf(queue.chain))
        decreases |turns|
      {
        var env :- Meet();
        ListedKnown(env);
        var pcmd := DropFront(env);
        if pcmd == null {
          return Went(());
        }
      }
    }

    // ---------- rtw_cmd_thread ----------

    /** One command from its checks to its end; true when it is not put back. */
    method TreatOne(pcmd: CmdObj) returns (r: Met<bool>)
      requires Valid() && Holds(pcmd, Vetting)
      modifies this, sctxMutex, queue, cmds, frames
      ensures Valid() && Grown() && |turns| <= |old(turns)|
      ensures if r.Suspended? then turns == [] else at == if r.value then Next else Sema
    {
      hide Due, Valid, Holds;
      var v :- Vet(pcmd);
      if v == EnqHead {
        return Went(false);
      }
      if v == ToHandler {
        var _ :- Handle(pcmd);
      }
      var _ :- EnterMutex(pcmd);
      var _ :- SctxDone(pcmd);
      var _ :- ExitMutex(pcmd);
      var _ :- Callback(pcmd);
      r := Went(true);
    }

    /** The commands that are there, one after the other, until the queue is empty, the adapter cannot run or
        one is put back: false when the thread is to leave. */
    method TreatCommands() returns (r: Met<bool>)
      requires Valid() && at == Next
      modifies this, sctxMutex, queue, cmds, frames
      ensures Valid() && Grown() && |turns| <= |old(turns)|
      ensures if r.Suspended? then turns == [] else at == if r.value then Sema else Leaving
    {
      hide Due, Valid, Holds;
      while true
        invariant Valid() && Grown() && at == Next && |turns| <= |old(turns)|
        decreases |turns|
      {
        var cannot :- CannotRun();
        if cannot {
          return Went(false);
        }
        var pcmd :- Dequeue();
        if pcmd == null {
          return Went(true);
        }
        var on :- TreatOne(pcmd);
        if !on {
          return Went(true);
        }
      }
    }

    /** The loop, until it is broken off. */
    method Serve() returns (r: Met<()>)
      requires Valid() && at == Sema
      modifies this, sctxMutex, queue, cmds, frames
      ensures Valid() && Grown() && if r.Suspended? then turns == [] else at == Leaving
    {
      hide Due, Valid;
      while true
        invariant Valid() && Grown() && at == Sema
        decreases |turns|
      {
        var down :- DownSema();
        if !down {
          break;
        }
        var cannot :- CannotRun();
        if cannot {
          break;
        }
        var asked :- StopAsked();
        if asked {
          break;
        }
        var empty :- QueueIsEmpty();
        if !empty {
          var on :- TreatCommands();
          if !on {
            break;
          }
        }
      }
      r := Went(());
    }

    method RunThread() returns (r: Met<()>)
      requires Valid() && at == Zeroing
      modifies this, sctxMutex, queue, cmds, frames
      ensures Valid() && Grown() && if r.Suspended? then turns == [] else at == Done
    {
      hide Due, Valid;
      var _ :- StartUp();
      var _ :- Serve();
      r := Leave();
    }

    /** The thread against any schedule: what has happened in memory is the run of the protocol that the
        schedule tells, up to its end or up to the end of the thread. */
    method CmdThread() returns (r: Met<()>)
      requires Valid() && at == Zeroing
      modifies this, sctxMutex, queue, cmds, frames
      ensures Valid() && State() == Run(Init(lclk), log) && log <= plan
      ensures if r.Suspended? then log == plan else at == Done
    {
      hide Run, State;
      r := RunThread();
      OnPlan();
    }

    lemma OnPlan()
      requires Valid()
      ensures State() == Run(Init(lclk), log) && log <= plan && (turns == [] ==> log == plan)
    {
      assert log == plan[..|log|];
    }

    // ---------- what every schedule keeps in memory ----------

    lemma InMemory(i: Id)
      requires Shape() && i < |objs|
      ensures Jobs()[i].cmd == objs[i].cmd && Jobs()[i].freed == objs[i].freed && Jobs()[i].res == objs[i].res
      ensures owners[i] != null ==> Jobs()[i].owner == owners[i].at
      ensures !objs[i].freed ==> (Jobs()[i].attached <==> objs[i].sctx != null)
    {
    }

    /** What is listed or in hand has not been freed, and everything else has, but for what its callback has
        kept.  As long as no party has gone on without the mutex, a command that is still there points to a
        completion only while its submitter may yet clear the pointer. */
    lemma PointersAreLive(i: Id)
      requires Valid() && i < |objs|
      ensures objs[i].freed <==>
        && objs[i] !in queue.chain && !(at.Working? && at.id == i)
        && !(i in finished && objs[i].cmd.keeps && objs[i].res != H2C_SUCCESS)
      ensures !Intruded(State()) && !objs[i].freed && objs[i].sctx != null ==> objs[i].sctx == owners[i] && Watches(owners[i].at)
    {
      hide Run, CmdQueue.Valid, JobOf, IdsOf, Jobs;
      EveryCommandLeavesOnceInOrder(lclk, log);
      ListedIds(i);
      InMemory(i);
      if !Intruded(State()) {
        StillWatched(lclk, log, i);
      }
    }

    /** A finished command's handler has run, once, exactly if at the last look at it the command fitted and
        had a handler, the thread was running, and the hardware was up or the command passes without. */
    lemma ExecutedInMemory(i: Id)
      requires Valid() && i in finished
      ensures i < |objs|
      ensures
        var c, v := objs[i].cmd, LastVetted(Init(lclk), log, i, Memory.None);
        && v.Some?
        && (|objs[i].results| == 1 <==> c.size <= 1024 && c.hasHandler && v.value.running && (v.value.hwInit || c.noIo || c.exempt))
        && (|objs[i].results| == 1 || objs[i].results == [])
    {
      hide Run, Listed, Pointed, JobOf, IdsOf, LastVetted, Init;
      ExecutedExactly(lclk, log, i);
      JobInMemory(i);
    }

    lemma JobInMemory(i: Id)
      requires Shape() && i < |Jobs()|
      ensures i < |objs| && Jobs()[i].cmd == objs[i].cmd && Jobs()[i].results == objs[i].results
    {
    }

    lemma ListedIds(i: Id)
      requires Fit() && i < |objs|
      ensures objs[i] in queue.chain <==> i in IdsOf(queue.chain)
    {
      hide CmdQueue.Valid, Pointed;
      if i in IdsOf(queue.chain) {
        var k :| 0 <= k < |queue.chain| && IdsOf(queue.chain)[k] == i;
        assert queue.chain[k] in queue.chain;
      }
      if objs[i] in queue.chain {
        var k :| 0 <= k < |queue.chain| && queue.chain[k] == objs[i];
        assert IdsOf(queue.chain)[k] == objs[i].id;
      }
    }

    /** As long as no party has gone on without the mutex: the thread has never touched memory that is gone, and
        a waiting submitter has written to its freed command exactly when the submitter has come to clear its
        pointer and the command was too long for the queue, or the drain dropped it under the submitter's
        eyes; the latter never before the drain. */
    lemma FaultsInMemory(i: Id)
      requires Valid() && i < |objs| && !Intruded(State())
      ensures OfThread(i) !in faults
      ensures OfOwner(i) in faults <==>
        && owners[i] != null && Passed(owners[i].at)
        && (objs[i].cmd.size > MAX_CMDSZ || i in Forsaken(Init(lclk), log))
      ensures !Leaves(at) ==> i !in Forsaken(Init(lclk), log)
    {
      hide Run, Listed, Pointed, JobOf, IdsOf, Jobs, Passed, Forsaken;
      FaultsExactly(lclk, log);
      if !Leaves(at) {
        NoneForsaken(Init(lclk), log);
      }
      InMemory(i);
      if owners[i] == null {
        NotOwnedAbsent(i);
      }
      assert Owned(objs[i], owners[i]);
    }

    lemma NotOwnedAbsent(i: Id)
      requires Shape() && i < |objs| && owners[i] == null
      ensures !Passed(Jobs()[i].owner)
    {
    }
  }

  /** What becomes of a command after the checks. */
  datatype Verdict = ToHandler | ToPost | EnqHead

  // ---------- the protocol's steps, field by field ----------

  lemma VetIs(s: St, t: St, i: Id, env: Env)
    requires s.pc == Working(Vetting, i) && i < |s.jobs| && !Harms(s.jobs[i], Vetting)
    requires
      var code := Refusal(s, s.jobs[i].cmd);
      if code != H2C_SUCCESS then t == s.(jobs := s.jobs[i := s.jobs[i].(res := code)], pc := Working(Entering, i))
      else if PutsBack(s, s.jobs[i].cmd, env) then
        t == s.(jobs := s.jobs[i := s.jobs[i].(res := H2C_ENQ_HEAD)], queue := [i] + s.queue, pc := Sema)
      else t == s.(pc := Working(Handling, i))
    ensures t == ThreadStep(s, env)
  {
    hide Refusal, PutsBack, Harms;
    VettedFaults(s, i, env);
    assert s.faults + {} == s.faults;
  }

  /** The faults after a step of the thread. */
  function Blames(s: St, i: Id, stage: Stage): set<Fault>
    requires i < |s.jobs|
  {
    s.faults + if Harms(s.jobs[i], stage) then {OfThread(i)} else {}
  }

  lemma WorkIs(s: St, t: St, stage: Stage, i: Id, env: Env)
    requires s.pc == Working(stage, i) && i < |s.jobs| && stage != Vetting
    requires stage == Entering ==> s.mutex == Nobody || env.interrupted
    requires t == s.(jobs := s.jobs[i := Treated(s.jobs[i], stage, env)],
                     pc := if stage == Finishing then Next else Working(Following(s.jobs[i], stage), i),
                     mutex := if stage == Entering && s.mutex == Nobody then Thread else if stage == Unlocking then Nobody else s.mutex,
                     cmdSeq := if stage == Handling then (s.cmdSeq + 1) % 256 else s.cmdSeq,
                     finished := if stage == Finishing then s.finished + [i] else s.finished,
                     threadIntruded := s.threadIntruded || (stage == Entering && s.mutex != Nobody),
                     faults := t.faults)
    requires t.faults == Blames(s, i, stage)
    ensures t == ThreadStep(s, env)
  {
    hide Harms, Treated, Following;
  }

  lemma FollowingIs(j: Job)
    ensures Following(j, Handling) == Entering && Following(j, Entering) == Looking
    ensures Following(j, Looking) == if j.attached then Marking else Unlocking
    ensures Following(j, Marking) == Completing && Following(j, Completing) == Clearing
    ensures Following(j, Clearing) == Unlocking && Following(j, Unlocking) == Finishing
  {
  }

  lemma NoBlame(s: St, i: Id, stage: Stage)
    requires i < |s.jobs| && !Harms(s.jobs[i], stage)
    ensures Blames(s, i, stage) == s.faults
  {
  }

  lemma TakenIs(s: St, t: St, env: Env)
    requires s.pc == Taking
    requires if s.queue == [] then t == s.(pc := Sema)
             else t == s.(queue := t.queue, pc := Working(Vetting, s.queue[0])) && s.queue == [s.queue[0]] + t.queue
    ensures t == ThreadStep(s, env)
  {
    if s.queue != [] {
      assert s.queue[1..] == t.queue;
    }
  }

  lemma StillWatched(lclk: bool, run: seq<Action>, i: Id)
    requires i < |Run(Init(lclk), run).jobs|
    requires !Intruded(Run(Init(lclk), run))
    ensures var j := Run(Init(lclk), run).jobs[i]; j.attached && !j.freed ==> Watches(j.owner)
  {
    hide Run, Judged, Blamed, Traced, Init;
    StartsGuarded(lclk);
    RunGuarded(Init(lclk), run);
    assert Ok(Run(Init(lclk), run), i);
  }

  lemma NoneFreed(s: St, k: nat)
    requires Traced(s) && k < |s.queue|
    ensures s.queue[k] < |s.jobs| && !s.jobs[s.queue[k]].freed
  {
    LiveKnown(s);
    assert s.queue[k] in Live(s);
  }

  lemma SameJob(s: St, i: Id, stage: Stage, env: Env)
    requires i < |s.jobs| && (stage == Entering || stage == Looking || stage == Unlocking)
    ensures s.jobs[i := Treated(s.jobs[i], stage, env)] == s.jobs
  {
  }

  lemma Blocked(s: St, i: Id, env: Env)
    requires s.pc == Working(Entering, i) && i < |s.jobs| && s.mutex != Nobody && !env.interrupted && !Harms(s.jobs[i], Entering)
    ensures ThreadStep(s, env) == s
  {
    hide Harms;
    assert s.faults + {} == s.faults;
  }

  lemma DrainedIs(s: St, t: St, env: Env)
    requires s.pc == Draining && s.queue == [] && t == s.(pc := Ending)
    ensures t == ThreadStep(s, env)
  {
  }

  lemma DropIs(s: St, t: St, env: Env)
    requires s.pc == Draining && s.queue != [] && s.queue[0] < |s.jobs|
    requires t == s.(queue := s.queue[1..], dropped := s.dropped + [s.queue[0]],
                     jobs := s.jobs[s.queue[0] := Gone(s.jobs[s.queue[0]])])
    ensures t == ThreadStep(s, env)
  {
  }

  lemma {:induction false} OthersKeep(s: St, acts: seq<Foreign>)
    ensures
      var t := Run(s, acts);
      && t.pc == s.pc && t.finished == s.finished && t.dropped == s.dropped
      && (!s.running ==> !t.running && t.queue == s.queue)
    decreases |acts|
  {
    if acts != [] {
      OtherKeeps(s, acts[0]);
      hide Step;
      OthersKeep(Step(s, acts[0]), acts[1..]);
    }
  }

  lemma OtherKeeps(s: St, a: Foreign)
    ensures
      var t := Step(s, a);
      && t.pc == s.pc && t.finished == s.finished && t.dropped == s.dropped
      && (!s.running ==> !t.running && t.queue == s.queue)
  {
    hide ThreadStep, Enqueued, StopStep, SpawnerStep, Acted;
    if a.Enqueue? {
      EnqueuedIs(s, a.cmd);
    } else if Outside(a) {
      OutsideIs(s, a);
    }
  }
}
