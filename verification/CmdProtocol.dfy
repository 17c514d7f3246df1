/** The command queue as a protocol of one thread, any number of submitters that may wait for their
    command, any number of stoppers and the thread's spawner (`core/rtw_cmd.c`).  Each action below is
    one step that the source performs without another party seeing it half done. */
module CmdProtocol {
  const MAX_CMDSZ: nat := 1024

  const H2C_SUCCESS: nat := 0
  const H2C_DROPPED: nat := 3
  const H2C_PARAMETERS_ERROR: nat := 4
  const H2C_ENQ_HEAD: nat := 8

  // ---------- commands and their owners ----------

  /** Does the submitter wait, and does it look at the outcome? */
  datatype Wait = NoWait | Ack | Checked

  /** `exempt`: the C2H work and the channel plan, which pass the filter before the hardware is up; `keeps`:
      the disconnect command, whose callback does not free it when it has failed. */
  datatype Cmd = Cmd(size: nat, noIo: bool, exempt: bool, hasHandler: bool, wait: Wait, keeps: bool)

  datatype Status = Submitted | DoneSuccess | DoneCmdError

  /** Where a submitter is after the enqueue has told it of success. */
  datatype Owner =
    | Absent
    | Waiting
    | Locking
    | Checking
    | Detaching
    | Releasing
    | Reporting
    | Returned(ok: bool)

  type Id = nat

  /** A command object with the completion on its owner's stack: `over` says that it has been freed or
      handed to its callback, `attached` that it still points to the completion, `results` what its handler
      returned each time it was called, and `late` that the owner's wait timed out. */
  datatype Job = Job(
    cmd: Cmd,
    freed: bool,
    over: bool,
    attached: bool,
    res: nat,
    results: seq<nat>,
    status: Status,
    signalled: bool,
    owner: Owner,
    late: bool)

  // ---------- the shared state ----------

  datatype Stage = Vetting | Handling | Entering | Looking | Marking | Completing | Clearing | Unlocking | Finishing

  /** Where the thread is. */
  datatype Pc =
    | Zeroing
    | Raising
    | Announcing
    | Sema
    | ChkRun
    | ChkStop
    | ChkEmpty
    | Next
    | Taking
    | Working(stage: Stage, id: Id)
    | Leaving
    | Draining
    | Ending
    | Done

  datatype Holder = Nobody | Thread | ByOwner(id: Id)

  datatype Stopper = Testing | Requesting | Waking | Awaiting | Joined | Skipped | GaveUp

  datatype Spawner = Pending | Started | Abandoned

  /** Use of memory that is not there: of a freed command, of a completion whose owner is back, or of none. */
  datatype Fault = OfThread(id: Id) | OfOwner(id: Id)

  /** `accepted`, `finished`, `dropped`, `joined` and `faults` record the past, and so do the last two: the
      thread, or some owner, has gone on without the sctx mutex while another party was inside. */
  datatype St = St(
    lclk: bool,
    jobs: seq<Job>,
    queue: seq<Id>,
    sema: nat,
    term: nat,
    running: bool,
    stopReq: bool,
    hwInit: bool,
    cmdSeq: nat,
    pc: Pc,
    mutex: Holder,
    stops: seq<Stopper>,
    spawner: Spawner,
    accepted: seq<Id>,
    finished: seq<Id>,
    dropped: seq<Id>,
    joined: nat,
    faults: set<Fault>,
    threadIntruded: bool,
    ownerIntruded: bool)

  function Init(lclk: bool): St {
    St(lclk, [], [], 0, 0, false, false, false, 0, Zeroing, Nobody, [], Pending, [], [], [], 0, {}, false, false)
  }

  // ---------- submitting ----------

  predicate Allowed(c: Cmd) {
    c.noIo || c.exempt
  }

  /** The filter: before the hardware is up only some commands pass, and none when the thread is away. */
  predicate Admits(s: St, c: Cmd) {
    (s.hwInit || Allowed(c)) && s.running
  }

  function NewJob(c: Cmd): Job {
    var gone := c.size > MAX_CMDSZ;
    Job(c, gone, gone, c.wait != NoWait, H2C_SUCCESS, [], Submitted, false, if c.wait == NoWait then Absent else Waiting, false)
  }

  /** Filter, insert and semaphore-up in one step.  A filtered command is freed and the submitter told so.
      One that is too long is freed as well, but the submitter is told of success. */
  function Enqueued(s: St, c: Cmd): St {
    if !Admits(s, c) then s
    else if c.size > MAX_CMDSZ then s.(jobs := s.jobs + [NewJob(c)])
    else
      s.(jobs := s.jobs + [NewJob(c)], queue := s.queue + [|s.jobs|], accepted := s.accepted + [|s.jobs|], sema := s.sema + 1)
  }

  // ---------- the thread ----------

  /** What the step meets: a signal at the semaphore or the mutex, a stopped or removed adapter, the outcome of asking
      for power, and what the handler returns. */
  datatype Env = Env(interrupted: bool, cannotRun: bool, registered: bool, result: nat)

  predicate Idle(pc: Pc) {
    !pc.Working?
  }

  /** Where the thread goes from here when it has no command in hand.  A semaphore that is up is taken before
      signals are looked at. */
  function Onward(s: St, env: Env): Pc {
    match s.pc
    case Zeroing => Raising
    case Raising => Announcing
    case Announcing => Sema
    case Sema => if s.sema > 0 then ChkRun else if env.interrupted then Leaving else Sema
    case ChkRun => if env.cannotRun then Leaving else ChkStop
    case ChkStop => if s.stopReq then Leaving else ChkEmpty
    case ChkEmpty => if s.queue == [] then Sema else Next
    case Next => if env.cannotRun then Leaving else Taking
    case Taking => if s.queue == [] then Sema else Working(Vetting, s.queue[0])
    case Leaving => Draining
    case Draining => if s.queue == [] then Ending else Draining
    case Ending => Done
    case _ => s.pc
  }

  function Polled(s: St, env: Env): St {
    if s.pc == Draining && s.queue != [] then Dropped(s)
    else
      s.(pc := Onward(s, env),
         stopReq := s.stopReq && s.pc != Zeroing,
         running := (s.running || s.pc == Raising) && s.pc != Leaving,
         term := if s.pc == Announcing || s.pc == Ending then s.term + 1 else s.term,
         sema := if s.pc == Sema && Onward(s, env) == ChkRun then s.sema - 1 else s.sema,
         queue := if s.pc == Taking && s.queue != [] then s.queue[1..] else s.queue)
  }

  function Gone(j: Job): Job {
    j.(freed := true, over := true)
  }

  /** The drain frees the first command and signals nobody. */
  function Dropped(s: St): St
    requires s.queue != []
  {
    var i := s.queue[0];
    s.(queue := s.queue[1..], dropped := s.dropped + [i],
       jobs := if i < |s.jobs| then s.jobs[i := Gone(s.jobs[i])] else s.jobs)
  }

  /** The checks before a command's handler runs, with the code it is refused with. */
  function Refusal(s: St, c: Cmd): nat {
    if c.size > MAX_CMDSZ || !c.hasHandler then H2C_PARAMETERS_ERROR
    else if !Admits(s, c) then H2C_DROPPED
    else H2C_SUCCESS
  }

  predicate PutsBack(s: St, c: Cmd, env: Env) {
    s.lclk && !c.noIo && !env.registered
  }

  function Vetted(s: St, i: Id, env: Env): St
    requires i < |s.jobs|
  {
    var j := s.jobs[i];
    if Refusal(s, j.cmd) != H2C_SUCCESS then s.(jobs := s.jobs[i := j.(res := Refusal(s, j.cmd))], pc := Working(Entering, i))
    else if PutsBack(s, j.cmd, env) then s.(jobs := s.jobs[i := j.(res := H2C_ENQ_HEAD)], queue := [i] + s.queue, pc := Sema)
    else s.(pc := Working(Handling, i))
  }

  /** The callback does not free such a command. */
  predicate Keeps(j: Job) {
    j.cmd.keeps && j.res != H2C_SUCCESS
  }

  /** What the thread's step at a stage does to the command it holds. */
  function Treated(j: Job, stage: Stage, env: Env): Job {
    match stage
    case Handling => j.(results := j.results + [env.result], res := env.result)
    case Marking => if j.attached then j.(status := if j.res == H2C_SUCCESS then DoneSuccess else DoneCmdError) else j
    case Completing => if j.attached then j.(signalled := true) else j
    case Clearing => j.(attached := false)
    case Finishing => j.(freed := !Keeps(j), over := true)
    case _ => j
  }

  function Following(j: Job, stage: Stage): Stage {
    match stage
    case Handling => Entering
    case Entering => Looking
    case Looking => if j.attached then Marking else Unlocking
    case Marking => Completing
    case Completing => Clearing
    case Clearing => Unlocking
    case _ => Finishing
  }

  /** A signal ends the wait for the mutex, too, and the thread goes on without it; at the end it unlocks
      the mutex, whoever holds it. */
  function Worked(s: St, stage: Stage, i: Id, env: Env): St
    requires i < |s.jobs| && stage != Vetting
  {
    var j := s.jobs[i];
    var contended := stage == Entering && s.mutex != Nobody;
    if contended && !env.interrupted then s
    else
      s.(jobs := s.jobs[i := Treated(j, stage, env)],
         pc := if stage == Finishing then Next else Working(Following(j, stage), i),
         mutex := if stage == Entering && !contended then Thread else if stage == Unlocking then Nobody else s.mutex,
         cmdSeq := if stage == Handling then (s.cmdSeq + 1) % 256 else s.cmdSeq,
         finished := if stage == Finishing then s.finished + [i] else s.finished,
         threadIntruded := s.threadIntruded || contended)
  }

  /** The step touches memory that is not there: the command has been freed, or the pointer to the completion
      that is read again for each write has been cleared or leads to a stack that is no longer in use. */
  predicate Harms(j: Job, stage: Stage) {
    j.freed || ((stage == Marking || stage == Completing) && (!j.attached || j.owner.Returned?))
  }

  function ThreadStep(s: St, env: Env): St {
    if Idle(s.pc) then Polled(s, env)
    else
      var i := s.pc.id;
      if i >= |s.jobs| then s
      else
        var t := if s.pc.stage == Vetting then Vetted(s, i, env) else Worked(s, s.pc.stage, i, env);
        t.(faults := s.faults + if Harms(s.jobs[i], s.pc.stage) then {OfThread(i)} else {})
  }

  // ---------- a waiting submitter ----------

  /** The owner waits for the completion or its time-out, takes the sctx mutex, reads its status and, if
      that is still the initial one, clears the command's pointer to its completion.  Either wait may be cut
      short, the first by the time-out, the second by a signal; it goes on all the same. */
  function Acted(j: Job, mutexFree: bool, cut: bool): Job {
    match j.owner
    case Waiting => if j.signalled || cut then j.(owner := Locking, late := !j.signalled) else j
    case Locking => if mutexFree || cut then j.(owner := Checking) else j
    case Checking => j.(owner := if j.status == Submitted then Detaching else Releasing)
    case Detaching => if j.freed then j.(owner := Releasing) else j.(owner := Releasing, attached := false)
    case Releasing => j.(owner := Reporting)
    case Reporting => j.(owner := Returned(j.cmd.wait == Ack || j.status == DoneSuccess))
    case _ => j
  }

  function OwnerStep(s: St, i: Id, cut: bool): St {
    if i >= |s.jobs| then s
    else
      var j := s.jobs[i];
      s.(jobs := s.jobs[i := Acted(j, s.mutex == Nobody, cut)],
         mutex := if j.owner == Locking && s.mutex == Nobody then ByOwner(i) else if j.owner == Releasing then Nobody else s.mutex,
         faults := if j.owner == Detaching && j.freed then s.faults + {OfOwner(i)} else s.faults,
         ownerIntruded := s.ownerIntruded || (j.owner == Locking && s.mutex != Nobody && cut))
  }

  // ---------- stopping and starting ----------

  /** A stopper goes ahead only when it finds the thread running and no other request; it then makes its
      request, wakes the thread and waits for its end. */
  function Moved(p: Stopper, welcome: bool, interrupted: bool, token: bool): Stopper {
    match p
    case Testing => if welcome then Requesting else Skipped
    case Requesting => Waking
    case Waking => Awaiting
    case Awaiting => if token then Joined else if interrupted then GaveUp else p
    case _ => p
  }

  function StopStep(s: St, k: nat, interrupted: bool): St {
    if k >= |s.stops| then s
    else
      var p := s.stops[k];
      var q := Moved(p, s.running && !s.stopReq, interrupted, s.term > 0);
      s.(stops := s.stops[k := q],
         stopReq := s.stopReq || p == Requesting,
         sema := if p == Waking then s.sema + 1 else s.sema,
         term := if p == Awaiting && q == Joined then s.term - 1 else s.term,
         joined := if p == Awaiting && q == Joined then s.joined + 1 else s.joined)
  }

  /** The spawner waits for the thread's sign of life. */
  function SpawnerStep(s: St, interrupted: bool): St {
    if s.spawner != Pending || (s.term == 0 && !interrupted) then s
    else s.(term := if s.term > 0 then s.term - 1 else 0, spawner := if s.term > 0 then Started else Abandoned)
  }

  // ---------- runs ----------

  datatype Action =
    | Enqueue(cmd: Cmd)
    | HwInit(up: bool)
    | PowerUp
    | ThreadAct(env: Env)
    | OwnerAct(id: Id, cut: bool)
    | StopCall
    | StopAct(k: nat, interrupted: bool)
    | SpawnerAct(interrupted: bool)

  function Step(s: St, a: Action): St {
    match a
    case Enqueue(c) => Enqueued(s, c)
    case HwInit(up) => s.(hwInit := up)
    case PowerUp => if s.lclk then s.(sema := s.sema + 1) else s
    case ThreadAct(env) => ThreadStep(s, env)
    case OwnerAct(i, cut) => OwnerStep(s, i, cut)
    case StopCall => s.(stops := s.stops + [Testing])
    case StopAct(k, interrupted) => StopStep(s, k, interrupted)
    case SpawnerAct(interrupted) => SpawnerStep(s, interrupted)
  }

  function Run(s: St, run: seq<Action>): St
    decreases |run|
  {
    if run == [] then s else Run(Step(s, run[0]), run[1..])
  }
}
