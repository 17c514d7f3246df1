/** Commands and completions in memory, and the list that queues the commands (`core/rtw_cmd.c`,
    `os_dep/osdep_service.c`). */
module CmdMemory {
  import opened CmdProtocol

  /** The sctx mutex; who holds it is remembered for the proofs. */
  class Mutex {
    var taken: bool
    ghost var holder: Holder

    ghost predicate Valid()
      reads this
    {
      taken <==> holder != Nobody
    }

    constructor ()
      ensures Valid() && holder == Nobody
    {
      taken, holder := false, Nobody;
    }

    /** _enter_critical_mutex: a signal ends the wait for it, with an error that no caller looks at.  False
        while there is still to be waited. */
    method Enter(ghost who: Holder, interrupted: bool) returns (on: bool)
      requires Valid() && who != Nobody
      modifies this
      ensures Valid() && on == (old(holder) == Nobody || interrupted)
      ensures holder == if old(holder) == Nobody then who else old(holder)
    {
      on := !taken || interrupted;
      if !taken {
        taken, holder := true, who;
      }
    }

    /** _exit_critical_mutex: it is free then, whoever has held it. */
    method Unlock()
      modifies this
      ensures Valid() && holder == Nobody
    {
      taken, holder := false, Nobody;
    }
  }

  /** What a waiting submitter has on its stack: its own pointer to the command, the completion, and how
      far it has come; `looks` says that it will look at the outcome. */
  class Frame {
    const pcmd: CmdObj
    const looks: bool
    var status: Status
    var signalled: bool
    var at: Owner
    ghost var late: bool

    /** rtw_sctx_init */
    constructor (pcmd: CmdObj, looks: bool)
      ensures this.pcmd == pcmd && this.looks == looks && status == Submitted && !signalled && at == Waiting && !late
    {
      this.pcmd, this.looks, status, signalled, at, late := pcmd, looks, Submitted, false, Waiting, false;
    }

    /** A submitter after its enqueue, one step at a time: it waits for the completion or its time-out, then
        for the mutex; inside it looks at the status and, while that is the initial one, clears the
        command's pointer, whether or not there still is such a command; in the end it answers.  Either wait
        may be cut short. */
    method Advance(mutex: Mutex, cut: bool)
      requires mutex.Valid() && looks == (pcmd.cmd.wait != Ack)
      modifies this, this.pcmd`sctx, mutex
      ensures unchanged(pcmd`sctx) || pcmd.sctx == null
      ensures JobOf(pcmd, this) == Acted(old(JobOf(pcmd, this)), old(mutex.holder) == Nobody, cut)
      ensures mutex.Valid() && mutex.holder ==
        if old(at) == Locking && old(mutex.holder) == Nobody then ByOwner(pcmd.id)
        else if old(at) == Releasing then Nobody else old(mutex.holder)
    {
      if at == Waiting {
        if signalled || cut {
          late := !signalled;
          at := Locking;
        }
      } else if at == Locking {
        var on := mutex.Enter(ByOwner(pcmd.id), cut);
        if on {
          at := Checking;
        }
      } else if at == Checking {
        at := if status == Submitted then Detaching else Releasing;
      } else if at == Detaching {
        pcmd.sctx := null;
        at := Releasing;
      } else if at == Releasing {
        mutex.Unlock();
        at := Reporting;
      } else if at == Reporting {
        at := Returned(!looks || status == DoneSuccess);
      }
    }
  }

  /** A command with its place in the list; null is the list's head.  Nothing but `freed` tells that the
      memory is gone; `left` says whether `sctx` then pointed to anything. */
  class CmdObj {
    const cmd: Cmd
    ghost const id: Id
    var next: CmdObj?
    var prev: CmdObj?
    var res: nat
    var sctx: Frame?
    ghost var results: seq<nat>
    ghost var over: bool
    ghost var freed: bool
    ghost var left: bool

    constructor (cmd: Cmd, ghost id: Id)
      ensures this.cmd == cmd && this.id == id && res == H2C_SUCCESS && sctx == null && results == [] && !over && !freed
    {
      this.cmd, this.id, next, prev, res, sctx := cmd, id, null, null, H2C_SUCCESS, null;
      results, over, freed, left := [], false, false, false;
    }

    // What the thread does to a command: never to a freed one.

    method Refuse(code: nat, ghost f: Frame?)
      requires !freed
      modifies this`res
      ensures JobOf(this, f) == old(JobOf(this, f)).(res := code)
    {
      res := code;
    }

    method RunHandler(env: Env, ghost f: Frame?)
      requires !freed
      modifies this`res, this`results
      ensures JobOf(this, f) == Treated(old(JobOf(this, f)), Handling, env)
    {
      res, results := env.result, results + [env.result];
    }

    /** rtw_sctx_done_err in its three writes: the status, the completion, and the pointer.  The frame may be
        out of use by then. */
    method SetStatus(env: Env, f: Frame)
      requires !freed && sctx == f
      modifies f`status
      ensures JobOf(this, f) == Treated(old(JobOf(this, f)), Marking, env)
    {
      sctx.status := if res == H2C_SUCCESS then DoneSuccess else DoneCmdError;
    }

    method Complete(env: Env, f: Frame)
      requires !freed && sctx == f
      modifies f`signalled
      ensures JobOf(this, f) == Treated(old(JobOf(this, f)), Completing, env)
    {
      sctx.signalled := true;
    }

    method ClearSctx(env: Env, ghost f: Frame?)
      requires !freed
      modifies this`sctx
      ensures JobOf(this, f) == Treated(old(JobOf(this, f)), Clearing, env) && sctx == null
    {
      sctx := null;
    }

    /** rtw_free_cmd_obj */
    method Free(ghost f: Frame?)
      requires !freed
      modifies this`freed, this`over, this`left
      ensures over && freed && left == (sctx != null) && JobOf(this, f) == Gone(old(JobOf(this, f)))
    {
      over, freed, left := true, true, sctx != null;
    }

    /** The callback: all of them free the command, but for that of the disconnect command when it failed. */
    method Callback(env: Env, ghost f: Frame?)
      requires !freed
      modifies this`freed, this`over, this`left
      ensures JobOf(this, f) == Treated(old(JobOf(this, f)), Finishing, env)
    {
      if cmd.keeps && res != H2C_SUCCESS {
        over := true;
      } else {
        Free(f);
      }
    }
  }

  // ---------- what the memory stands for ----------

  ghost function JobOf(o: CmdObj, f: Frame?): Job
    reads o`freed, o`over, o`left, o`sctx, o`res, o`results, f
  {
    Job(o.cmd, o.freed, o.over, if o.freed then o.left else o.sctx != null, o.res, o.results,
        if f == null then Submitted else f.status, f != null && f.signalled, if f == null then Absent else f.at,
        f != null && f.late)
  }

  ghost function JobsOf(os: seq<CmdObj>, fs: seq<Frame?>): (r: seq<Job>)
    requires |os| == |fs|
    reads os`freed, os`over, os`left, os`sctx, os`res, os`results, fs
    ensures |r| == |os| && forall i :: 0 <= i < |os| ==> r[i] == JobOf(os[i], fs[i])
  {
    if os == [] then [] else [JobOf(os[0], fs[0])] + JobsOf(os[1..], fs[1..])
  }

  ghost function IdsOf(c: seq<CmdObj>): (r: seq<Id>)
    ensures |r| == |c| && forall k :: 0 <= k < |c| ==> r[k] == c[k].id
  {
    if c == [] then [] else [c[0].id] + IdsOf(c[1..])
  }

  // ---------- the list ----------

  function Nth(c: seq<CmdObj>, k: int): CmdObj? {
    if 0 <= k < |c| then c[k] else null
  }

  ghost predicate Distinct(c: seq<CmdObj>) {
    forall j, k :: 0 <= j < k < |c| ==> c[j] != c[k]
  }

  class CmdQueue {
    var first: CmdObj?
    var last: CmdObj?
    ghost var chain: seq<CmdObj>

    ghost predicate Valid()
      reads this, chain`next, chain`prev
    {
      && Distinct(chain) && first == Nth(chain, 0) && last == Nth(chain, |chain| - 1)
      && forall k :: 0 <= k < |chain| ==> chain[k].next == Nth(chain, k + 1) && chain[k].prev == Nth(chain, k - 1)
    }

    constructor ()
      ensures Valid() && chain == []
    {
      first, last, chain := null, null, [];
    }

    /** rtw_list_insert_tail */
    method InsertTail(obj: CmdObj)
      requires Valid() && obj !in chain
      modifies this, chain`next, obj`next, obj`prev
      ensures Valid() && chain == old(chain) + [obj]
    {
      obj.next, obj.prev := null, last;
      if last == null {
        first := obj;
      } else {
        last.next := obj;
      }
      last := obj;
      chain := chain + [obj];
    }

    /** rtw_list_insert_head */
    method InsertHead(obj: CmdObj)
      requires Valid() && obj !in chain
      modifies this, chain`prev, obj`next, obj`prev
      ensures Valid() && chain == [obj] + old(chain)
    {
      obj.next, obj.prev := first, null;
      if first == null {
        last := obj;
      } else {
        first.prev := obj;
      }
      first := obj;
      chain := [obj] + chain;
    }

    /** _rtw_dequeue_cmd: the first of the list is deleted from it. */
    method Dequeue() returns (obj: CmdObj?)
      requires Valid()
      modifies this, chain`next, chain`prev
      ensures Valid()
      ensures if old(chain) == [] then obj == null && chain == [] else obj == old(chain)[0] && chain == old(chain)[1..]
    {
      if first == null {
        return null;
      }
      obj := first;
      first := obj.next;
      if obj.next == null {
        last := null;
      } else {
        obj.next.prev := null;
      }
      obj.next, obj.prev := null, null;
      chain := chain[1..];
    }
  }
}
