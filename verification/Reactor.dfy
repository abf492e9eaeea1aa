/** The reactor's shared object as the program has it: fields changed in place by the functions of its
    clients and of the worker.  Each method is a region between taking and releasing the lock (a sequence
    of them where the program loops), proved to do what the steps of the transition system do. */
module Reactor {
  import opened Options
  import opened Netlink
  import opened SequenceNumbers
  import opened ReactorState

  // ----- loops of the worker, as iterated steps

  /** Jobs are passed over until one can run or the batch is exhausted. */
  function SkipJobs(s: State): State
    requires s.pc.Batch?
    decreases |s.pc.rest|
  {
    var t := ControlApply(s, NextJob);
    if t.pc.Batch? then SkipJobs(t) else t
  }

  /** Messages are passed over until one is for a live operation or the datagram is exhausted. */
  function SkipMessages(s: State): State
    requires s.pc.Walk?
    decreases Remaining(s.pc)
  {
    var t := ControlApply(s, NextMessage);
    if t.pc.Walk? then SkipMessages(t) else t
  }

  function Remaining(pc: Pc): nat {
    if pc.Walk? && pc.at < |pc.data| then |pc.data| - pc.at else 0
  }

  /** The batch loop stops at the first job of the batch that can run and starts it, having changed
      nothing else; with none left it goes on to the pipe. */
  lemma {:induction false} BatchLoopFindsFirst(s: State) returns (i: nat)
    requires s.pc.Batch?
    ensures i <= |s.pc.rest| && forall k :: 0 <= k < i ==> !Runnable(s, s.pc.rest[k])
    ensures i < |s.pc.rest| ==>
              var j := s.pc.rest[i];
              && Runnable(s, j)
              && SkipJobs(s) == s.(jobs := s.jobs[j := s.jobs[j].(busy := true)],
                                   pc := InJob(s.pc.rev, s.pc.rest[i + 1..], j, Free),
                                   started := s.started + [j])
    ensures i == |s.pc.rest| ==> SkipJobs(s) == s.(pc := Drain(s.pc.rev))
    decreases |s.pc.rest|
  {
    i := 0;
    if s.pc.rest != [] && !Runnable(s, s.pc.rest[0]) {
      i := BatchLoopFindsFirst(ControlApply(s, NextJob));
      i := i + 1;
    }
  }

  /** The message loop stops at the first message, in the order of the walk, that is for a live operation. */
  lemma {:induction false} MessageLoopFindsFirst(s: State) returns (i: nat)
    requires s.pc.Walk?
    ensures var left := Messages(s.pc.data, s.pc.at);
            && i <= |left| && (forall k :: 0 <= k < i ==> !Deliverable(s, left[k]))
            && (i < |left| ==> Deliverable(s, left[i]) && SkipMessages(s) == Deliver(s, left[i]))
            && (i == |left| ==> SkipMessages(s) == s.(pc := Transmit(s.pc.rev)))
    decreases Remaining(s.pc)
  {
    i := 0;
    var left := Messages(s.pc.data, s.pc.at);
    if left != [] && !Deliverable(s, left[0]) {
      var t := Deliver(s, left[0]);
      assert left[1..] == Messages(t.pc.data, t.pc.at);
      i := MessageLoopFindsFirst(t);
      if i < |left[1..]| {
        PassedOver(s, t, left[1..][i]);
      }
      forall k | 0 <= k < 1 + i ensures !Deliverable(s, left[k]) {
        if k > 0 {
          assert left[k] == left[1..][k - 1];
        }
      }
      i := i + 1;
    }
  }

  /** Passing over a message does not change who the others are for. */
  lemma PassedOver(s: State, t: State, m: Message)
    requires s.pc.Walk? && t.pc.Walk? && t == s.(pc := t.pc) && t.pc.rev == s.pc.rev && t.pc.data == s.pc.data
    ensures Deliverable(t, m) == Deliverable(s, m)
    ensures Deliverable(s, m) ==> Deliver(t, m) == Deliver(s, m)
  {
  }

  class Pvt {
    const nlpid: U32
    var running: bool
    var todo: seq<JobId>
    var ready: seq<OpId>
    var handlers: map<U32, OpId>
    var nextseq: U32
    var jobs: seq<Job>
    var ops: seq<Operation>
    var pipe: nat
    // where the threads are, and the history
    ghost var pokes: nat
    ghost var stopper: Stopper
    ghost var pc: Pc
    ghost var started: seq<JobId>
    ghost var sent: seq<OpId>

    ghost function Now(): State
      reads this
    {
      State(nlpid, running, todo, ready, handlers, nextseq, jobs, ops, pipe, pokes, stopper, pc, started, sent)
    }

    constructor (pid: U32)
      ensures Now() == Initial(pid)
    {
      nlpid := pid;
      running, todo, ready, handlers, nextseq := false, [], [], map[], 0;
      jobs, ops, pipe := [], [], 0;
      pokes, stopper, pc, started, sent := 0, NoStop, Off, [], [];
    }

    method Start()
      requires !running ==> pc.Off? && stopper.NoStop?
      modifies this
      ensures Now() == if old(running) then old(Now()) else ClientApply(old(Now()), ReactorState.Start)
    {
      if running {
        return;
      }
      running := true;
      pc := Spawned;
    }

    /** The locked half of stop(); `stopping` tells the caller to poke and join. */
    method StopBegin() returns (stopping: bool)
      requires running ==> stopper.NoStop? && !Locked(pc)
      modifies this
      ensures stopping == old(running)
      ensures Now() == if stopping then ClientApply(old(Now()), ReactorState.StopBegin) else old(Now())
    {
      if !running {
        return false;
      }
      running := false;
      stopper := MustPoke;
      stopping := true;
    }

    /** submit(), from a client or from a callback; `None` is the exception for a stopped reactor. */
    method Submit(empty: bool, onWorker: bool) returns (job: Option<JobId>, wake: bool)
      requires if onWorker then InCallback(pc) && pc.act.Free? else !Locked(pc)
      modifies this
      ensures job == if old(running) then Some(|old(jobs)|) else None
      ensures Now() == if !old(running) then old(Now())
                       else if onWorker then CallbackApply(old(Now()), SubmitInside(empty))
                       else ClientApply(old(Now()), ReactorState.Submit(empty))
      ensures wake <==> if onWorker then InCallback(pc) && pc.act.Poking? else pokes > old(pokes)
    {
      if !running {
        return None, false;
      }
      var inner := |jobs|;
      jobs := jobs + [Job(empty, !empty, false, false, Held)];
      wake := todo == [] && ready == [];
      todo := todo + [inner];
      if wake {
        if onWorker {
          pc := pc.(act := Poking);
        } else {
          pokes := pokes + 1;
        }
      }
      job := Some(inner);
    }

    /** request(), from a client or from a callback; never asks for a wake-up.  `None` is the exception for
        a message of length `nlmsgLen` too short for its own header. */
    method Request(nlmsgLen: nat, empty: bool, onWorker: bool) returns (op: Option<OpId>, seqno: U32, wake: bool)
      requires if onWorker then InCallback(pc) && pc.act.Free? else !Locked(pc)
      requires |handlers.Keys| < WRAP
      modifies this
      ensures op == if nlmsgLen < NLMSG_HDRLEN then None else Some(|old(ops)|)
      ensures (op.Some? ==> seqno !in old(handlers)) && !wake
      ensures Now() == if op.None? then old(Now())
                       else if onWorker then CallbackApply(old(Now()), RequestInside(empty))
                       else ClientApply(old(Now()), ReactorState.Request(empty))
    {
      if nlmsgLen < NLMSG_HDRLEN {
        return None, 0, false;
      }
      var skipped: nat;
      seqno, skipped := Allocate(handlers, nextseq);
      nextseq := Succ(seqno);
      op := Some(|ops|);
      ops := ops + [Operation(seqno, empty, !empty, false, false, Held)];
      handlers := handlers[seqno := op.value];
      ready := ready + [op.value];
      wake := todo == [] && ready == [];
    }

    /** The locked part of a job handle's deleter; `waits` when a client finds the callback running. */
    method DropJob(j: JobId, onWorker: bool) returns (waits: bool)
      requires if onWorker then CallbackEnabled(Now(), DropJobInside(j)) else ClientEnabled(Now(), LockJob(j))
      modifies this
      ensures waits == (old(jobs)[j].busy && !onWorker)
      ensures Now() == if onWorker then CallbackApply(old(Now()), DropJobInside(j))
                       else ClientApply(old(Now()), LockJob(j))
    {
      waits := jobs[j].busy && !onWorker;
      if waits {
        jobs := jobs[j := jobs[j].(life := Sleeping)];
      } else {
        jobs := jobs[j := jobs[j].(done := true, life := Clearing(onWorker))];
        if onWorker {
          pc := pc.(act := ClearingJob(j));
        }
      }
    }

    /** The locked part of an operation handle's deleter. */
    method DropOp(o: OpId, onWorker: bool) returns (waits: bool)
      requires if onWorker then CallbackEnabled(Now(), DropOpInside(o)) else ClientEnabled(Now(), LockOp(o))
      modifies this
      ensures waits == (old(ops)[o].busy && !onWorker)
      ensures Now() == if onWorker then CallbackApply(old(Now()), DropOpInside(o))
                       else ClientApply(old(Now()), LockOp(o))
    {
      waits := ops[o].busy && !onWorker;
      if waits {
        ops := ops[o := ops[o].(life := Sleeping)];
      } else {
        ops := ops[o := ops[o].(cancel := true, life := Clearing(onWorker))];
        handlers := handlers - {ops[o].seqno};
        if onWorker {
          pc := pc.(act := ClearingOp(o));
        }
      }
    }

    /** The rest of a deleter, outside the lock: the callback is cleared. */
    method ClearJob(j: JobId, onWorker: bool)
      requires j < |jobs|
      requires if onWorker then InCallback(pc) && pc.act == ClearingJob(j)
               else ClientEnabled(Now(), ReactorState.ClearJob(j))
      modifies this
      ensures Now() == if onWorker then CallbackApply(old(Now()), ClearInside)
                       else ClientApply(old(Now()), ReactorState.ClearJob(j))
    {
      jobs := jobs[j := jobs[j].(cb := false, life := Gone(onWorker))];
      if onWorker {
        pc := pc.(act := Free);
      }
    }

    /** The same for an operation. */
    method ClearOp(o: OpId, onWorker: bool)
      requires o < |ops|
      requires if onWorker then InCallback(pc) && pc.act == ClearingOp(o)
               else ClientEnabled(Now(), ReactorState.ClearOp(o))
      modifies this
      ensures Now() == if onWorker then CallbackApply(old(Now()), ClearInside)
                       else ClientApply(old(Now()), ReactorState.ClearOp(o))
    {
      ops := ops[o := ops[o].(cb := false, life := Gone(onWorker))];
      if onWorker {
        pc := pc.(act := Free);
      }
    }

    /** One round of the worker's loop over a batch; the answer is whether the callback starts. */
    method TryJob(cjob: JobId, rest: seq<JobId>) returns (starts: bool)
      requires pc.Batch? && pc.rest == [cjob] + rest
      modifies this
      ensures Now() == ControlApply(old(Now()), NextJob)
      ensures if starts then pc == InJob(old(pc).rev, rest, cjob, Free) else pc == Batch(old(pc).rev, rest)
    {
      // the weak reference leads to a job, which is not done and has a callback
      starts := cjob < |jobs| && !jobs[cjob].life.Gone? && !jobs[cjob].done && jobs[cjob].cb;
      if starts {
        jobs := jobs[cjob := jobs[cjob].(busy := true)];
        started := started + [cjob];
      }
      pc := if starts then InJob(pc.rev, rest, cjob, Free) else Batch(pc.rev, rest);
    }

    /** The worker's loop over a batch, up to the next callback or the end of the batch. */
    method RunBatch(batch: seq<JobId>) returns (job: Option<JobId>, rest: seq<JobId>)
      requires pc.Batch? && pc.rest == batch
      modifies this
      ensures Now() == SkipJobs(old(Now()))
      ensures if job.Some? then pc.InJob? && pc.job == job.value && pc.rest == rest else pc.Drain? && rest == []
    {
      rest := batch;
      while rest != []
        invariant pc.Batch? && pc.rest == rest && SkipJobs(Now()) == SkipJobs(old(Now()))
        decreases |rest|
      {
        var cjob := rest[0];
        rest := rest[1..];
        var starts := TryJob(cjob, rest);
        if starts {
          return Some(cjob), rest;
        }
      }
      job := None;
      pc := Drain(pc.rev);
    }

    /** After a job's callback has returned: flags, then notify_all. */
    method FinishJob(j: JobId)
      requires ControlEnabled(Now(), JobReturns) && pc.job == j
      modifies this
      ensures Now() == ControlApply(old(Now()), JobReturns)
    {
      jobs := jobs[j := jobs[j].(busy := false)];
      jobs := jobs[j := jobs[j].(done := true)];
      jobs := NotifyJobs(jobs);
      ops := NotifyOps(ops);
      pc := Batch(pc.rev, pc.rest);
    }

    /** After an operation's callback has returned. */
    method FinishHandler(o: OpId)
      requires ControlEnabled(Now(), HandlerReturns) && pc.op == o
      modifies this
      ensures Now() == ControlApply(old(Now()), HandlerReturns)
    {
      ops := ops[o := ops[o].(busy := false)];
      jobs := NotifyJobs(jobs);
      ops := NotifyOps(ops);
      pc := Walk(pc.rev, pc.data, pc.at);
    }

    /** One round of the worker's loop over a datagram; the answer is the operation called, if any. */
    method TryMessage(data: seq<Byte>, at: nat, h: Header) returns (op: Option<OpId>)
      requires pc.Walk? && pc.data == data
      modifies this
      ensures Now() == Deliver(old(Now()), Message(at, h))
      ensures pc == if op.Some? then InHandler(old(pc).rev, data, at + Align4(h.len), op.value, Free)
                    else Walk(old(pc).rev, data, at + Align4(h.len))
    {
      op := None;
      if h.pid == nlpid && h.seqno in handlers {
        var o := handlers[h.seqno];
        if o < |ops| && !ops[o].life.Gone? && !ops[o].cancel && ops[o].cb {
          ops := ops[o := ops[o].(busy := true)];
          op := Some(o);
        }
      }
      var next := at + Align4(h.len);
      pc := if op.Some? then InHandler(pc.rev, data, next, op.value, Free) else Walk(pc.rev, data, next);
    }

    /** The worker's loop over a datagram, up to the next callback or the end of the datagram. */
    method Dispatch(data: seq<Byte>, cursor: nat) returns (op: Option<OpId>, hdr: nat)
      requires pc.Walk? && pc.data == data && pc.at == cursor
      modifies this
      ensures Now() == SkipMessages(old(Now()))
      ensures if op.Some? then pc.InHandler? && pc.op == op.value && pc.at == hdr else pc.Transmit?
    {
      hdr := cursor;
      var remain := |data| - cursor;
      while MessageOk(data, hdr, remain)
        invariant remain == |data| - hdr
        invariant pc.Walk? && pc.data == data && pc.at == hdr && SkipMessages(Now()) == SkipMessages(old(Now()))
        decreases remain
      {
        var h := ReadHeader(data, hdr);
        op := TryMessage(data, hdr, h);
        remain := remain - Align4(h.len);
        hdr := hdr + Align4(h.len);
        if op.Some? {
          return;
        }
      }
      op := None;
      pc := Transmit(pc.rev);
    }

    /** The worker sends what is queued, front first. */
    method SendReady(writable: bool)
      requires pc.Transmit? && pc.rev.tx == writable
      modifies this
      ensures Now() == ControlApply(old(Now()), TransmitAll)
    {
      if writable {
        while ready != []
          invariant Now() == old(Now()).(ready := ready, sent := sent)
          invariant sent + ready == old(sent + ready)
          decreases |ready|
        {
          var msg := ready[0];
          ready := ready[1..];
          sent := sent + [msg];
        }
      }
      pc := Top;
    }
  }
}
