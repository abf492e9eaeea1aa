/** What every step of the reactor keeps, whatever the interleaving. */
module ReactorInvariant {
  import opened Netlink
  import opened SequenceNumbers
  import opened ReactorState

  // ----- the job queue is an interval of the submission order

  function Taken(pc: Pc): seq<JobId> {
    if pc.Batch? || pc.InJob? then pc.rest else []
  }

  /** Jobs before this one have left the queue and the batch. */
  function Reached(s: State): int {
    |s.jobs| - |s.todo| - |Taken(s.pc)|
  }

  ghost predicate Interval(q: seq<nat>, from: int) {
    forall i :: 0 <= i < |q| ==> q[i] == from + i
  }

  ghost predicate Queue(s: State) {
    && Reached(s) >= 0
    && Interval(Taken(s.pc), Reached(s))
    && Interval(s.todo, |s.jobs| - |s.todo|)
    && (s.pc.InJob? ==> s.pc.job == Reached(s) - 1)
  }

  // ----- flags

  predicate JobRuns(s: State, j: JobId) { s.pc.InJob? && s.pc.job == j }

  predicate OpRuns(s: State, o: OpId) { s.pc.InHandler? && s.pc.op == o }

  predicate WorkerClearsJob(s: State, j: JobId) { InCallback(s.pc) && s.pc.act == ClearingJob(j) }

  predicate WorkerClearsOp(s: State, o: OpId) { InCallback(s.pc) && s.pc.act == ClearingOp(o) }

  ghost predicate JobFlags(s: State, j: JobId) {
    && j < |s.jobs|
    && var job := s.jobs[j];
    && (job.busy <==> JobRuns(s, j))
    && (job.busy ==> j in s.started)
    && (job.cb <==> !job.empty && !job.life.Gone?)
    && (Dropped(job.life) ==> job.done)
    && (job.life == Clearing(false) || job.life == Gone(false) ==> !job.busy)
    && (job.life == Clearing(true) <==> WorkerClearsJob(s, j))
    && (job.life.Sleeping? ==> job.busy)
    && (job.done ==> Dropped(job.life) || (j in s.started && !job.busy))
    && (j in s.started ==> !job.empty && (job.done || job.busy))
    && (j < Reached(s) ==> job.done || job.empty || job.busy)
  }

  ghost predicate OpFlags(s: State, o: OpId) {
    && o < |s.ops|
    && var op := s.ops[o];
    && (op.busy <==> OpRuns(s, o))
    && (op.cb <==> !op.empty && !op.life.Gone?)
    && (op.cancel <==> Dropped(op.life))
    && (op.life == Clearing(false) || op.life == Gone(false) ==> !op.busy)
    && (op.life == Clearing(true) <==> WorkerClearsOp(s, o))
    && (op.life.Sleeping? ==> op.busy)
  }

  ghost predicate Flags(s: State) {
    && (forall j :: 0 <= j < |s.jobs| ==> JobFlags(s, j))
    && (forall o :: 0 <= o < |s.ops| ==> OpFlags(s, o))
  }

  /** Whatever the worker's program counter names exists. */
  ghost predicate Names(s: State) {
    && (s.pc.InJob? ==> s.pc.job < |s.jobs|)
    && (s.pc.InHandler? ==> s.pc.op < |s.ops|)
    && (InCallback(s.pc) && s.pc.act.ClearingJob? ==> s.pc.act.jobToClear < |s.jobs|)
    && (InCallback(s.pc) && s.pc.act.ClearingOp? ==> s.pc.act.opToClear < |s.ops|)
  }

  // ----- history of starts

  ghost predicate Increasing(q: seq<nat>) {
    forall i, k :: 0 <= i < k < |q| ==> q[i] < q[k]
  }

  ghost predicate History(s: State) {
    && Increasing(s.started)
    && (forall i :: 0 <= i < |s.started| ==> s.started[i] < Reached(s))
  }

  // ----- requests

  /** The handler map holds exactly the operations not yet dropped, each under its own number. */
  ghost predicate Handlers(s: State) {
    && (forall q :: q in s.handlers ==>
         s.handlers[q] < |s.ops| && s.ops[s.handlers[q]].seqno == q && !s.ops[s.handlers[q]].cancel)
    && (forall o :: 0 <= o < |s.ops| && !s.ops[o].cancel ==>
         s.ops[o].seqno in s.handlers && s.handlers[s.ops[o].seqno] == o)
  }

  /** Requests leave in the order they were made, none lost and none twice. */
  ghost predicate Requests(s: State) {
    && |s.sent| + |s.ready| == |s.ops|
    && Interval(s.sent, 0)
    && Interval(s.ready, |s.sent|)
  }

  // ----- waking up and stopping

  /** The worker reads the pipe only when there is a byte in it, so the read cannot block. */
  ghost predicate PipeReport(s: State) {
    (s.pc.Woken? || s.pc.Batch? || s.pc.InJob? || s.pc.Drain?) && s.pc.rev.pipe ==> s.pipe > 0
  }

  /** Something will end an infinite poll: an armed socket, a byte, or a client about to write one. */
  predicate WakeComing(s: State) {
    (s.pc.Polling? && s.pc.armed) || s.pipe > 0 || s.pokes > 0 || s.stopper.MustPoke?
  }

  predicate StopComing(s: State) { s.pipe > 0 || s.stopper.MustPoke? }

  ghost predicate Wakeups(s: State) {
    && (s.pc.Polling? && s.pc.infinite && s.todo != [] ==> WakeComing(s) || s.ready != [])
    && (s.pc.Polling? && s.pc.infinite && !s.running ==> StopComing(s))
    && (s.pc.Arming? && !s.running ==> s.todo != [] || StopComing(s))
  }

  ghost predicate Stopping(s: State) {
    && (s.running ==> s.stopper.NoStop? && !s.pc.Off?)
    && (!s.running && !s.pc.Off? ==> !s.stopper.NoStop?)
    && (s.pc.Off? ==> s.stopper.NoStop?)
    && (s.pc == Exited(false) ==> !s.running && s.todo == [])
  }

  ghost predicate Inv(s: State) {
    && Queue(s)
    && Names(s)
    && Flags(s)
    && History(s)
    && Handlers(s)
    && Requests(s)
    && PipeReport(s)
    && Wakeups(s)
    && Stopping(s)
  }

  // ----- preservation, one conjunct and one kind of step at a time

  lemma {:induction false} PushKeepsQueue(s: State, empty: bool)
    requires Queue(s) && Names(s)
    ensures Queue(PushJob(s, empty)) && Names(PushJob(s, empty))
  {
  }

  /** Steps that leave the queue, the batch and the number of jobs alone. */
  lemma {:induction false} QueueFrame(s: State, t: State)
    requires Queue(s) && t.todo == s.todo && Taken(t.pc) == Taken(s.pc) && |t.jobs| == |s.jobs|
    requires t.pc.InJob? == s.pc.InJob? && (t.pc.InJob? ==> t.pc.job == s.pc.job)
    ensures Queue(t)
  {
  }

  lemma {:induction false} QueueClient(s: State, c: ClientStep)
    requires Queue(s) && Names(s) && ClientEnabled(s, c)
    ensures Queue(ClientApply(s, c)) && Names(ClientApply(s, c))
  {
    if c.Submit? {
      PushKeepsQueue(s, c.empty);
    } else {
      QueueFrame(s, ClientApply(s, c));
    }
  }

  lemma {:induction false} QueueBatch(s: State, w: ControlStep)
    requires Queue(s) && ControlEnabled(s, w) && (w.Relock? || w.NextJob? || w.JobReturns?)
    ensures Queue(ControlApply(s, w))
  {
  }

  lemma {:induction false} NamesControl(s: State, w: ControlStep)
    requires Queue(s) && Names(s) && ControlEnabled(s, w)
    ensures Names(ControlApply(s, w))
  {
  }

  lemma {:induction false} QueueControl(s: State, w: ControlStep)
    requires Queue(s) && Names(s) && ControlEnabled(s, w)
    ensures Queue(ControlApply(s, w)) && Names(ControlApply(s, w))
  {
    NamesControl(s, w);
    if w.Relock? || w.NextJob? || w.JobReturns? {
      QueueBatch(s, w);
    } else {
      QueueFrame(s, ControlApply(s, w));
    }
  }

  lemma {:induction false} QueueCallback(s: State, a: CallbackStep)
    requires Queue(s) && Names(s) && CallbackEnabled(s, a)
    ensures Queue(CallbackApply(s, a)) && Names(CallbackApply(s, a))
  {
  }

  lemma {:induction false} NewJobFlags(s: State, empty: bool)
    requires Queue(s) && Names(s) && History(s)
    ensures JobFlags(PushJob(s, empty), |s.jobs|)
  {
    assert |s.jobs| !in s.started;
  }

  /** Steps that leave a job and what the worker does with it alone. */
  lemma {:induction false} JobFrame(s: State, t: State, j: JobId)
    requires JobFlags(s, j) && j < |t.jobs| && t.jobs[j] == s.jobs[j]
    requires t.started == s.started && Reached(t) == Reached(s)
    requires JobRuns(t, j) == JobRuns(s, j) && WorkerClearsJob(t, j) == WorkerClearsJob(s, j)
    ensures JobFlags(t, j)
  {
  }

  lemma {:induction false} JobFlagsClient(s: State, c: ClientStep, j: JobId)
    requires JobFlags(s, j) && ClientEnabled(s, c)
    ensures JobFlags(ClientApply(s, c), j)
  {
    assert Reached(ClientApply(s, c)) == Reached(s);
    if !c.DropJob? && !c.LockJob? && !c.ClearJob? {
      JobFrame(s, ClientApply(s, c), j);
    }
  }

  lemma {:induction false} JobFlagsNext(s: State, j: JobId)
    requires Queue(s) && History(s) && s.pc.Batch? && j < |s.jobs| && JobFlags(s, j)
    ensures JobFlags(ControlApply(s, NextJob), j)
  {
    var t := ControlApply(s, NextJob);
    if s.pc.rest != [] {
      assert s.pc.rest[0] == Reached(s) == Reached(t) - 1;
      assert s.pc.rest[0] !in s.started;
    }
  }

  lemma {:induction false} JobFlagsControl(s: State, w: ControlStep, j: JobId)
    requires !w.NextJob?
    requires j < |s.jobs| && JobFlags(s, j) && ControlEnabled(s, w)
    ensures JobFlags(ControlApply(s, w), j)
  {
    assert Reached(ControlApply(s, w)) == Reached(s);
  }

  lemma {:induction false} JobFlagsCallback(s: State, a: CallbackStep, j: JobId)
    requires j < |s.jobs| && JobFlags(s, j) && CallbackEnabled(s, a)
    ensures JobFlags(CallbackApply(s, a), j)
  {
    assert Reached(CallbackApply(s, a)) == Reached(s);
  }

  lemma {:induction false} JobFlagsAt(s: State, l: Label, j: JobId)
    requires Queue(s) && History(s) && Enabled(s, l) && j < |s.jobs| && JobFlags(s, j)
    ensures JobFlags(Apply(s, l), j)
  {
    match l
    case Client(c) => JobFlagsClient(s, c, j);
    case Callback(a) => JobFlagsCallback(s, a, j);
    case Control(w) =>
      if w.NextJob? {
        JobFlagsNext(s, j);
      } else {
        JobFlagsControl(s, w, j);
      }
  }

  lemma {:induction false} JobFlagsKept(s: State, l: Label)
    requires Queue(s) && Names(s) && Flags(s) && History(s) && Enabled(s, l)
    ensures forall j :: 0 <= j < |Apply(s, l).jobs| ==> JobFlags(Apply(s, l), j)
  {
    forall j | 0 <= j < |s.jobs| ensures JobFlags(Apply(s, l), j) {
      JobFlagsAt(s, l, j);
    }
    if |Apply(s, l).jobs| != |s.jobs| {
      NewJobFlags(s, if l.Client? then l.c.empty else l.a.empty);
    }
  }

  lemma {:induction false} NewOpFlags(s: State, empty: bool)
    requires Names(s)
    ensures OpFlags(PushRequest(s, empty), |s.ops|)
  {
  }

  /** Steps that leave an operation and what the worker does with it alone. */
  lemma {:induction false} OpFrame(s: State, t: State, o: OpId)
    requires OpFlags(s, o) && o < |t.ops| && t.ops[o] == s.ops[o]
    requires OpRuns(t, o) == OpRuns(s, o) && WorkerClearsOp(t, o) == WorkerClearsOp(s, o)
    ensures OpFlags(t, o)
  {
  }

  lemma {:induction false} OpFlagsClient(s: State, c: ClientStep, o: OpId)
    requires OpFlags(s, o) && ClientEnabled(s, c)
    ensures OpFlags(ClientApply(s, c), o)
  {
    if !c.DropOp? && !c.LockOp? && !c.ClearOp? {
      OpFrame(s, ClientApply(s, c), o);
    }
  }

  lemma {:induction false} OpFlagsControl(s: State, w: ControlStep, o: OpId)
    requires o < |s.ops| && OpFlags(s, o) && ControlEnabled(s, w)
    ensures OpFlags(ControlApply(s, w), o)
  {
  }

  lemma {:induction false} OpFlagsCallback(s: State, a: CallbackStep, o: OpId)
    requires o < |s.ops| && OpFlags(s, o) && CallbackEnabled(s, a)
    ensures OpFlags(CallbackApply(s, a), o)
  {
  }

  lemma {:induction false} OpFlagsAt(s: State, l: Label, o: OpId)
    requires Enabled(s, l) && o < |s.ops| && OpFlags(s, o)
    ensures OpFlags(Apply(s, l), o)
  {
    match l
    case Client(c) => OpFlagsClient(s, c, o);
    case Control(w) => OpFlagsControl(s, w, o);
    case Callback(a) => OpFlagsCallback(s, a, o);
  }

  lemma {:induction false} OpFlagsKept(s: State, l: Label)
    requires Names(s) && Flags(s) && Enabled(s, l)
    ensures forall o :: 0 <= o < |Apply(s, l).ops| ==> OpFlags(Apply(s, l), o)
  {
    forall o | 0 <= o < |s.ops| ensures OpFlags(Apply(s, l), o) {
      OpFlagsAt(s, l, o);
    }
    if |Apply(s, l).ops| != |s.ops| {
      NewOpFlags(s, if l.Client? then l.c.empty else l.a.empty);
    }
  }

  lemma {:induction false} HistoryClient(s: State, c: ClientStep)
    requires Queue(s) && Names(s) && History(s) && ClientEnabled(s, c)
    ensures History(ClientApply(s, c))
  {
  }

  lemma {:induction false} HistoryControl(s: State, w: ControlStep)
    requires Queue(s) && Names(s) && History(s) && ControlEnabled(s, w)
    ensures History(ControlApply(s, w))
  {
  }

  lemma {:induction false} HistoryCallback(s: State, a: CallbackStep)
    requires Queue(s) && Names(s) && History(s) && CallbackEnabled(s, a)
    ensures History(CallbackApply(s, a))
  {
  }

  lemma {:induction false} PushKeepsHandlers(s: State, empty: bool)
    requires Handlers(s) && |s.handlers.Keys| < WRAP
    ensures Handlers(PushRequest(s, empty))
  {
    FirstFreeIsFirst(s.handlers.Keys, s.nextseq);
  }

  lemma {:induction false} FinishKeepsHandlers(s: State, o: OpId, byWorker: bool)
    requires Handlers(s) && o < |s.ops| && !s.ops[o].cancel
    ensures Handlers(FinishOp(s, o, byWorker))
  {
  }

  lemma {:induction false} HandlersClient(s: State, c: ClientStep)
    requires Handlers(s) && Names(s) && Flags(s) && ClientEnabled(s, c)
    ensures Handlers(ClientApply(s, c))
  {
    match c
    case Request(empty) => PushKeepsHandlers(s, empty);
    case LockOp(o) =>
      assert OpFlags(s, o);
      FinishKeepsHandlers(s, o, false);
    case _ =>
  }

  /** Steps that only move `busy` and `life` of operations leave the handler map in order. */
  lemma {:induction false} HandlersFrame(s: State, t: State)
    requires Handlers(s) && t.handlers == s.handlers && |t.ops| == |s.ops|
    requires forall o :: 0 <= o < |s.ops| ==> t.ops[o].seqno == s.ops[o].seqno && t.ops[o].cancel == s.ops[o].cancel
    ensures Handlers(t)
  {
  }

  lemma {:induction false} HandlersControl(s: State, w: ControlStep)
    requires Handlers(s) && ControlEnabled(s, w)
    ensures Handlers(ControlApply(s, w))
  {
    HandlersFrame(s, ControlApply(s, w));
  }

  lemma {:induction false} HandlersCallback(s: State, a: CallbackStep)
    requires Handlers(s) && Names(s) && Flags(s) && CallbackEnabled(s, a)
    ensures Handlers(CallbackApply(s, a))
  {
    match a
    case RequestInside(empty) => PushKeepsHandlers(s, empty);
    case DropOpInside(o) =>
      assert OpFlags(s, o);
      FinishKeepsHandlers(s, o, true);
    case _ =>
  }

  lemma {:induction false} RequestsClient(s: State, c: ClientStep)
    requires Requests(s) && ClientEnabled(s, c)
    ensures Requests(ClientApply(s, c))
  {
  }

  lemma {:induction false} RequestsControl(s: State, w: ControlStep)
    requires Requests(s) && ControlEnabled(s, w)
    ensures Requests(ControlApply(s, w))
  {
  }

  lemma {:induction false} RequestsCallback(s: State, a: CallbackStep)
    requires Requests(s) && CallbackEnabled(s, a)
    ensures Requests(CallbackApply(s, a))
  {
  }

  lemma {:induction false} WakeupsClient(s: State, c: ClientStep)
    requires PipeReport(s) && Wakeups(s) && Stopping(s) && ClientEnabled(s, c)
    ensures PipeReport(ClientApply(s, c)) && Wakeups(ClientApply(s, c)) && Stopping(ClientApply(s, c))
  {
  }

  lemma {:induction false} StoppingControl(s: State, w: ControlStep)
    requires Stopping(s) && ControlEnabled(s, w)
    ensures Stopping(ControlApply(s, w))
  {
  }

  lemma {:induction false} PipeReportControl(s: State, w: ControlStep)
    requires PipeReport(s) && ControlEnabled(s, w)
    ensures PipeReport(ControlApply(s, w))
  {
  }

  lemma {:induction false} WakeupsControl(s: State, w: ControlStep)
    requires Wakeups(s) && Stopping(s) && ControlEnabled(s, w)
    ensures Wakeups(ControlApply(s, w))
  {
  }

  lemma {:induction false} WakeupsCallback(s: State, a: CallbackStep)
    requires PipeReport(s) && Wakeups(s) && Stopping(s) && CallbackEnabled(s, a)
    ensures PipeReport(CallbackApply(s, a)) && Wakeups(CallbackApply(s, a)) && Stopping(CallbackApply(s, a))
  {
  }

  /** The invariant holds at the beginning and every step of every thread keeps it. */
  lemma {:induction false} InvInit(pid: U32)
    ensures Inv(Initial(pid))
  {
  }

  lemma {:induction false} InvKept(s: State, l: Label)
    requires Inv(s) && Enabled(s, l)
    ensures Inv(Apply(s, l))
  {
    JobFlagsKept(s, l);
    OpFlagsKept(s, l);
    match l
    case Client(c) =>
      QueueClient(s, c);
      HistoryClient(s, c);
      HandlersClient(s, c);
      RequestsClient(s, c);
      WakeupsClient(s, c);
    case Control(w) =>
      QueueControl(s, w);
      HistoryControl(s, w);
      HandlersControl(s, w);
      RequestsControl(s, w);
      PipeReportControl(s, w);
      WakeupsControl(s, w);
      StoppingControl(s, w);
    case Callback(a) =>
      QueueCallback(s, a);
      HistoryCallback(s, a);
      HandlersCallback(s, a);
      RequestsCallback(s, a);
      WakeupsCallback(s, a);
  }
}
