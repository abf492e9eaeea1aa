/** The reactor as a transition system.  One worker thread and any number of client threads share the
    state below under one lock.  A step is a region between taking and releasing the lock, or something
    a thread does without the lock.  The lock itself shows as the worker's program counter: at a
    `Locked` counter the worker holds it and no other thread can be inside a locked region. */
module ReactorState {
  import opened Netlink
  import opened SequenceNumbers

  type JobId = nat   // jobs are numbered in the order they were submitted
  type OpId = nat    // operations are numbered in the order they were requested

  /** How far a handle's last external reference has got on its way out. */
  datatype Life =
    | Held                      // a user still holds the handle
    | Dropping                  // a client is in the deleter, asking for the lock
    | Sleeping                  // that client waits on the condition variable
    | Clearing(byWorker: bool)  // flag set under the lock, `cb = nullptr` still to come
    | Gone(byWorker: bool)      // the deleter has returned

  predicate Dropped(life: Life) { life.Clearing? || life.Gone? }

  /** `empty`: submitted with an empty callback.  `cb`: the callback is still there. */
  datatype Job = Job(empty: bool, cb: bool, done: bool, busy: bool, life: Life)

  datatype Operation = Operation(seqno: U32, empty: bool, cb: bool, cancel: bool, busy: bool, life: Life)

  /** What poll() reported: wake-up pipe readable, socket readable, socket writable. */
  datatype Revents = Revents(pipe: bool, rx: bool, tx: bool)

  /** What the worker thread is doing inside a user callback. */
  datatype Act = Free | Poking | ClearingJob(jobToClear: JobId) | ClearingOp(opToClear: OpId)

  datatype Pc =
    | Off                                   // no worker thread
    | Spawned                               // thread created, lock not yet taken
    | Top                                   // L: loop condition
    | Arming(armed: bool)                   // lock released, about to call poll()
    | Polling(infinite: bool, armed: bool)  // in poll()
    | Woken(rev: Revents)                   // poll() returned, lock not yet taken
    | Batch(rev: Revents, rest: seq<JobId>) // L: jobs taken from the queue and not yet looked at
    | InJob(rev: Revents, rest: seq<JobId>, job: JobId, act: Act)
    | Drain(rev: Revents)                   // L: empty the wake-up pipe
    | Receive(rev: Revents)                 // L: receive one datagram
    | Walk(rev: Revents, data: seq<Byte>, at: nat)  // L: walking a datagram, cursor at `at`
    | InHandler(rev: Revents, data: seq<Byte>, at: nat, op: OpId, act: Act)  // cursor already past the message
    | Transmit(rev: Revents)                // L: send what is queued
    | Exited(fatal: bool)                   // run() has returned

  predicate Locked(pc: Pc) {
    pc.Top? || pc.Batch? || pc.Drain? || pc.Receive? || pc.Walk? || pc.Transmit?
  }

  predicate InCallback(pc: Pc) { pc.InJob? || pc.InHandler? }

  /** The thread in stop(). */
  datatype Stopper = NoStop | MustPoke | Joining

  datatype State = State(
    pid: U32,                   // port id of the socket
    running: bool,
    todo: seq<JobId>,
    ready: seq<OpId>,           // requests not yet sent
    handlers: map<U32, OpId>,
    nextseq: U32,
    jobs: seq<Job>,             // every job ever accepted
    ops: seq<Operation>,        // every operation ever accepted
    pipe: nat,                  // bytes in the wake-up pipe
    pokes: nat,                 // clients between releasing the lock and writing the byte
    stopper: Stopper,
    pc: Pc,
    started: seq<JobId>,        // history: job callbacks in the order they were started
    sent: seq<OpId>             // history: requests in the order they left `ready`
  )

  function Initial(pid: U32): State {
    State(pid, false, [], [], map[], 0, [], [], 0, 0, NoStop, Off, [], [])
  }

  /** What client threads do. */
  datatype ClientStep =
    | Start | StopBegin | StopPoke | Join
    | Submit(empty: bool) | Poke | Request(empty: bool)
    | DropJob(j: JobId) | LockJob(j: JobId) | ClearJob(j: JobId)
    | DropOp(o: OpId) | LockOp(o: OpId) | ClearOp(o: OpId)

  /** The worker's own control flow. */
  datatype ControlStep =
    | FirstLock | LoopTop | EnterPoll
    | PollReturns(rx: bool, tx: bool) | PollInterrupted | PollFails | Relock
    | NextJob | JobReturns
    | DrainPipe(ok: bool) | ReceiveNothing | ReceiveDatagram(bytes: seq<Byte>)
    | NextMessage | HandlerReturns | TransmitAll

  /** What the worker thread does inside a user callback. */
  datatype CallbackStep =
    | SubmitInside(empty: bool) | PokeInside | RequestInside(empty: bool)
    | DropJobInside(j: JobId) | DropOpInside(o: OpId) | ClearInside

  datatype Label = Client(c: ClientStep) | Control(w: ControlStep) | Callback(a: CallbackStep)

  // ----- effects shared by several steps

  /** notify_all: every sleeping client wakes up and asks for the lock again. */
  function NotifyJobs(jobs: seq<Job>): (r: seq<Job>)
    ensures |r| == |jobs|
    ensures forall i :: 0 <= i < |jobs| ==>
              r[i] == if jobs[i].life.Sleeping? then jobs[i].(life := Dropping) else jobs[i]
  {
    seq(|jobs|, i requires 0 <= i < |jobs| => if jobs[i].life.Sleeping? then jobs[i].(life := Dropping) else jobs[i])
  }

  function NotifyOps(ops: seq<Operation>): (r: seq<Operation>)
    ensures |r| == |ops|
    ensures forall i :: 0 <= i < |ops| ==>
              r[i] == if ops[i].life.Sleeping? then ops[i].(life := Dropping) else ops[i]
  {
    seq(|ops|, i requires 0 <= i < |ops| => if ops[i].life.Sleeping? then ops[i].(life := Dropping) else ops[i])
  }

  function Notify(s: State): State {
    s.(jobs := NotifyJobs(s.jobs), ops := NotifyOps(s.ops))
  }

  /** Whether the one who pushes the next job must write to the pipe. */
  predicate Wakes(s: State) { s.todo == [] && s.ready == [] }

  function PushJob(s: State, empty: bool): State {
    s.(todo := s.todo + [|s.jobs|], jobs := s.jobs + [Job(empty, !empty, false, false, Held)])
  }

  /** The sequence number goes to the handler map before the message goes to `ready`, so the test for
      a wake-up that follows finds `ready` non-empty and never asks for a poke. */
  function PushRequest(s: State, empty: bool): State {
    var q := FirstFree(s.handlers.Keys, s.nextseq);
    s.(handlers := s.handlers[q := |s.ops|], nextseq := Succ(q), ready := s.ready + [|s.ops|],
       ops := s.ops + [Operation(q, empty, !empty, false, false, Held)])
  }

  function FinishJob(s: State, j: JobId, byWorker: bool): State
    requires j < |s.jobs|
  {
    s.(jobs := s.jobs[j := s.jobs[j].(done := true, life := Clearing(byWorker))])
  }

  function FinishOp(s: State, o: OpId, byWorker: bool): State
    requires o < |s.ops|
  {
    s.(ops := s.ops[o := s.ops[o].(cancel := true, life := Clearing(byWorker))],
       handlers := s.handlers - {s.ops[o].seqno})
  }

  function ClearedJob(s: State, j: JobId, byWorker: bool): State
    requires j < |s.jobs|
  {
    s.(jobs := s.jobs[j := s.jobs[j].(cb := false, life := Gone(byWorker))])
  }

  function ClearedOp(s: State, o: OpId, byWorker: bool): State
    requires o < |s.ops|
  {
    s.(ops := s.ops[o := s.ops[o].(cb := false, life := Gone(byWorker))])
  }

  /** The queued weak reference still leads to a job, the job is not done and has a callback. */
  predicate Runnable(s: State, j: JobId) {
    j < |s.jobs| && !s.jobs[j].life.Gone? && !s.jobs[j].done && s.jobs[j].cb
  }

  /** The operation a message is for, as the handler map has it now. */
  predicate Deliverable(s: State, m: Message) {
    && m.hdr.pid == s.pid && m.hdr.seqno in s.handlers
    && var o := s.handlers[m.hdr.seqno];
       o < |s.ops| && !s.ops[o].life.Gone? && !s.ops[o].cancel && s.ops[o].cb
  }

  /** The worker hands message `m` to its operation, or passes over it. */
  function Deliver(s: State, m: Message): State
    requires s.pc.Walk?
  {
    var next := m.at + Align4(m.hdr.len);
    if Deliverable(s, m) then
      var o := s.handlers[m.hdr.seqno];
      s.(ops := s.ops[o := s.ops[o].(busy := true)], pc := InHandler(s.pc.rev, s.pc.data, next, o, Free))
    else s.(pc := Walk(s.pc.rev, s.pc.data, next))
  }

  // ----- client steps

  predicate ClientEnabled(s: State, c: ClientStep) {
    match c
    case Start => s.pc.Off? && !s.running && s.stopper.NoStop?
    case StopBegin => s.running && s.stopper.NoStop? && !Locked(s.pc)
    case StopPoke => s.stopper.MustPoke?
    case Join => s.stopper.Joining? && s.pc.Exited?
    case Submit(_) => s.running && !Locked(s.pc)
    case Poke => s.pokes > 0
    case Request(_) => !Locked(s.pc) && |s.handlers.Keys| < WRAP
    case DropJob(j) => j < |s.jobs| && s.jobs[j].life.Held?
    case LockJob(j) => j < |s.jobs| && s.jobs[j].life.Dropping? && !Locked(s.pc)
    case ClearJob(j) => j < |s.jobs| && s.jobs[j].life == Clearing(false)
    case DropOp(o) => o < |s.ops| && s.ops[o].life.Held?
    case LockOp(o) => o < |s.ops| && s.ops[o].life.Dropping? && !Locked(s.pc)
    case ClearOp(o) => o < |s.ops| && s.ops[o].life == Clearing(false)
  }

  function ClientApply(s: State, c: ClientStep): State
    requires ClientEnabled(s, c)
  {
    match c
    case Start => s.(running := true, pc := Spawned)
    case StopBegin => s.(running := false, stopper := MustPoke)
    case StopPoke => s.(pipe := s.pipe + 1, stopper := Joining)
    case Join => s.(stopper := NoStop, pc := Off)
    case Submit(empty) => PushJob(s, empty).(pokes := if Wakes(s) then s.pokes + 1 else s.pokes)
    case Poke => s.(pipe := s.pipe + 1, pokes := s.pokes - 1)
    case Request(empty) => PushRequest(s, empty)
    case DropJob(j) => s.(jobs := s.jobs[j := s.jobs[j].(life := Dropping)])
    case LockJob(j) =>
      if s.jobs[j].busy then s.(jobs := s.jobs[j := s.jobs[j].(life := Sleeping)]) else FinishJob(s, j, false)
    case ClearJob(j) => ClearedJob(s, j, false)
    case DropOp(o) => s.(ops := s.ops[o := s.ops[o].(life := Dropping)])
    case LockOp(o) =>
      if s.ops[o].busy then s.(ops := s.ops[o := s.ops[o].(life := Sleeping)]) else FinishOp(s, o, false)
    case ClearOp(o) => ClearedOp(s, o, false)
  }

  // ----- worker control steps

  predicate ControlEnabled(s: State, w: ControlStep) {
    match w
    case FirstLock => s.pc.Spawned?
    case LoopTop => s.pc.Top?
    case EnterPoll => s.pc.Arming?
    case PollReturns(rx, tx) =>
      s.pc.Polling? && (tx ==> s.pc.armed) && (s.pc.infinite ==> s.pipe > 0 || rx || tx)
    case PollInterrupted => s.pc.Polling?
    case PollFails => s.pc.Polling?
    case Relock => s.pc.Woken?
    case NextJob => s.pc.Batch?
    case JobReturns => s.pc.InJob? && s.pc.act.Free? && s.pc.job < |s.jobs|
    case DrainPipe(_) => s.pc.Drain?
    case ReceiveNothing => s.pc.Receive?
    case ReceiveDatagram(bytes) => s.pc.Receive? && s.pc.rev.rx && |bytes| <= 0x7fff
    case NextMessage => s.pc.Walk?
    case HandlerReturns => s.pc.InHandler? && s.pc.act.Free? && s.pc.op < |s.ops|
    case TransmitAll => s.pc.Transmit?
  }

  function Min(a: nat, b: nat): nat { if a < b then a else b }

  function ControlApply(s: State, w: ControlStep): State
    requires ControlEnabled(s, w)
  {
    match w
    case FirstLock => s.(pc := Top)
    case LoopTop =>
      if s.running || s.todo != [] then s.(pc := Arming(s.ready != [])) else s.(pc := Exited(false))
    case EnterPoll => s.(pc := Polling(s.todo == [], s.pc.armed))
    case PollReturns(rx, tx) => s.(pc := Woken(Revents(s.pipe > 0, rx, tx)))
    case PollInterrupted => s.(pc := Woken(Revents(false, false, false)))
    case PollFails => s.(pc := Exited(true))
    case Relock => s.(pc := Batch(s.pc.rev, s.todo), todo := [])
    case NextJob =>
      if s.pc.rest == [] then s.(pc := Drain(s.pc.rev))
      else
        var j := s.pc.rest[0];
        if Runnable(s, j) then
          s.(jobs := s.jobs[j := s.jobs[j].(busy := true)],
             pc := InJob(s.pc.rev, s.pc.rest[1..], j, Free),
             started := s.started + [j])
        else s.(pc := Batch(s.pc.rev, s.pc.rest[1..]))
    case JobReturns =>
      var j := s.pc.job;
      Notify(s.(jobs := s.jobs[j := s.jobs[j].(busy := false, done := true)], pc := Batch(s.pc.rev, s.pc.rest)))
    case DrainPipe(ok) =>
      s.(pc := Receive(s.pc.rev), pipe := if s.pc.rev.pipe && ok then s.pipe - Min(16, s.pipe) else s.pipe)
    case ReceiveNothing => s.(pc := Transmit(s.pc.rev))
    case ReceiveDatagram(bytes) => s.(pc := Walk(s.pc.rev, bytes, 0))
    case NextMessage =>
      if !MessageOk(s.pc.data, s.pc.at, |s.pc.data| - s.pc.at) then s.(pc := Transmit(s.pc.rev))
      else Deliver(s, Message(s.pc.at, ReadHeader(s.pc.data, s.pc.at)))
    case HandlerReturns =>
      var o := s.pc.op;
      Notify(s.(ops := s.ops[o := s.ops[o].(busy := false)], pc := Walk(s.pc.rev, s.pc.data, s.pc.at)))
    case TransmitAll =>
      if s.pc.rev.tx then s.(pc := Top, sent := s.sent + s.ready, ready := []) else s.(pc := Top)
  }

  // ----- steps of the worker inside a callback

  predicate CallbackEnabled(s: State, a: CallbackStep) {
    && InCallback(s.pc)
    && match a
       case SubmitInside(_) => s.pc.act.Free? && s.running
       case PokeInside => s.pc.act.Poking?
       case RequestInside(_) => s.pc.act.Free? && |s.handlers.Keys| < WRAP
       case DropJobInside(j) => s.pc.act.Free? && j < |s.jobs| && s.jobs[j].life.Held?
       case DropOpInside(o) => s.pc.act.Free? && o < |s.ops| && s.ops[o].life.Held?
       case ClearInside =>
         || (s.pc.act.ClearingJob? && s.pc.act.jobToClear < |s.jobs|)
         || (s.pc.act.ClearingOp? && s.pc.act.opToClear < |s.ops|)
  }

  function CallbackApply(s: State, a: CallbackStep): State
    requires CallbackEnabled(s, a)
  {
    match a
    case SubmitInside(empty) => PushJob(s, empty).(pc := s.pc.(act := if Wakes(s) then Poking else Free))
    case PokeInside => s.(pipe := s.pipe + 1, pc := s.pc.(act := Free))
    case RequestInside(empty) => PushRequest(s, empty)
    case DropJobInside(j) => FinishJob(s, j, true).(pc := s.pc.(act := ClearingJob(j)))
    case DropOpInside(o) => FinishOp(s, o, true).(pc := s.pc.(act := ClearingOp(o)))
    case ClearInside =>
      if s.pc.act.ClearingJob? then ClearedJob(s, s.pc.act.jobToClear, true).(pc := s.pc.(act := Free))
      else ClearedOp(s, s.pc.act.opToClear, true).(pc := s.pc.(act := Free))
  }

  // ----- any step

  predicate Enabled(s: State, l: Label) {
    match l
    case Client(c) => ClientEnabled(s, c)
    case Control(w) => ControlEnabled(s, w)
    case Callback(a) => CallbackEnabled(s, a)
  }

  function Apply(s: State, l: Label): State
    requires Enabled(s, l)
  {
    match l
    case Client(c) => ClientApply(s, c)
    case Control(w) => ControlApply(s, w)
    case Callback(a) => CallbackApply(s, a)
  }
}
