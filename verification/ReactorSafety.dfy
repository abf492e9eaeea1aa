/** Safety of the reactor over whole runs: cancellation, order, single flight, dispatch, wake-ups. */
module ReactorSafety {
  import opened Netlink
  import opened ReactorState
  import opened ReactorInvariant

  // ----- runs

  /** States and the steps between them, starting from any state the invariant allows. */
  ghost predicate IsRun(ss: seq<State>, ls: seq<Label>) {
    && |ss| == |ls| + 1
    && Inv(ss[0])
    && forall i {:trigger ls[i]} :: 0 <= i < |ls| ==> Enabled(ss[i], ls[i]) && ss[i + 1] == Apply(ss[i], ls[i])
  }

  /** In particular every state of a run from the initial state satisfies the invariant. */
  lemma {:induction false} RunInv(ss: seq<State>, ls: seq<Label>, k: nat)
    requires IsRun(ss, ls) && k < |ss|
    ensures Inv(ss[k])
  {
    if k > 0 {
      RunInv(ss, ls, k - 1);
      InvKept(ss[k - 1], ls[k - 1]);
    }
  }

  // ----- what a run can never take back

  /** From `s` to `t` jobs only ripen: none disappears, a finished one stays finished, a dropped handle
      stays dropped by whoever dropped it, and a job that is not running will run only if it could. */
  ghost predicate JobAges(s: State, t: State, j: JobId)
    requires j < |s.jobs|
  {
    && j < |t.jobs|
    && t.jobs[j].empty == s.jobs[j].empty
    && (s.jobs[j].done ==> t.jobs[j].done)
    && (s.jobs[j].done && !s.jobs[j].busy ==> !t.jobs[j].busy)
    && (Dropped(s.jobs[j].life) ==> Dropped(t.jobs[j].life) && t.jobs[j].life.byWorker == s.jobs[j].life.byWorker)
  }

  ghost predicate OpAges(s: State, t: State, o: OpId)
    requires o < |s.ops|
  {
    && o < |t.ops|
    && t.ops[o].seqno == s.ops[o].seqno
    && (s.ops[o].cancel ==> t.ops[o].cancel)
    && (s.ops[o].cancel && !s.ops[o].busy ==> !t.ops[o].busy)
    && (Dropped(s.ops[o].life) ==> Dropped(t.ops[o].life) && t.ops[o].life.byWorker == s.ops[o].life.byWorker)
  }

  lemma {:induction false} JobAgesClient(s: State, c: ClientStep, j: JobId)
    requires ClientEnabled(s, c) && j < |s.jobs|
    ensures JobAges(s, ClientApply(s, c), j)
  {
  }

  lemma {:induction false} JobAgesControl(s: State, w: ControlStep, j: JobId)
    requires ControlEnabled(s, w) && j < |s.jobs|
    ensures JobAges(s, ControlApply(s, w), j)
  {
  }

  lemma {:induction false} JobAgesCallback(s: State, a: CallbackStep, j: JobId)
    requires CallbackEnabled(s, a) && j < |s.jobs| && JobFlags(s, j)
    ensures JobAges(s, CallbackApply(s, a), j)
  {
  }

  lemma {:induction false} JobAgesStep(r: State, s: State, l: Label, t: State, j: JobId)
    requires Flags(s) && Enabled(s, l) && t == Apply(s, l) && j < |r.jobs| && JobAges(r, s, j)
    ensures JobAges(r, t, j)
  {
    assert JobFlags(s, j);
    match l
    case Client(c) => JobAgesClient(s, c, j);
    case Control(w) => JobAgesControl(s, w, j);
    case Callback(a) => JobAgesCallback(s, a, j);
  }

  lemma {:induction false} JobAgesRun(ss: seq<State>, ls: seq<Label>, i: nat, k: nat, j: JobId)
    requires IsRun(ss, ls) && i <= k < |ss| && j < |ss[i].jobs|
    ensures JobAges(ss[i], ss[k], j)
  {
    if i < k {
      JobAgesRun(ss, ls, i, k - 1, j);
      RunInv(ss, ls, k - 1);
      JobAgesStep(ss[i], ss[k - 1], ls[k - 1], ss[k], j);
    }
  }

  lemma {:induction false} OpAgesClient(s: State, c: ClientStep, o: OpId)
    requires ClientEnabled(s, c) && o < |s.ops|
    ensures OpAges(s, ClientApply(s, c), o)
  {
  }

  lemma {:induction false} OpAgesControl(s: State, w: ControlStep, o: OpId)
    requires ControlEnabled(s, w) && o < |s.ops|
    ensures OpAges(s, ControlApply(s, w), o)
  {
  }

  lemma {:induction false} OpAgesCallback(s: State, a: CallbackStep, o: OpId)
    requires CallbackEnabled(s, a) && o < |s.ops| && OpFlags(s, o)
    ensures OpAges(s, CallbackApply(s, a), o)
  {
  }

  lemma {:induction false} OpAgesStep(r: State, s: State, l: Label, t: State, o: OpId)
    requires Flags(s) && Enabled(s, l) && t == Apply(s, l) && o < |r.ops| && OpAges(r, s, o)
    ensures OpAges(r, t, o)
  {
    assert OpFlags(s, o);
    match l
    case Client(c) => OpAgesClient(s, c, o);
    case Control(w) => OpAgesControl(s, w, o);
    case Callback(a) => OpAgesCallback(s, a, o);
  }

  lemma {:induction false} OpAgesRun(ss: seq<State>, ls: seq<Label>, i: nat, k: nat, o: OpId)
    requires IsRun(ss, ls) && i <= k < |ss| && o < |ss[i].ops|
    ensures OpAges(ss[i], ss[k], o)
  {
    if i < k {
      OpAgesRun(ss, ls, i, k - 1, o);
      RunInv(ss, ls, k - 1);
      OpAgesStep(ss[i], ss[k - 1], ls[k - 1], ss[k], o);
    }
  }

  // ----- cancellation

  /** This step starts the callback of job `j`. */
  predicate StartsJob(s: State, l: Label, j: JobId) {
    l == Control(NextJob) && s.pc.Batch? && s.pc.rest != [] && s.pc.rest[0] == j && Runnable(s, j)
  }

  /** The message under the worker's cursor. */
  function Current(s: State): Message
    requires s.pc.Walk? && MessageOk(s.pc.data, s.pc.at, |s.pc.data| - s.pc.at)
  {
    Message(s.pc.at, ReadHeader(s.pc.data, s.pc.at))
  }

  /** This step hands the message under the cursor to the callback of operation `o`. */
  predicate StartsHandler(s: State, l: Label, o: OpId) {
    && l == Control(NextMessage) && s.pc.Walk?
    && MessageOk(s.pc.data, s.pc.at, |s.pc.data| - s.pc.at)
    && Deliverable(s, Current(s)) && s.handlers[Current(s).hdr.seqno] == o
  }

  /** Once a job's handle is dropped its callback never starts again.  If a client dropped it, the callback
      is not running either, from the moment the flag is set and so when the drop returns; if the worker
      did, the callback runs afterwards only if it was the very callback that dropped it. */
  lemma {:induction false} JobCancellation(ss: seq<State>, ls: seq<Label>, i: nat, k: nat, j: JobId)
    requires IsRun(ss, ls) && i <= k < |ss| && j < |ss[i].jobs| && Dropped(ss[i].jobs[j].life)
    ensures k < |ls| ==> !StartsJob(ss[k], ls[k], j)
    ensures !ss[i].jobs[j].life.byWorker ==> !JobRuns(ss[k], j)
    ensures JobRuns(ss[k], j) ==> JobRuns(ss[i], j)
  {
    RunInv(ss, ls, i);
    RunInv(ss, ls, k);
    assert JobFlags(ss[i], j);
    JobAgesRun(ss, ls, i, k, j);
    assert JobFlags(ss[k], j);
  }

  /** The same for operations: no message reaches a cancelled one, not even a later message of the datagram
      during which it was cancelled. */
  lemma {:induction false} OpCancellation(ss: seq<State>, ls: seq<Label>, i: nat, k: nat, o: OpId)
    requires IsRun(ss, ls) && i <= k < |ss| && o < |ss[i].ops| && Dropped(ss[i].ops[o].life)
    ensures k < |ls| ==> !StartsHandler(ss[k], ls[k], o)
    ensures !ss[i].ops[o].life.byWorker ==> !OpRuns(ss[k], o)
    ensures OpRuns(ss[k], o) ==> OpRuns(ss[i], o)
  {
    RunInv(ss, ls, i);
    RunInv(ss, ls, k);
    assert OpFlags(ss[i], o);
    OpAgesRun(ss, ls, i, k, o);
    assert OpFlags(ss[k], o);
  }

  /** The worker is calling the job's callback, or the step it is about to take reads it. */
  predicate WorkerUsesJob(s: State, j: JobId)
    requires j < |s.jobs|
  {
    || JobRuns(s, j)
    || (s.pc.Batch? && s.pc.rest != [] && s.pc.rest[0] == j && !s.jobs[j].life.Gone? && !s.jobs[j].done)
  }

  predicate WorkerUsesOp(s: State, o: OpId)
    requires o < |s.ops|
  {
    || OpRuns(s, o)
    || (s.pc.Walk? && MessageOk(s.pc.data, s.pc.at, |s.pc.data| - s.pc.at)
        && Current(s).hdr.pid == s.pid && Current(s).hdr.seqno in s.handlers
        && s.handlers[Current(s).hdr.seqno] == o && !s.ops[o].cancel)
  }

  /** A client that clears a callback outside the lock never does so while the worker reads or calls it. */
  lemma ClearNeverOverlaps(s: State, c: ClientStep)
    requires Inv(s) && ClientEnabled(s, c)
    ensures c.ClearJob? ==> !WorkerUsesJob(s, c.j) && !WorkerUsesJob(ClientApply(s, c), c.j)
    ensures c.ClearOp? ==> !WorkerUsesOp(s, c.o) && !WorkerUsesOp(ClientApply(s, c), c.o)
  {
    if c.ClearJob? {
      assert JobFlags(s, c.j);
    } else if c.ClearOp? {
      assert OpFlags(s, c.o);
    }
  }

  /** No notification is lost: a client sleeps on the condition variable only while the callback it
      waits for is running, so the return of that callback finds it. */
  lemma SleepersAreWoken(s: State, w: ControlStep)
    requires Inv(s) && ControlEnabled(s, w) && (w.JobReturns? || w.HandlerReturns?)
    ensures forall j :: 0 <= j < |s.jobs| && s.jobs[j].life.Sleeping? ==> w.JobReturns? && j == s.pc.job
    ensures forall o :: 0 <= o < |s.ops| && s.ops[o].life.Sleeping? ==> w.HandlerReturns? && o == s.pc.op
    ensures var t := ControlApply(s, w);
            && (forall j :: 0 <= j < |t.jobs| ==> !t.jobs[j].life.Sleeping?)
            && (forall o :: 0 <= o < |t.ops| ==> !t.ops[o].life.Sleeping?)
  {
    forall j | 0 <= j < |s.jobs| && s.jobs[j].life.Sleeping? ensures w.JobReturns? && j == s.pc.job {
      assert JobFlags(s, j);
    }
    forall o | 0 <= o < |s.ops| && s.ops[o].life.Sleeping? ensures w.HandlerReturns? && o == s.pc.op {
      assert OpFlags(s, o);
    }
  }

  // ----- single flight

  /** At most one job or operation is busy. */
  lemma SingleFlight(s: State)
    requires Inv(s)
    ensures forall j, k :: 0 <= j < |s.jobs| && 0 <= k < |s.jobs| && s.jobs[j].busy && s.jobs[k].busy ==> j == k
    ensures forall o, p :: 0 <= o < |s.ops| && 0 <= p < |s.ops| && s.ops[o].busy && s.ops[p].busy ==> o == p
    ensures forall j, o :: 0 <= j < |s.jobs| && 0 <= o < |s.ops| ==> !(s.jobs[j].busy && s.ops[o].busy)
  {
    forall j | 0 <= j < |s.jobs| && s.jobs[j].busy ensures JobRuns(s, j) {
      assert JobFlags(s, j);
    }
    forall o | 0 <= o < |s.ops| && s.ops[o].busy ensures OpRuns(s, o) {
      assert OpFlags(s, o);
    }
  }

  /** The combination the source calls invalid, `done && busy`, occurs exactly while a job's own callback
      runs after having dropped the job's last handle, and ends when that callback returns. */
  lemma DoneAndBusy(s: State, j: JobId)
    requires Inv(s) && j < |s.jobs|
    ensures s.jobs[j].done && s.jobs[j].busy <==> JobRuns(s, j) && Dropped(s.jobs[j].life)
    ensures s.jobs[j].done && s.jobs[j].busy ==> s.jobs[j].life.byWorker
    ensures ControlEnabled(s, JobReturns) ==>
              var t := ControlApply(s, JobReturns); j < |t.jobs| && !(t.jobs[j].done && t.jobs[j].busy)
  {
    assert JobFlags(s, j);
    if ControlEnabled(s, JobReturns) {
      JobFlagsControl(s, JobReturns, j);
    }
  }

  // ----- order

  lemma {:induction false} StartedByControl(s: State, w: ControlStep)
    requires ControlEnabled(s, w)
    ensures s.started <= ControlApply(s, w).started
  {
  }

  lemma {:induction false} NotStartedElsewhere(s: State, l: Label)
    requires Enabled(s, l) && !l.Control?
    ensures Apply(s, l).started == s.started
  {
  }

  lemma {:induction false} StartedStep(s: State, l: Label)
    requires Enabled(s, l)
    ensures s.started <= Apply(s, l).started
  {
    if l.Control? {
      StartedByControl(s, l.w);
    } else {
      NotStartedElsewhere(s, l);
    }
  }

  lemma {:induction false} StartedGrows(ss: seq<State>, ls: seq<Label>, i: nat, k: nat)
    requires IsRun(ss, ls) && i <= k < |ss|
    ensures ss[i].started <= ss[k].started
  {
    if i < k {
      StartedGrows(ss, ls, i, k - 1);
      StartedStep(ss[k - 1], ls[k - 1]);
    }
  }

  /** Callbacks start in submission order: a later start is of a later job.  So the starts of a run are a
      subsequence of the submissions, across batches, with no repeats. */
  lemma StartsAreOrdered(ss: seq<State>, ls: seq<Label>, i: nat, k: nat, a: JobId, b: JobId)
    requires IsRun(ss, ls) && i < k < |ls| && StartsJob(ss[i], ls[i], a) && StartsJob(ss[k], ls[k], b)
    ensures a < b
  {
    RunInv(ss, ls, k);
    assert ss[i + 1].started == ss[i].started + [a];
    StartedGrows(ss, ls, i + 1, k);
    assert a == ss[k].started[|ss[i].started|];
    assert b == Reached(ss[k]);
  }

  /** When a job's callback starts, every job submitted before it is out of the way for good: done or
      submitted without a callback, not running, and never started later on. */
  lemma EarlierJobsAreOver(ss: seq<State>, ls: seq<Label>, i: nat, k: nat, j: JobId, a: JobId)
    requires IsRun(ss, ls) && i <= k < |ls| && StartsJob(ss[i], ls[i], j) && a < j
    ensures a < |ss[i].jobs| && (ss[i].jobs[a].done || ss[i].jobs[a].empty) && !ss[i].jobs[a].busy
    ensures !StartsJob(ss[k], ls[k], a)
  {
    RunInv(ss, ls, i);
    assert j == Reached(ss[i]);
    assert JobFlags(ss[i], a);
    JobAgesRun(ss, ls, i, k, a);
    RunInv(ss, ls, k);
    assert JobFlags(ss[k], a);
  }

  // ----- dispatch of replies

  /** Under the invariant a message is handed to operation `o` exactly when it carries this socket's port
      id and `o` is the operation, not yet dropped and with a callback, that was given its number. */
  lemma DispatchIsExact(s: State, o: OpId)
    requires Inv(s) && s.pc.Walk? && MessageOk(s.pc.data, s.pc.at, |s.pc.data| - s.pc.at)
    ensures StartsHandler(s, Control(NextMessage), o) <==>
              && Current(s).hdr.pid == s.pid
              && o < |s.ops| && s.ops[o].seqno == Current(s).hdr.seqno
              && !Dropped(s.ops[o].life) && !s.ops[o].empty
  {
    if o < |s.ops| {
      assert OpFlags(s, o);
    }
    var q := Current(s).hdr.seqno;
    if q in s.handlers {
      assert OpFlags(s, s.handlers[q]);
    }
  }

  /** The worker's cursor runs over the messages of the datagram in order, skipping none: what is left to
      look at after a step is what was left before it, less its first message. */
  lemma CursorFollowsWalk(s: State)
    requires s.pc.Walk?
    ensures var left := Messages(s.pc.data, s.pc.at);
            var t := ControlApply(s, NextMessage);
            if left == [] then t.pc.Transmit?
            else
              && (t.pc.Walk? || t.pc.InHandler?) && t.pc.data == s.pc.data
              && left[0] == Current(s) && left[0].at + left[0].hdr.len <= |s.pc.data|
              && Messages(t.pc.data, t.pc.at) == left[1..]
  {
  }

  /** Dropping an operation removes its own entry of the handler map and no other. */
  lemma DropErasesOwnEntry(s: State, o: OpId, byWorker: bool)
    requires Inv(s) && o < |s.ops| && !s.ops[o].cancel
    ensures var t := FinishOp(s, o, byWorker);
            && t.handlers.Keys == s.handlers.Keys - {s.ops[o].seqno}
            && (forall p :: 0 <= p < |s.ops| && p != o && !s.ops[p].cancel ==>
                 s.ops[p].seqno in t.handlers && t.handlers[s.ops[p].seqno] == p)
  {
  }

  // ----- wake-ups

  /** Nothing but socket input or a later submit can end this poll. */
  predicate Blocked(s: State) {
    s.pc.Polling? && s.pc.infinite && !WakeComing(s)
  }

  /** Requests only from the worker, or while there is no worker. */
  predicate Disciplined(s: State, l: Label) {
    l.Client? && l.c.Request? ==> s.pc.Off?
  }

  ghost predicate DisciplinedRun(ss: seq<State>, ls: seq<Label>)
    requires |ls| < |ss|
  {
    forall i {:trigger ls[i]} :: 0 <= i < |ls| ==> Disciplined(ss[i], ls[i])
  }

  /** The worker knows of every queued request when it goes to sleep. */
  predicate ReadyArmed(s: State) {
    (s.pc.Arming? || s.pc.Polling?) && s.ready != [] ==> s.pc.armed
  }

  lemma {:induction false} ReadyArmedClient(s: State, c: ClientStep)
    requires ReadyArmed(s) && ClientEnabled(s, c) && Disciplined(s, Client(c))
    ensures ReadyArmed(ClientApply(s, c))
  {
  }

  lemma {:induction false} ReadyArmedKept(s: State, l: Label)
    requires ReadyArmed(s) && Enabled(s, l) && Disciplined(s, l)
    ensures ReadyArmed(Apply(s, l))
  {
    match l
    case Client(c) => ReadyArmedClient(s, c);
    case Control(w) => assert ReadyArmed(ControlApply(s, w));
    case Callback(a) => assert !CallbackApply(s, a).pc.Arming? && !CallbackApply(s, a).pc.Polling?;
  }

  lemma {:induction false} ReadyArmedRun(ss: seq<State>, ls: seq<Label>, k: nat)
    requires IsRun(ss, ls) && k < |ss| && ReadyArmed(ss[0])
    requires DisciplinedRun(ss, ls)
    ensures ReadyArmed(ss[k])
  {
    if k > 0 {
      ReadyArmedRun(ss, ls, k - 1);
      assert Disciplined(ss[k - 1], ls[k - 1]);
      ReadyArmedKept(ss[k - 1], ls[k - 1]);
    }
  }

  /** No lost wake-up: whenever the worker waits without a time limit while jobs are queued or it has been
      told to stop, something that ends the wait is there or on its way. */
  lemma NoLostWakeup(ss: seq<State>, ls: seq<Label>, k: nat)
    requires IsRun(ss, ls) && k < |ss| && ReadyArmed(ss[0])
    requires DisciplinedRun(ss, ls)
    ensures ss[k].todo != [] ==> !Blocked(ss[k])
    ensures ss[k].pc.Polling? && ss[k].pc.infinite && !ss[k].running ==> StopComing(ss[k])
  {
    RunInv(ss, ls, k);
    ReadyArmedRun(ss, ls, k);
  }

  /** Without that discipline a submit to a blocked worker wakes it if and only if no request is queued. */
  lemma SubmitWakesIff(s: State, empty: bool)
    requires Inv(s) && Blocked(s) && s.running
    ensures !Blocked(ClientApply(s, Submit(empty))) <==> s.ready == []
  {
  }

  // ----- runs that show what the code does not promise

  /** Extends a run by one step. */
  lemma Extend(ss: seq<State>, ls: seq<Label>, l: Label) returns (ss': seq<State>, ls': seq<Label>)
    requires IsRun(ss, ls) && Enabled(ss[|ls|], l)
    ensures ls' == ls + [l] && IsRun(ss', ls') && ss'[0] == ss[0] && ss'[|ls'|] == Apply(ss[|ls|], l)
  {
    ss', ls' := ss + [Apply(ss[|ls|], l)], ls + [l];
  }

  /** From the start to a worker waiting in poll() with nothing to do. */
  lemma RunToIdlePoll(pid: U32) returns (ss: seq<State>, ls: seq<Label>)
    ensures IsRun(ss, ls) && ss[0] == Initial(pid)
    ensures ss[|ls|] == Initial(pid).(running := true, pc := Polling(true, false))
  {
    InvInit(pid);
    ss, ls := [Initial(pid)], [];
    ss, ls := Extend(ss, ls, Client(Start));
    ss, ls := Extend(ss, ls, Control(FirstLock));
    ss, ls := Extend(ss, ls, Control(LoopTop));
    ss, ls := Extend(ss, ls, Control(EnterPoll));
  }

  /** A request from a client while the worker sleeps makes the next submit skip its wake-up: the run ends
      with a job queued and the worker blocked. */
  lemma LostWakeupAfterClientRequest(pid: U32) returns (ss: seq<State>, ls: seq<Label>)
    ensures IsRun(ss, ls) && ss[0] == Initial(pid)
    ensures Blocked(ss[|ls|]) && ss[|ls|].running && ss[|ls|].todo == [0]
  {
    ss, ls := RunToIdlePoll(pid);
    ss, ls := Extend(ss, ls, Client(Request(false)));
    ss, ls := Extend(ss, ls, Client(Submit(false)));
  }

  /** And on to a worker about to look at the first job. */
  lemma RunToFirstJob(pid: U32) returns (ss: seq<State>, ls: seq<Label>)
    ensures IsRun(ss, ls) && ss[0] == Initial(pid)
    ensures ss[|ls|].pc == Batch(Revents(true, false, false), [0])
    ensures ss[|ls|].jobs == [Job(false, true, false, false, Held)]
  {
    ss, ls := RunToIdlePoll(pid);
    ss, ls := Extend(ss, ls, Client(Submit(false)));
    ss, ls := Extend(ss, ls, Client(Poke));
    ss, ls := Extend(ss, ls, Control(PollReturns(false, false)));
    ss, ls := Extend(ss, ls, Control(Relock));
  }

  /** The combination `done && busy` does occur. */
  lemma DoneAndBusyOccurs(pid: U32) returns (ss: seq<State>, ls: seq<Label>)
    ensures IsRun(ss, ls) && ss[0] == Initial(pid)
    ensures var s := ss[|ls|]; s.jobs != [] && s.jobs[0].done && s.jobs[0].busy
  {
    ss, ls := RunToFirstJob(pid);
    ss, ls := Extend(ss, ls, Control(NextJob));
    ss, ls := Extend(ss, ls, Callback(DropJobInside(0)));
  }

  lemma {:induction false} FatalStays(s: State, l: Label)
    requires Names(s) && s.pc == Exited(true) && Enabled(s, l) && l != Client(Join)
    ensures Apply(s, l).pc == Exited(true) && Apply(s, l).started == s.started
  {
  }

  /** The callback has returned, or the job was cancelled, or it had no callback. */
  predicate Settled(s: State, j: JobId) {
    j < |s.jobs| && !s.jobs[j].busy && (s.jobs[j].done || s.jobs[j].empty)
  }

  /** After a fatal poll error nothing more is started until the reactor is stopped and started again: of
      the jobs accepted before or since, those are settled that had been started by then, those without a
      callback and those whose handle was dropped, and no others. */
  lemma {:induction false} FatalExitStrands(ss: seq<State>, ls: seq<Label>, k: nat, j: JobId)
    requires IsRun(ss, ls) && k < |ss| && ss[0].pc == Exited(true) && Client(Join) !in ls && j < |ss[k].jobs|
    ensures ss[k].pc == Exited(true) && ss[k].started == ss[0].started
    ensures Settled(ss[k], j) <==> j in ss[0].started || ss[k].jobs[j].empty || Dropped(ss[k].jobs[j].life)
  {
    FatalExitStays(ss, ls, k);
    RunInv(ss, ls, k);
    assert JobFlags(ss[k], j);
  }

  lemma {:induction false} FatalExitStays(ss: seq<State>, ls: seq<Label>, k: nat)
    requires IsRun(ss, ls) && k < |ss| && ss[0].pc == Exited(true) && Client(Join) !in ls
    ensures ss[k].pc == Exited(true) && ss[k].started == ss[0].started
  {
    if k > 0 {
      FatalExitStays(ss, ls, k - 1);
      RunInv(ss, ls, k - 1);
      FatalStays(ss[k - 1], ls[k - 1]);
    }
  }

  /** That does occur: a run ends with a job accepted after the worker is gone. */
  lemma FatalExitOccurs(pid: U32) returns (ss: seq<State>, ls: seq<Label>)
    ensures IsRun(ss, ls) && ss[0] == Initial(pid)
    ensures var s := ss[|ls|];
            && s.pc == Exited(true) && s.running && s.todo == [0]
            && |s.jobs| == 1 && s.jobs[0].life.Held? && !Settled(s, 0)
  {
    ss, ls := RunToIdlePoll(pid);
    ss, ls := Extend(ss, ls, Control(PollFails));
    ss, ls := Extend(ss, ls, Client(Submit(false)));
  }
}
