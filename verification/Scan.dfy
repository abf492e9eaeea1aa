/** A scan record on top of the reactor: each processing submits a new job and then lets go of the job
    before, which cancels that one if it has not started and waits for it if it is running. */
module Scan {
  import opened Options
  import opened ReactorState
  import opened ReactorInvariant
  import opened ReactorSafety
  import opened Reactor

  /** `cur`: the handle the record holds.  `prev`: the handle a processing under way is letting go.
      `ids`: every job the record ever submitted. */
  datatype System = System(s: State, cur: Option<JobId>, prev: Option<JobId>, ids: seq<JobId>)

  datatype Step =
    | Process               // submit, and store the handle over the old one
    | Release               // the old handle's deleter is entered
    | Return                // and has returned, and so does the processing
    | Elsewhere(l: Label)   // any other step of the reactor, that deleter's among them

  /** Nobody else has the record's handles. */
  predicate LeavesAlone(l: Label, ids: seq<JobId>) {
    && !(l.Client? && l.c.DropJob? && l.c.j in ids)
    && !(l.Callback? && l.a.DropJobInside? && l.a.j in ids)
  }

  predicate StepEnabled(r: System, e: Step) {
    match e
    case Process => r.prev.None? && ClientEnabled(r.s, Submit(false))
    case Release => r.prev.Some? && ClientEnabled(r.s, DropJob(r.prev.value))
    case Return => r.prev.Some? && r.prev.value < |r.s.jobs| && r.s.jobs[r.prev.value].life == Gone(false)
    case Elsewhere(l) => Enabled(r.s, l) && LeavesAlone(l, r.ids)
  }

  function StepApply(r: System, e: Step): System
    requires StepEnabled(r, e)
  {
    match e
    case Process => System(ClientApply(r.s, Submit(false)), Some(|r.s.jobs|), r.cur, r.ids + [|r.s.jobs|])
    case Release => r.(s := ClientApply(r.s, DropJob(r.prev.value)))
    case Return => r.(prev := None)
    case Elsewhere(l) => r.(s := Apply(r.s, l))
  }

  /** Lives a handle dropped by a client goes through. */
  predicate ByClient(life: Life) {
    life.Held? || life.Dropping? || life.Sleeping? || life == Clearing(false) || life == Gone(false)
  }

  ghost predicate OwnJob(r: System, j: JobId) {
    && j < |r.s.jobs| && !r.s.jobs[j].empty
    && ByClient(r.s.jobs[j].life)
    && (r.cur == Some(j) ==> r.s.jobs[j].life.Held?)
    && (r.cur != Some(j) && r.prev != Some(j) ==> r.s.jobs[j].life == Gone(false))
  }

  ghost predicate Good(r: System) {
    && Inv(r.s)
    && (forall i :: 0 <= i < |r.ids| ==> OwnJob(r, r.ids[i]))
    && Increasing(r.ids)
    && (r.cur.Some? <==> r.ids != []) && (r.cur.Some? ==> r.cur.value == r.ids[|r.ids| - 1])
    && (r.prev.Some? ==> r.prev.value in r.ids && r.prev != r.cur)
  }

  predicate SameRole(a: Life, b: Life) {
    ByClient(b) && (a.Held? ==> b.Held?) && (a == Gone(false) ==> b == Gone(false))
  }

  lemma {:induction false} ClientKeepsRole(s: State, c: ClientStep, j: JobId)
    requires ClientEnabled(s, c) && j < |s.jobs| && ByClient(s.jobs[j].life) && !(c.DropJob? && c.j == j)
    ensures var t := ClientApply(s, c);
            j < |t.jobs| && t.jobs[j].empty == s.jobs[j].empty && SameRole(s.jobs[j].life, t.jobs[j].life)
  {
  }

  lemma {:induction false} ControlKeepsRole(s: State, w: ControlStep, j: JobId)
    requires ControlEnabled(s, w) && j < |s.jobs| && ByClient(s.jobs[j].life)
    ensures var t := ControlApply(s, w);
            j < |t.jobs| && t.jobs[j].empty == s.jobs[j].empty && SameRole(s.jobs[j].life, t.jobs[j].life)
  {
  }

  lemma {:induction false} CallbackKeepsRole(s: State, a: CallbackStep, j: JobId)
    requires CallbackEnabled(s, a) && j < |s.jobs| && JobFlags(s, j) && ByClient(s.jobs[j].life)
    requires !(a.DropJobInside? && a.j == j)
    ensures var t := CallbackApply(s, a);
            j < |t.jobs| && t.jobs[j].empty == s.jobs[j].empty && SameRole(s.jobs[j].life, t.jobs[j].life)
  {
  }

  lemma {:induction false} OwnJobElsewhere(r: System, l: Label, j: JobId)
    requires Good(r) && StepEnabled(r, Elsewhere(l)) && j in r.ids
    ensures OwnJob(StepApply(r, Elsewhere(l)), j)
  {
    assert OwnJob(r, j);
    assert JobFlags(r.s, j);
    match l
    case Client(c) => ClientKeepsRole(r.s, c, j);
    case Control(w) => ControlKeepsRole(r.s, w, j);
    case Callback(a) => CallbackKeepsRole(r.s, a, j);
  }

  lemma {:induction false} GoodElsewhere(r: System, l: Label)
    requires Good(r) && StepEnabled(r, Elsewhere(l))
    ensures Good(StepApply(r, Elsewhere(l)))
  {
    InvKept(r.s, l);
    forall i | 0 <= i < |r.ids| ensures OwnJob(StepApply(r, Elsewhere(l)), r.ids[i]) {
      OwnJobElsewhere(r, l, r.ids[i]);
    }
  }

  lemma {:induction false} GoodProcess(r: System)
    requires Good(r) && StepEnabled(r, Process)
    ensures Good(StepApply(r, Process))
  {
    InvKept(r.s, Client(Submit(false)));
    var t := StepApply(r, Process);
    forall i | 0 <= i < |t.ids| ensures OwnJob(t, t.ids[i]) {
      if i < |r.ids| {
        assert OwnJob(r, r.ids[i]);
      }
    }
    assert forall i :: 0 <= i < |r.ids| ==> OwnJob(r, r.ids[i]) && t.ids[i] == r.ids[i] < |r.s.jobs|;
  }

  lemma {:induction false} GoodRelease(r: System)
    requires Good(r) && StepEnabled(r, Release)
    ensures Good(StepApply(r, Release))
  {
    InvKept(r.s, Client(DropJob(r.prev.value)));
    var t := StepApply(r, Release);
    forall i | 0 <= i < |t.ids| ensures OwnJob(t, t.ids[i]) {
      assert OwnJob(r, r.ids[i]);
    }
  }

  lemma {:induction false} GoodReturn(r: System)
    requires Good(r) && StepEnabled(r, Return)
    ensures Good(StepApply(r, Return))
  {
    var t := StepApply(r, Return);
    forall i | 0 <= i < |t.ids| ensures OwnJob(t, t.ids[i]) {
      assert OwnJob(r, r.ids[i]);
    }
  }

  lemma {:induction false} GoodKept(r: System, e: Step)
    requires Good(r) && StepEnabled(r, e)
    ensures Good(StepApply(r, e))
  {
    match e
    case Process => GoodProcess(r);
    case Release => GoodRelease(r);
    case Return => GoodReturn(r);
    case Elsewhere(l) => GoodElsewhere(r, l);
  }

  ghost predicate IsRun(rs: seq<System>, es: seq<Step>) {
    && |rs| == |es| + 1 && Good(rs[0])
    && forall i {:trigger es[i]} :: 0 <= i < |es| ==> StepEnabled(rs[i], es[i]) && rs[i + 1] == StepApply(rs[i], es[i])
  }

  lemma {:induction false} RunGood(rs: seq<System>, es: seq<Step>, n: nat)
    requires IsRun(rs, es) && n < |rs|
    ensures Good(rs[n])
  {
    if n > 0 {
      RunGood(rs, es, n - 1);
      GoodKept(rs[n - 1], es[n - 1]);
    }
  }

  predicate Unresolved(r: System, j: JobId) { j < |r.s.jobs| && (!r.s.jobs[j].done || r.s.jobs[j].busy) }

  /** Whenever no processing is under way, at most one of all the jobs the record ever submitted is still
      unresolved, the newest; all others are done, not running, and cleared. */
  lemma AtMostOneUnresolved(rs: seq<System>, es: seq<Step>, n: nat)
    requires IsRun(rs, es) && n < |rs| && rs[n].prev.None?
    ensures forall j :: j in rs[n].ids && rs[n].cur != Some(j) ==>
              j < |rs[n].s.jobs| && rs[n].s.jobs[j].done && !rs[n].s.jobs[j].busy && !rs[n].s.jobs[j].cb
    ensures forall j, k :: j in rs[n].ids && k in rs[n].ids && Unresolved(rs[n], j) && Unresolved(rs[n], k) ==> j == k
  {
    RunGood(rs, es, n);
    forall j | j in rs[n].ids && rs[n].cur != Some(j)
      ensures j < |rs[n].s.jobs| && rs[n].s.jobs[j].done && !rs[n].s.jobs[j].busy && !rs[n].s.jobs[j].cb
    {
      assert OwnJob(rs[n], j);
      assert JobFlags(rs[n].s, j);
    }
  }

  // ----- coalescing

  predicate WorkerMoves(e: Step) { e.Elsewhere? && e.l.Control? }

  /** Without a step of the worker nothing starts. */
  lemma {:induction false} NothingStarts(rs: seq<System>, es: seq<Step>, m: nat)
    requires IsRun(rs, es) && m < |rs| && forall i :: 0 <= i < m ==> !WorkerMoves(es[i])
    ensures rs[m].s.started == rs[0].s.started && |rs[m].s.jobs| >= |rs[0].s.jobs|
    ensures rs[0].ids <= rs[m].ids && forall i :: |rs[0].ids| <= i < |rs[m].ids| ==> rs[m].ids[i] >= |rs[0].s.jobs|
  {
    if m > 0 {
      NothingStarts(rs, es, m - 1);
      var e := es[m - 1];
      assert !WorkerMoves(e);
      if e.Elsewhere? {
        NotStartedElsewhere(rs[m - 1].s, e.l);
      }
    }
  }

  lemma {:induction false} DroppedDoesNotStart(s: State, l: Label, j: JobId)
    requires Inv(s) && Enabled(s, l) && j < |s.jobs| && s.jobs[j].life == Gone(false) && j !in s.started
    ensures j !in Apply(s, l).started
  {
    assert JobFlags(s, j);
  }

  /** From a moment between processings on, as long as there is no further one, the record keeps its handle
      and no job it has let go of starts. */
  lemma {:induction false} OnlyNewestStarts(rs: seq<System>, es: seq<Step>, m: nat, n: nat, j: JobId)
    requires IsRun(rs, es) && m <= n < |rs| && rs[m].prev.None?
    requires forall i :: m <= i < n ==> !es[i].Process?
    requires j in rs[m].ids && rs[m].cur != Some(j) && j !in rs[m].s.started
    ensures rs[n].prev.None? && rs[n].cur == rs[m].cur && rs[n].ids == rs[m].ids && j !in rs[n].s.started
    decreases n
  {
    if m < n {
      OnlyNewestStarts(rs, es, m, n - 1, j);
      RunGood(rs, es, n - 1);
      assert OwnJob(rs[n - 1], j);
      var e := es[n - 1];
      assert !e.Process?;
      if e.Elsewhere? {
        DroppedDoesNotStart(rs[n - 1].s, e.l, j);
      }
    }
  }

  lemma {:induction false} HandleIsKept(rs: seq<System>, es: seq<Step>, m: nat, n: nat)
    requires IsRun(rs, es) && m <= n < |rs| && rs[m].prev.None?
    requires forall i :: m <= i < n ==> !es[i].Process?
    ensures rs[n].prev.None? && rs[n].cur == rs[m].cur && rs[n].ids == rs[m].ids
    decreases n
  {
    if m < n {
      HandleIsKept(rs, es, m, n - 1);
      assert !es[n - 1].Process?;
    }
  }

  /** Any number of processings while the worker makes no progress lead to exactly one table update: by the
      time the newest job is done, it has been started, and of all others submitted up to step `m`, those
      before the first of these processings included, none that had not been started by then. */
  lemma ProcessingsCoalesce(rs: seq<System>, es: seq<Step>, m: nat, n: nat)
    requires IsRun(rs, es) && m <= n < |rs| && rs[m].prev.None? && |rs[m].ids| > |rs[0].ids|
    requires forall i :: 0 <= i < m ==> !WorkerMoves(es[i])
    requires forall i :: m <= i < n ==> !es[i].Process?
    requires rs[n].cur.Some? && !Unresolved(rs[n], rs[n].cur.value)
    ensures forall i :: |rs[0].ids| <= i < |rs[m].ids| ==>
              (rs[m].ids[i] in rs[n].s.started <==> i == |rs[m].ids| - 1)
    ensures forall i :: 0 <= i < |rs[m].ids| - 1 && rs[m].ids[i] !in rs[0].s.started ==>
              rs[m].ids[i] !in rs[n].s.started
    ensures Increasing(rs[n].s.started)
  {
    NothingStarts(rs, es, m);
    HandleIsKept(rs, es, m, n);
    RunGood(rs, es, 0);
    RunGood(rs, es, m);
    RunGood(rs, es, n);
    forall i | 0 <= i < |rs[m].ids| - 1 && rs[m].ids[i] !in rs[0].s.started
      ensures rs[m].ids[i] !in rs[n].s.started
    {
      OnlyNewestStarts(rs, es, m, n, rs[m].ids[i]);
    }
    forall i | |rs[0].ids| <= i < |rs[m].ids|
      ensures rs[m].ids[i] in rs[n].s.started <==> i == |rs[m].ids| - 1
    {
      var j := rs[m].ids[i];
      assert OwnJob(rs[n], j) && JobFlags(rs[n].s, j);
      if i < |rs[m].ids| - 1 {
        assert j !in rs[0].s.started;
        OnlyNewestStarts(rs, es, m, n, j);
      }
    }
  }

  // ----- the record

  /** The old handle's deleter once it has the lock: it sleeps while the callback runs; otherwise the job is
      cancelled, the callback cleared, and the processing is over. */
  function LetGo(r: System): System
    requires r.prev.Some? && ClientEnabled(r.s, LockJob(r.prev.value))
  {
    var j := r.prev.value;
    var t := StepApply(r, Elsewhere(Client(LockJob(j))));
    if r.s.jobs[j].busy then t else StepApply(StepApply(t, Elsewhere(Client(ClearJob(j)))), Return)
  }

  /** While the callback runs nothing but the wait is begun; otherwise the job is done, its callback gone and its
      handle with it, the record is between processings, and nothing else has changed. */
  lemma {:induction false} LetGoEndsIt(r: System)
    requires Good(r) && r.prev.Some? && ClientEnabled(r.s, LockJob(r.prev.value))
    ensures var j := r.prev.value;
            var job := r.s.jobs[j];
            LetGo(r) == if job.busy then r.(s := r.s.(jobs := r.s.jobs[j := job.(life := Sleeping)]))
                        else System(r.s.(jobs := r.s.jobs[j := Job(false, false, true, false, Gone(false))]),
                                    r.cur, None, r.ids)
  {
    var i :| 0 <= i < |r.ids| && r.ids[i] == r.prev.value;
    assert OwnJob(r, r.ids[i]) && JobFlags(r.s, r.ids[i]);
  }

  class Record {
    const react: Pvt
    var scanHandle: Option<JobId>
    ghost var prev: Option<JobId>
    ghost var ids: seq<JobId>

    ghost function Now(): System
      reads this, react
    {
      System(react.Now(), scanHandle, prev, ids)
    }

    constructor (react: Pvt)
      ensures this.react == react && scanHandle == None && prev == None && ids == []
    {
      this.react := react;
      scanHandle, prev, ids := None, None, [];
    }

    /** One processing, up to the release of the handle it replaces; `replaced` is that handle.  A stopped
        reactor throws, and the record keeps the handle it has. */
    method Scan() returns (ok: bool, replaced: Option<JobId>)
      requires prev == None && !Locked(react.Now().pc)
      modifies this, react
      ensures ok == old(react.Now().running)
      ensures Now() == if ok then StepApply(old(Now()), Process) else old(Now())
      ensures replaced == if ok then old(scanHandle) else None
    {
      var handle, wake := react.Submit(false, false);
      if handle.None? {
        return false, None;
      }
      ok, replaced := true, scanHandle;
      ids := ids + [handle.value];
      prev := scanHandle;
      scanHandle := handle;
    }

    /** The rest of the processing; to be called again after a notification when it `waits`. */
    method ReleaseReplaced(replaced: JobId) returns (waits: bool)
      requires prev == Some(replaced) && ClientEnabled(react.Now(), LockJob(replaced))
      modifies this, react
      ensures waits == old(react.Now().jobs[replaced].busy)
      ensures Now() == LetGo(old(Now()))
    {
      waits := react.DropJob(replaced, false);
      if !waits {
        react.ClearJob(replaced, false);
        prev := None;
      }
    }
  }
}
