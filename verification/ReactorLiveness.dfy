/** What the reactor eventually does: every accepted job is settled, and after stop() the worker exits
    with nothing left to do. */
module ReactorLiveness {
  import opened ReactorState
  import opened ReactorInvariant
  import opened ReactorSafety

  // ----- infinite behaviours

  ghost predicate Moves(s: State, l: Label, t: State) {
    Enabled(s, l) && t == Apply(s, l)
  }

  /** At every moment somebody takes a step or nobody does. */
  ghost predicate Behaviour(st: nat -> State, lb: nat -> Label) {
    && Inv(st(0))
    && forall n: nat {:trigger lb(n)} :: st(n + 1) == st(n) || Moves(st(n), lb(n), st(n + 1))
  }

  ghost predicate ControlAt(st: nat -> State, lb: nat -> Label, n: nat) {
    lb(n).Control? && Moves(st(n), lb(n), st(n + 1))
  }

  predicate Absent(pc: Pc) { pc.Off? || pc.Exited? }

  /** In a poll that only an event can end, and none is there. */
  predicate Asleep(s: State) {
    s.pc.Polling? && s.pc.infinite && !s.pc.armed && s.pipe == 0
  }

  /** Somebody writes a byte to the wake-up pipe. */
  ghost predicate PokeAt(st: nat -> State, lb: nat -> Label, n: nat) {
    (lb(n) == Client(Poke) || lb(n) == Client(StopPoke)) && Moves(st(n), lb(n), st(n + 1))
  }

  /** The scheduler and the kernel keep going and user callbacks return: a worker that exists and is not
      asleep takes its next step at some point (an armed socket becomes writable), and where a thread is
      about to write to the pipe a byte is written at some point. */
  ghost predicate Fair(st: nat -> State, lb: nat -> Label) {
    && (forall n: nat {:trigger Asleep(st(n))} :: !Absent(st(n).pc) && !Asleep(st(n)) ==>
          exists k: nat :: n <= k && ControlAt(st, lb, k))
    && (forall n: nat {:trigger Asleep(st(n))} :: st(n).stopper.MustPoke? || st(n).pokes > 0 ==>
          exists k: nat :: n <= k && PokeAt(st, lb, k))
  }

  lemma {:induction false} BehaviourInv(st: nat -> State, lb: nat -> Label, n: nat)
    requires Behaviour(st, lb)
    ensures Inv(st(n))
  {
    if n > 0 {
      BehaviourInv(st, lb, n - 1);
      if st(n) != st(n - 1) {
        assert Moves(st(n - 1), lb(n - 1), st(n));
        InvKept(st(n - 1), lb(n - 1));
      }
    }
  }

  // ----- the measure

  /** Position on the way round the loop, counting down from one batch to the next. */
  function Rank(pc: Pc): nat {
    match pc
    case Batch(_, _) => 11
    case InJob(_, _, _, _) => 11
    case Drain(_) => 10
    case Receive(_) => 9
    case Walk(_, _, _) => 8
    case InHandler(_, _, _, _, _) => 8
    case Transmit(_) => 7
    case Spawned => 6
    case Top => 5
    case Arming(_) => 4
    case Polling(_, _) => 3
    case Woken(_) => 2
    case Exited(_) => 1
    case Off => 0
  }

  function Before(at: nat, end: nat): nat { if at < end then end - at else 0 }

  /** Jobs or bytes left to look at where the worker is. */
  function Items(pc: Pc): nat {
    match pc
    case Batch(_, rest) => 2 * |rest|
    case InJob(_, rest, _, _) => 2 * |rest| + 1
    case Walk(_, data, at) => 2 * Before(at, |data|)
    case InHandler(_, data, at, _, _) => 2 * Before(at, |data|) + 1
    case _ => 0
  }

  /** Batches still to be taken: one on the way to the next batch, or when there is `more` for it. */
  function Laps(pc: Pc, more: bool): nat {
    if more || pc.Arming? || pc.Polling? || pc.Woken? then 1 else 0
  }

  ghost predicate Less(a: (nat, nat, nat), b: (nat, nat, nat)) {
    a.0 < b.0 || (a.0 == b.0 && (a.1 < b.1 || (a.1 == b.1 && a.2 < b.2)))
  }

  function Measure(pc: Pc, more: bool): (nat, nat, nat) {
    (Laps(pc, more), Rank(pc), Items(pc))
  }

  lemma {:induction false} JobsDecrease(s: State, w: ControlStep, more: bool)
    requires ControlEnabled(s, w) && (w.NextJob? || w.JobReturns?)
    ensures Less(Measure(ControlApply(s, w).pc, more), Measure(s.pc, more))
  {
  }

  lemma {:induction false} MessagesDecrease(s: State, w: ControlStep, more: bool)
    requires ControlEnabled(s, w) && (w.NextMessage? || w.HandlerReturns?)
    ensures Less(Measure(ControlApply(s, w).pc, more), Measure(s.pc, more))
  {
  }

  /** Every step of the worker that does not end it brings it closer, provided it goes round again only
      because there is more to do. */
  lemma {:induction false} ControlDecreases(s: State, w: ControlStep, more: bool, more': bool)
    requires ControlEnabled(s, w) && !ControlApply(s, w).pc.Exited?
    requires if w.Relock? then !more' else more' == more
    requires w.LoopTop? ==> more
    ensures Less(Measure(ControlApply(s, w).pc, more'), Measure(s.pc, more))
  {
    if w.NextJob? || w.JobReturns? {
      JobsDecrease(s, w, more);
    } else if w.NextMessage? || w.HandlerReturns? {
      MessagesDecrease(s, w, more);
    }
  }

  /** The program counter without what the worker does inside a callback. */
  function Place(pc: Pc): (p: Pc)
    ensures Rank(p) == Rank(pc) && Items(p) == Items(pc) && Taken(p) == Taken(pc)
    ensures forall more :: Laps(p, more) == Laps(pc, more)
  {
    if InCallback(pc) then pc.(act := Free) else pc
  }

  /** What everybody else leaves alone while the worker is between two of its steps. */
  ghost predicate Undisturbed(s: State, t: State) {
    && Place(t.pc) == Place(s.pc)
    && t.pipe >= s.pipe
    && |t.jobs| >= |s.jobs|
    && |t.jobs| - |t.todo| == |s.jobs| - |s.todo|
    && (!s.running ==> !t.running && t.todo == s.todo)
  }

  lemma {:induction false} ClientDoesNotDisturb(s: State, c: ClientStep)
    requires ClientEnabled(s, c) && !Absent(s.pc)
    ensures Undisturbed(s, ClientApply(s, c))
  {
  }

  lemma {:induction false} CallbackDoesNotDisturb(s: State, a: CallbackStep)
    requires CallbackEnabled(s, a)
    ensures Undisturbed(s, CallbackApply(s, a))
  {
  }

  lemma {:induction false} OthersDoNotDisturb(s: State, l: Label, t: State)
    requires !Absent(s.pc) && Moves(s, l, t) && !l.Control?
    ensures Undisturbed(s, t)
  {
    match l
    case Client(c) => ClientDoesNotDisturb(s, c);
    case Callback(a) => CallbackDoesNotDisturb(s, a);
  }

  lemma {:induction false} UndisturbedTwice(s: State, t: State, u: State)
    requires Undisturbed(s, t) && Undisturbed(t, u)
    ensures Undisturbed(s, u)
  {
  }

  lemma {:induction false} StaysPresent(s: State, t: State)
    requires Undisturbed(s, t) && !Absent(s.pc)
    ensures !Absent(t.pc)
  {
  }

  /** One moment without a step of the worker. */
  lemma {:induction false} QuietMoment(st: nat -> State, lb: nat -> Label, n: nat)
    requires Behaviour(st, lb) && !Absent(st(n).pc) && !ControlAt(st, lb, n)
    ensures Undisturbed(st(n), st(n + 1))
  {
    if st(n + 1) != st(n) {
      assert Moves(st(n), lb(n), st(n + 1));
      OthersDoNotDisturb(st(n), lb(n), st(n + 1));
    }
  }

  lemma {:induction false} Quiet(st: nat -> State, lb: nat -> Label, n: nat, m: nat)
    requires Behaviour(st, lb) && n <= m && !Absent(st(n).pc)
    requires forall k: nat :: n <= k < m ==> !ControlAt(st, lb, k)
    ensures Undisturbed(st(n), st(m))
    decreases m
  {
    if n < m {
      Quiet(st, lb, n, m - 1);
      StaysPresent(st(n), st(m - 1));
      QuietMoment(st, lb, m - 1);
      UndisturbedTwice(st(n), st(m - 1), st(m));
    }
  }

  /** The first step of the worker from moment `n` on and before `end`, or `end`. */
  lemma {:induction false} FirstControl(st: nat -> State, lb: nat -> Label, n: nat, end: nat) returns (m: nat)
    requires n <= end
    ensures n <= m <= end && (m < end ==> ControlAt(st, lb, m))
    ensures forall i: nat :: n <= i < m ==> !ControlAt(st, lb, i)
  {
    m := n;
    while m < end && !ControlAt(st, lb, m)
      invariant n <= m <= end
      invariant forall i: nat :: n <= i < m ==> !ControlAt(st, lb, i)
    {
      m := m + 1;
    }
  }

  lemma {:induction false} PokeFillsPipe(st: nat -> State, lb: nat -> Label, n: nat)
    requires PokeAt(st, lb, n)
    ensures st(n + 1).pipe > 0
  {
  }

  lemma {:induction false} AwakeControl(st: nat -> State, lb: nat -> Label, n: nat) returns (k: nat)
    requires Fair(st, lb) && !Absent(st(n).pc) && !Asleep(st(n))
    ensures n <= k && ControlAt(st, lb, k)
  {
    k :| n <= k && ControlAt(st, lb, k);
  }

  lemma {:induction false} SomePoke(st: nat -> State, lb: nat -> Label, n: nat) returns (k: nat)
    requires Fair(st, lb) && Asleep(st(n)) && (st(n).pokes > 0 || st(n).stopper.MustPoke?)
    ensures n <= k && PokeAt(st, lb, k)
  {
    k :| n <= k && PokeAt(st, lb, k);
  }

  lemma {:induction false} AwakeAfterPoke(st: nat -> State, lb: nat -> Label, n: nat, i: nat)
    requires Behaviour(st, lb) && n <= i && !Absent(st(n).pc) && PokeAt(st, lb, i)
    requires forall e: nat :: n <= e < i + 1 ==> !ControlAt(st, lb, e)
    ensures !Absent(st(i + 1).pc) && !Asleep(st(i + 1))
  {
    Quiet(st, lb, n, i + 1);
    StaysPresent(st(n), st(i + 1));
    PokeFillsPipe(st, lb, i);
  }

  /** Up to a write to the pipe the worker takes a step, or it is awake afterwards. */
  lemma {:induction false} UpToPoke(st: nat -> State, lb: nat -> Label, n: nat, i: nat) returns (k: nat, moved: bool)
    requires Behaviour(st, lb) && n <= i && !Absent(st(n).pc) && PokeAt(st, lb, i)
    ensures n <= k
    ensures if moved then ControlAt(st, lb, k) else !Absent(st(k).pc) && !Asleep(st(k))
  {
    k := FirstControl(st, lb, n, i + 1);
    moved := k < i + 1;
    if !moved {
      AwakeAfterPoke(st, lb, n, i);
    }
  }

  lemma {:induction false} SomeControl(st: nat -> State, lb: nat -> Label, n: nat) returns (k: nat)
    requires Behaviour(st, lb) && Fair(st, lb) && !Absent(st(n).pc)
    requires Asleep(st(n)) ==> st(n).pokes > 0 || st(n).stopper.MustPoke?
    ensures n <= k && ControlAt(st, lb, k)
  {
    k := n;
    var moved := false;
    if Asleep(st(n)) {
      var i := SomePoke(st, lb, n);
      k, moved := UpToPoke(st, lb, n, i);
    }
    if !moved {
      var from := k;
      k := AwakeControl(st, lb, from);
    }
  }

  lemma {:induction false} FirstUndisturbed(st: nat -> State, lb: nat -> Label, n: nat, k: nat) returns (m: nat)
    requires Behaviour(st, lb) && !Absent(st(n).pc) && n <= k && ControlAt(st, lb, k)
    ensures n <= m && ControlAt(st, lb, m) && Undisturbed(st(n), st(m))
  {
    m := FirstControl(st, lb, n, k);
    Quiet(st, lb, n, m);
  }

  /** A worker that is not asleep for good takes its next step, and finds things as they were. */
  lemma {:induction false} NextControl(st: nat -> State, lb: nat -> Label, n: nat) returns (m: nat)
    requires Behaviour(st, lb) && Fair(st, lb) && !Absent(st(n).pc)
    requires Asleep(st(n)) ==> st(n).pokes > 0 || st(n).stopper.MustPoke?
    ensures n <= m && ControlAt(st, lb, m) && Undisturbed(st(n), st(m))
  {
    var k := SomeControl(st, lb, n);
    m := FirstUndisturbed(st, lb, n, k);
  }

  /** Outside poll() it always does. */
  lemma {:induction false} NextOutsidePoll(st: nat -> State, lb: nat -> Label, n: nat) returns (m: nat)
    requires Behaviour(st, lb) && Fair(st, lb) && !Absent(st(n).pc) && !st(n).pc.Polling?
    ensures n <= m && ControlAt(st, lb, m) && Undisturbed(st(n), st(m))
  {
    m := NextControl(st, lb, n);
  }

  // ----- every accepted job is settled

  /** The job waits for the next batch. */
  predicate Waits(s: State, j: JobId) { j >= |s.jobs| - |s.todo| }

  ghost predicate DisciplinedBehaviour(st: nat -> State, lb: nat -> Label) {
    ReadyArmed(st(0)) && forall n: nat {:trigger lb(n)} :: Enabled(st(n), lb(n)) ==> Disciplined(st(n), lb(n))
  }

  lemma {:induction false} ReadyArmedAlways(st: nat -> State, lb: nat -> Label, n: nat)
    requires Behaviour(st, lb) && DisciplinedBehaviour(st, lb)
    ensures ReadyArmed(st(n))
  {
    if n > 0 {
      ReadyArmedAlways(st, lb, n - 1);
      if st(n) != st(n - 1) {
        assert Moves(st(n - 1), lb(n - 1), st(n));
        ReadyArmedKept(st(n - 1), lb(n - 1));
      }
    }
  }

  function Distance(s: State, j: JobId): (nat, nat, nat) { Measure(s.pc, Waits(s, j)) }

  /** One step of the worker, as long as job `j` has not been reached. */
  lemma {:induction false} StepTowards(s: State, w: ControlStep, j: JobId)
    requires Inv(s) && ControlEnabled(s, w) && Reached(s) <= j < |s.jobs|
    ensures var t := ControlApply(s, w);
            && j < |t.jobs|
            && (|| t.pc == Exited(true) || Reached(t) > j
                || (!Absent(t.pc) && Less(Distance(t, j), Distance(s, j))))
  {
    var t := ControlApply(s, w);
    assert |t.jobs| == |s.jobs| && t.todo == if w.Relock? then [] else s.todo;
    if !t.pc.Exited? {
      ControlDecreases(s, w, Waits(s, j), Waits(t, j));
    }
  }

  /** A job not yet reached does not leave the worker asleep for good. */
  lemma {:induction false} WaitingJobIsNoticed(s: State, j: JobId)
    requires Inv(s) && ReadyArmed(s) && Reached(s) <= j < |s.jobs| && Asleep(s)
    ensures s.pokes > 0 || s.stopper.MustPoke?
  {
  }

  lemma {:induction false} SameDistance(s: State, t: State, j: JobId)
    requires Undisturbed(s, t)
    ensures Distance(t, j) == Distance(s, j) && Reached(t) == Reached(s)
  {
    assert Laps(Place(t.pc), Waits(t, j)) == Laps(Place(s.pc), Waits(s, j));
    assert Taken(Place(t.pc)) == Taken(Place(s.pc));
  }

  lemma {:induction false} StillMoves(st: nat -> State, lb: nat -> Label, n: nat, j: JobId) returns (k: nat)
    requires Behaviour(st, lb) && Fair(st, lb) && DisciplinedBehaviour(st, lb)
    requires !Absent(st(n).pc) && Reached(st(n)) <= j < |st(n).jobs|
    ensures n <= k && ControlAt(st, lb, k) && Undisturbed(st(n), st(k))
  {
    if Asleep(st(n)) {
      BehaviourInv(st, lb, n);
      ReadyArmedAlways(st, lb, n);
      WaitingJobIsNoticed(st(n), j);
    }
    k := NextControl(st, lb, n);
  }

  lemma {:induction false} ComesCloser(st: nat -> State, lb: nat -> Label, n: nat, j: JobId) returns (m: nat)
    requires Behaviour(st, lb) && Fair(st, lb) && DisciplinedBehaviour(st, lb)
    requires !Absent(st(n).pc) && Reached(st(n)) <= j < |st(n).jobs|
    ensures n <= m && j < |st(m).jobs|
    ensures || st(m).pc == Exited(true) || Reached(st(m)) > j
            || (!Absent(st(m).pc) && Less(Distance(st(m), j), Distance(st(n), j)))
  {
    var k := StillMoves(st, lb, n, j);
    BehaviourInv(st, lb, k);
    SameDistance(st(n), st(k), j);
    StepTowards(st(k), lb(k).w, j);
    m := k + 1;
  }

  lemma {:induction false} EventuallyReached(st: nat -> State, lb: nat -> Label, n: nat, j: JobId) returns (m: nat)
    requires Behaviour(st, lb) && Fair(st, lb) && DisciplinedBehaviour(st, lb)
    requires !Absent(st(n).pc) && j < |st(n).jobs|
    ensures n <= m && j < |st(m).jobs| && (st(m).pc == Exited(true) || Reached(st(m)) > j)
    decreases Distance(st(n), j).0, Distance(st(n), j).1, Distance(st(n), j).2
  {
    m := n;
    if Reached(st(n)) <= j {
      m := ComesCloser(st, lb, n, j);
      if st(m).pc != Exited(true) && Reached(st(m)) <= j {
        m := EventuallyReached(st, lb, m, j);
      }
    }
  }

  lemma {:induction false} CallbackReturns(s: State, w: ControlStep, j: JobId)
    requires Inv(s) && ControlEnabled(s, w) && JobRuns(s, j) && j < |s.jobs|
    ensures Settled(ControlApply(s, w), j)
  {
    assert w.JobReturns?;
  }

  lemma {:induction false} CallbackReturnsAt(st: nat -> State, lb: nat -> Label, n: nat, k: nat, j: JobId)
    requires Behaviour(st, lb) && JobRuns(st(n), j) && ControlAt(st, lb, k) && Undisturbed(st(n), st(k))
    ensures Settled(st(k + 1), j)
  {
    BehaviourInv(st, lb, k);
    CallbackReturns(st(k), lb(k).w, j);
  }

  lemma {:induction false} BusyIsSettled(st: nat -> State, lb: nat -> Label, n: nat, j: JobId) returns (m: nat)
    requires Behaviour(st, lb) && Fair(st, lb) && JobRuns(st(n), j)
    ensures n <= m && Settled(st(m), j)
  {
    var k := NextOutsidePoll(st, lb, n);
    CallbackReturnsAt(st, lb, n, k, j);
    m := k + 1;
  }

  /** Every job accepted while the worker exists is settled in time: its callback has returned, or it was
      cancelled, or it had none; unless poll() fails for good. */
  lemma {:induction false} EveryJobIsSettled(st: nat -> State, lb: nat -> Label, n: nat, j: JobId) returns (m: nat)
    requires Behaviour(st, lb) && Fair(st, lb) && DisciplinedBehaviour(st, lb)
    requires !Absent(st(n).pc) && j < |st(n).jobs|
    ensures n <= m && (st(m).pc == Exited(true) || Settled(st(m), j))
  {
    m := EventuallyReached(st, lb, n, j);
    BehaviourInv(st, lb, m);
    assert JobFlags(st(m), j);
    if st(m).jobs[j].busy {
      var from := m;
      m := BusyIsSettled(st, lb, from, j);
    }
  }

  // ----- stop

  lemma {:induction false} StepTowardsExit(s: State, w: ControlStep)
    requires Inv(s) && ControlEnabled(s, w) && !s.running
    ensures var t := ControlApply(s, w);
            || t.pc.Exited?
            || (!t.running && !Absent(t.pc) && Less(Measure(t.pc, t.todo != []), Measure(s.pc, s.todo != [])))
  {
    var t := ControlApply(s, w);
    assert t.todo == if w.Relock? then [] else s.todo;
    if !t.pc.Exited? {
      ControlDecreases(s, w, s.todo != [], t.todo != []);
    }
  }

  /** A worker told to stop does not sleep for good. */
  lemma {:induction false} StopIsNoticed(st: nat -> State, lb: nat -> Label, n: nat)
    requires Behaviour(st, lb) && !st(n).running && Asleep(st(n))
    ensures st(n).stopper.MustPoke?
  {
    BehaviourInv(st, lb, n);
  }

  lemma {:induction false} StoppedControl(st: nat -> State, lb: nat -> Label, n: nat) returns (k: nat)
    requires Behaviour(st, lb) && Fair(st, lb) && !st(n).running && !Absent(st(n).pc)
    ensures n <= k && ControlAt(st, lb, k) && Undisturbed(st(n), st(k))
  {
    if Asleep(st(n)) {
      StopIsNoticed(st, lb, n);
    }
    k := NextControl(st, lb, n);
  }

  lemma {:induction false} StoppedStep(st: nat -> State, lb: nat -> Label, n: nat, k: nat)
    requires Behaviour(st, lb) && ControlAt(st, lb, k) && !st(n).running && Undisturbed(st(n), st(k))
    ensures || st(k + 1).pc.Exited?
            || (!st(k + 1).running && !Absent(st(k + 1).pc)
                && Less(Measure(st(k + 1).pc, st(k + 1).todo != []), Measure(st(n).pc, st(n).todo != [])))
  {
    BehaviourInv(st, lb, k);
    StepTowardsExit(st(k), lb(k).w);
    SamePlace(st(n).pc, st(k).pc, st(n).todo != []);
  }

  lemma {:induction false} SamePlace(p: Pc, q: Pc, more: bool)
    requires Place(p) == Place(q)
    ensures Measure(p, more) == Measure(q, more)
  {
    assert Laps(Place(p), more) == Laps(Place(q), more);
  }

  /** After stop() has cleared `running` no job is accepted and the worker's run() returns. */
  lemma {:induction false} StopEndsTheWorker(st: nat -> State, lb: nat -> Label, n: nat) returns (m: nat)
    requires Behaviour(st, lb) && Fair(st, lb)
    requires !st(n).running && !Absent(st(n).pc)
    ensures n <= m && st(m).pc.Exited?
    decreases Laps(st(n).pc, st(n).todo != []), Rank(st(n).pc), Items(st(n).pc)
  {
    var k := StoppedControl(st, lb, n);
    StoppedStep(st, lb, n, k);
    m := k + 1;
    if !st(m).pc.Exited? {
      m := StopEndsTheWorker(st, lb, m);
    }
  }

  /** When run() has returned, other than on a poll() failure, the queue is drained: every job ever
      accepted is settled and none can be accepted any more. */
  lemma CleanExit(s: State)
    requires Inv(s) && s.pc == Exited(false)
    ensures !s.running && s.todo == []
    ensures forall j :: 0 <= j < |s.jobs| ==> Settled(s, j)
  {
    forall j | 0 <= j < |s.jobs| ensures Settled(s, j) {
      assert JobFlags(s, j);
    }
  }
}
