/** When nobody wants anything of the reactor its worker goes to sleep, and a burst of submissions costs one
    wake-up byte. */
module ReactorIdle {
  import opened ReactorState
  import opened ReactorInvariant
  import opened ReactorSafety
  import opened ReactorLiveness
  import opened ReactorRequests

  // ----- bytes in the pipe and on their way to it

  function Due(s: State): nat {
    s.pipe + s.pokes + (if InCallback(s.pc) && s.pc.act.Poking? then 1 else 0) + (if s.stopper.MustPoke? then 1 else 0)
  }

  // ----- an idle worker

  /** Nobody submits, requests, starts or stops, poll() is not interrupted, reports nothing but the pipe and
      does not fail, and the pipe can be read.  Wake-up bytes may still arrive, handles may be dropped and
      the callbacks of this turn may run. */
  predicate Calm(l: Label) {
    match l
    case Client(c) => !c.Start? && !c.StopBegin? && !c.Submit? && !c.Request?
    case Callback(a) => !a.SubmitInside? && !a.RequestInside?
    case Control(w) =>
      && !w.PollInterrupted? && !w.PollFails?
      && (w.PollReturns? ==> !w.rx && !w.tx) && (w.DrainPipe? ==> w.ok)
  }

  ghost predicate CalmFrom(st: nat -> State, lb: nat -> Label, n: nat) {
    forall k: nat {:trigger lb(k)} :: n <= k && Moves(st(k), lb(k), st(k + 1)) ==> Calm(lb(k))
  }

  /** Turns through poll() still to come before bytes are taken from the pipe or there are none. */
  function Polls(s: State): nat {
    if (s.pc.Woken? || s.pc.Batch? || s.pc.InJob? || s.pc.Drain?) && s.pc.rev.pipe then 0
    else if s.pc.Woken? then 1
    else if s.pc.Polling? then if s.pc.infinite && !s.pc.armed then 1 else 2
    else if s.todo == [] && !(s.pc.Arming? && s.pc.armed) then 1
    else 2
  }

  ghost predicate Settles(s: State, t: State) {
    || Due(t) < Due(s)
    || (Due(t) == Due(s) && (Polls(t) < Polls(s) || (Polls(t) == Polls(s) && Nearer(t.pc, s.pc))))
  }

  predicate Idle(s: State) { s.running && s.ready == [] && !Absent(s.pc) }

  lemma {:induction false} LoopSettles(s: State, w: ControlStep)
    requires PipeReport(s) && Idle(s) && ControlEnabled(s, w) && Calm(Control(w)) && !Asleep(s)
    requires w.FirstLock? || w.LoopTop? || w.EnterPoll? || w.PollReturns? || w.Relock? || w.DrainPipe?
    ensures var t := ControlApply(s, w); Idle(t) && Settles(s, t)
  {
  }

  lemma {:induction false} RestSettles(s: State, w: ControlStep)
    requires Idle(s) && ControlEnabled(s, w) && Calm(Control(w)) && !s.pc.Polling?
    requires !(w.FirstLock? || w.LoopTop? || w.EnterPoll? || w.PollReturns? || w.Relock? || w.DrainPipe?)
    ensures var t := ControlApply(s, w); Idle(t) && Settles(s, t)
  {
    TurnDecreases(s, w);
    var t := ControlApply(s, w);
    assert Due(t) == Due(s) && Polls(t) == Polls(s);
  }

  lemma {:induction false} ControlSettles(s: State, w: ControlStep)
    requires PipeReport(s) && Idle(s) && ControlEnabled(s, w) && Calm(Control(w)) && !Asleep(s)
    ensures var t := ControlApply(s, w); Idle(t) && Settles(s, t)
  {
    if w.FirstLock? || w.LoopTop? || w.EnterPoll? || w.PollReturns? || w.Relock? || w.DrainPipe? {
      LoopSettles(s, w);
    } else {
      RestSettles(s, w);
    }
  }

  /** What everybody else leaves as it is. */
  ghost predicate Same(s: State, t: State) {
    Place(t.pc) == Place(s.pc) && t.todo == s.todo && t.ready == s.ready && t.running == s.running && Due(t) == Due(s)
  }

  lemma {:induction false} ClientKeepsSame(s: State, c: ClientStep)
    requires ClientEnabled(s, c) && Calm(Client(c)) && !Absent(s.pc)
    ensures Same(s, ClientApply(s, c))
  {
  }

  lemma {:induction false} CallbackKeepsSame(s: State, a: CallbackStep)
    requires CallbackEnabled(s, a) && Calm(Callback(a))
    ensures Same(s, CallbackApply(s, a))
  {
  }

  lemma {:induction false} StillPresent(s: State, t: State)
    requires Same(s, t) && !Absent(s.pc)
    ensures !Absent(t.pc) && Polls(t) == Polls(s) && Turn(t.pc) == Turn(s.pc) && Items(t.pc) == Items(s.pc)
  {
    SameTurn(s.pc, t.pc);
  }

  lemma {:induction false} SameMoment(st: nat -> State, lb: nat -> Label, n: nat)
    requires Behaviour(st, lb) && CalmFrom(st, lb, n) && !Absent(st(n).pc) && !ControlAt(st, lb, n)
    ensures Same(st(n), st(n + 1))
  {
    if st(n + 1) != st(n) {
      assert Moves(st(n), lb(n), st(n + 1));
      match lb(n)
      case Client(c) => ClientKeepsSame(st(n), c);
      case Callback(a) => CallbackKeepsSame(st(n), a);
    }
  }

  lemma {:induction false} CalmLater(st: nat -> State, lb: nat -> Label, n: nat, m: nat)
    requires CalmFrom(st, lb, n) && n <= m
    ensures CalmFrom(st, lb, m)
  {
  }

  lemma {:induction false} SameThroughout(st: nat -> State, lb: nat -> Label, n: nat, m: nat)
    requires Behaviour(st, lb) && CalmFrom(st, lb, n) && n <= m && !Absent(st(n).pc)
    requires forall k: nat :: n <= k < m ==> !ControlAt(st, lb, k)
    ensures Same(st(n), st(m))
    decreases m
  {
    if n < m {
      SameThroughout(st, lb, n, m - 1);
      StillPresent(st(n), st(m - 1));
      CalmLater(st, lb, n, m - 1);
      SameMoment(st, lb, m - 1);
    }
  }

  lemma {:induction false} FirstSame(st: nat -> State, lb: nat -> Label, n: nat, k: nat) returns (m: nat)
    requires Behaviour(st, lb) && CalmFrom(st, lb, n) && !Absent(st(n).pc) && n <= k && ControlAt(st, lb, k)
    ensures n <= m && ControlAt(st, lb, m) && Same(st(n), st(m))
  {
    m := FirstControl(st, lb, n, k);
    SameThroughout(st, lb, n, m);
  }

  /** The worker's next step, if it comes while the worker is still not asleep. */
  lemma {:induction false} SettlesAt(st: nat -> State, lb: nat -> Label, n: nat, k: nat)
    requires Behaviour(st, lb) && CalmFrom(st, lb, n) && n <= k && ControlAt(st, lb, k)
    requires Idle(st(n)) && Same(st(n), st(k)) && !Asleep(st(k))
    ensures Idle(st(k + 1)) && Settles(st(n), st(k + 1))
  {
    BehaviourInv(st, lb, k);
    StillPresent(st(n), st(k));
    ControlSettles(st(k), lb(k).w);
  }

  lemma {:induction false} NextSettles(st: nat -> State, lb: nat -> Label, n: nat, later: nat) returns (m: nat)
    requires Behaviour(st, lb) && CalmFrom(st, lb, n) && Idle(st(n)) && n <= later && ControlAt(st, lb, later)
    ensures n <= m && CalmFrom(st, lb, m)
    ensures Asleep(st(m)) || (Idle(st(m)) && Settles(st(n), st(m)))
  {
    m := FirstSame(st, lb, n, later);
    if !Asleep(st(m)) {
      SettlesAt(st, lb, n, m);
      m := m + 1;
    }
    CalmLater(st, lb, n, m);
  }

  /** If from some moment on nobody wants anything, a running worker with nothing to send ends up in a poll
      without a time limit, with the pipe empty. */
  lemma {:induction false} IdleWorkerSleeps(st: nat -> State, lb: nat -> Label, n: nat) returns (m: nat)
    requires Behaviour(st, lb) && Fair(st, lb) && CalmFrom(st, lb, n) && Idle(st(n))
    ensures n <= m && Asleep(st(m))
    decreases Due(st(n)), Polls(st(n)), Turn(st(n).pc), Items(st(n).pc)
  {
    m := n;
    if !Asleep(st(n)) {
      var later := AwakeControl(st, lb, n);
      m := NextSettles(st, lb, n, later);
      if !Asleep(st(m)) {
        m := IdleWorkerSleeps(st, lb, m);
      }
    }
  }

  /** One turn of an idle worker's loop, from the read of the pipe to the next poll. */
  function Turned(s: State, ok: bool): State
    requires s.pc.Drain?
  {
    var read := ControlApply(s, DrainPipe(ok));
    var received := ControlApply(read, ReceiveNothing);
    var sent := ControlApply(received, TransmitAll);
    var top := ControlApply(sent, LoopTop);
    if top.pc.Arming? then ControlApply(top, EnterPoll) else top
  }

  /** It takes as many bytes from the pipe as its buffer of 16 holds, so all of them if they fit, and nothing
      else has changed when it polls again, without a time limit.  A read that fails takes none. */
  lemma {:induction false} TurnTakesBytes(s: State, ok: bool)
    requires s.pc.Drain? && s.pc.rev.pipe && s.running && s.todo == [] && s.ready == []
    ensures Turned(s, ok).pc == Polling(true, false)
    ensures Turned(s, ok).pipe == if !ok then s.pipe else if s.pipe <= 16 then 0 else s.pipe - 16
    ensures Turned(s, ok).(pc := s.pc, pipe := s.pipe) == s
  {
    assert s.sent + [] == s.sent;
  }

  // ----- bursts

  /** Leaves the batch, the pipe and the requests alone. */
  predicate InBurst(l: Label) {
    match l
    case Client(c) => !c.StopBegin? && !c.Request?
    case Callback(a) => !a.RequestInside?
    case Control(w) => !w.Relock? && !w.DrainPipe? && !w.TransmitAll?
  }

  function Cost(todo: seq<JobId>, ready: seq<OpId>, after: seq<JobId>): nat {
    if todo == [] && ready == [] && after != [] then 1 else 0
  }

  lemma {:induction false} BurstStep(s: State, l: Label)
    requires Enabled(s, l) && InBurst(l)
    ensures var t := Apply(s, l);
            t.ready == s.ready && s.todo <= t.todo && Due(t) == Due(s) + Cost(s.todo, s.ready, t.todo)
  {
    match l
    case Client(c) => BurstClient(s, c);
    case Callback(a) => BurstCallback(s, a);
    case Control(w) => BurstControl(s, w);
  }

  lemma {:induction false} BurstClient(s: State, c: ClientStep)
    requires ClientEnabled(s, c) && InBurst(Client(c))
    ensures var t := ClientApply(s, c);
            t.ready == s.ready && s.todo <= t.todo && Due(t) == Due(s) + Cost(s.todo, s.ready, t.todo)
  {
  }

  lemma {:induction false} BurstCallback(s: State, a: CallbackStep)
    requires CallbackEnabled(s, a) && InBurst(Callback(a))
    ensures var t := CallbackApply(s, a);
            t.ready == s.ready && s.todo <= t.todo && Due(t) == Due(s) + Cost(s.todo, s.ready, t.todo)
  {
  }

  lemma {:induction false} BurstControl(s: State, w: ControlStep)
    requires ControlEnabled(s, w) && InBurst(Control(w))
    ensures var t := ControlApply(s, w);
            t.ready == s.ready && t.todo == s.todo && Due(t) == Due(s)
  {
  }

  /** Between two batches any number of submissions, from clients and callbacks, writes exactly one byte if
      it finds nothing queued, and none otherwise. */
  lemma {:induction false} BurstWritesOneByte(ss: seq<State>, ls: seq<Label>, i: nat, k: nat)
    requires IsRun(ss, ls) && i <= k < |ss| && forall n :: i <= n < k ==> InBurst(ls[n])
    ensures ss[k].ready == ss[i].ready && ss[i].todo <= ss[k].todo
    ensures Due(ss[k]) == Due(ss[i]) + Cost(ss[i].todo, ss[i].ready, ss[k].todo)
  {
    if i < k {
      BurstWritesOneByte(ss, ls, i, k - 1);
      assert InBurst(ls[k - 1]);
      BurstStep(ss[k - 1], ls[k - 1]);
    }
  }
}
