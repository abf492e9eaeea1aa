/** Requests on their way to the kernel: every one is sent in the end, unless the worker ends first. */
module ReactorRequests {
  import opened Netlink
  import opened ReactorState
  import opened ReactorInvariant
  import opened ReactorSafety
  import opened ReactorLiveness

  // ----- fairness of the socket

  predicate ArmedPoll(s: State) { s.pc.Polling? && s.pc.armed }

  ghost predicate ArmedAfter(st: nat -> State, n: nat) {
    exists k: nat :: n <= k && ArmedPoll(st(k))
  }

  /** poll() reports the socket writable. */
  ghost predicate SaysWritable(st: nat -> State, lb: nat -> Label, n: nat) {
    lb(n).Control? && lb(n).w.PollReturns? && lb(n).w.tx && Moves(st(n), lb(n), st(n + 1))
  }

  ghost predicate WritableAfter(st: nat -> State, lb: nat -> Label, n: nat) {
    exists k: nat :: n <= k && SaysWritable(st, lb, k)
  }

  /** A socket that is asked about over and over is reported writable over and over. */
  ghost predicate SocketFair(st: nat -> State, lb: nat -> Label) {
    (forall n: nat :: ArmedAfter(st, n)) ==> forall n: nat :: WritableAfter(st, lb, n)
  }

  // ----- once round the worker's loop

  /** Position counting down from one poll to the next. */
  function Turn(pc: Pc): nat { if pc.Woken? then 12 else Rank(pc) }

  predicate Nearer(p: Pc, q: Pc) { Turn(p) < Turn(q) || (Turn(p) == Turn(q) && Items(p) < Items(q)) }

  lemma {:induction false} TurnDecreases(s: State, w: ControlStep)
    requires ControlEnabled(s, w) && !s.pc.Polling?
    ensures var t := ControlApply(s, w); t.pc.Exited? || (!Absent(t.pc) && Nearer(t.pc, s.pc))
  {
    if !w.Relock? && !ControlApply(s, w).pc.Exited? {
      ControlDecreases(s, w, true, true);
    }
  }

  lemma {:induction false} SameTurn(p: Pc, q: Pc)
    requires Place(p) == Place(q)
    ensures Turn(p) == Turn(q) && Items(p) == Items(q)
  {
    assert Rank(Place(p)) == Rank(Place(q));
  }

  lemma {:induction false} TurnStep(st: nat -> State, lb: nat -> Label, n: nat, k: nat)
    requires ControlAt(st, lb, k) && Undisturbed(st(n), st(k)) && !st(n).pc.Polling?
    ensures st(k + 1).pc.Exited? || (!Absent(st(k + 1).pc) && Nearer(st(k + 1).pc, st(n).pc))
  {
    SameTurn(st(n).pc, st(k).pc);
    TurnDecreases(st(k), lb(k).w);
  }

  lemma {:induction false} NextTurn(st: nat -> State, lb: nat -> Label, n: nat) returns (m: nat)
    requires Behaviour(st, lb) && Fair(st, lb) && !Absent(st(n).pc) && !st(n).pc.Polling?
    ensures n <= m && (st(m).pc.Exited? || (!Absent(st(m).pc) && Nearer(st(m).pc, st(n).pc)))
  {
    var k := NextOutsidePoll(st, lb, n);
    TurnStep(st, lb, n, k);
    m := k + 1;
  }

  lemma {:induction false} ReachesPoll(st: nat -> State, lb: nat -> Label, n: nat) returns (m: nat)
    requires Behaviour(st, lb) && Fair(st, lb) && !Absent(st(n).pc)
    ensures n <= m && (st(m).pc.Exited? || st(m).pc.Polling?)
    decreases Turn(st(n).pc), Items(st(n).pc)
  {
    m := n;
    if !st(n).pc.Polling? {
      m := NextTurn(st, lb, n);
      if !st(m).pc.Exited? {
        m := ReachesPoll(st, lb, m);
      }
    }
  }

  // ----- from a writable socket to the transmission

  /** The worker is on its way from a poll that reported the socket writable. */
  predicate Writable(pc: Pc) {
    && (pc.Woken? || pc.Batch? || pc.InJob? || pc.Drain? || pc.Receive? || pc.Walk? || pc.InHandler? || pc.Transmit?)
    && pc.rev.tx
  }

  lemma {:induction false} WritableStep(s: State, w: ControlStep)
    requires Writable(s.pc) && ControlEnabled(s, w)
    ensures var t := ControlApply(s, w); if w.TransmitAll? then t.ready == [] else Writable(t.pc)
  {
  }

  lemma {:induction false} StaysWritable(p: Pc, q: Pc)
    requires Place(p) == Place(q) && Writable(p)
    ensures Writable(q)
  {
  }

  lemma {:induction false} WritableMoment(st: nat -> State, lb: nat -> Label, n: nat, k: nat)
    requires ControlAt(st, lb, k) && Undisturbed(st(n), st(k)) && Writable(st(n).pc)
    ensures st(k + 1).ready == [] || (Writable(st(k + 1).pc) && Nearer(st(k + 1).pc, st(n).pc))
  {
    StaysWritable(st(n).pc, st(k).pc);
    WritableStep(st(k), lb(k).w);
    TurnStep(st, lb, n, k);
  }

  lemma {:induction false} NextWritable(st: nat -> State, lb: nat -> Label, n: nat) returns (m: nat)
    requires Behaviour(st, lb) && Fair(st, lb) && Writable(st(n).pc)
    ensures n <= m && (st(m).ready == [] || (Writable(st(m).pc) && Nearer(st(m).pc, st(n).pc)))
  {
    var k := NextOutsidePoll(st, lb, n);
    WritableMoment(st, lb, n, k);
    m := k + 1;
  }

  lemma {:induction false} ReachesTransmit(st: nat -> State, lb: nat -> Label, n: nat) returns (m: nat)
    requires Behaviour(st, lb) && Fair(st, lb) && Writable(st(n).pc)
    ensures n <= m && st(m).ready == []
    decreases Turn(st(n).pc), Items(st(n).pc)
  {
    m := NextWritable(st, lb, n);
    if st(m).ready != [] {
      m := ReachesTransmit(st, lb, m);
    }
  }

  // ----- every request is sent

  lemma {:induction false} OpsStep(s: State, l: Label)
    requires Enabled(s, l)
    ensures |s.ops| <= |Apply(s, l).ops|
  {
    match l
    case Client(c) => assert |s.ops| <= |ClientApply(s, c).ops|;
    case Control(w) => assert |s.ops| <= |ControlApply(s, w).ops|;
    case Callback(a) => assert |s.ops| <= |CallbackApply(s, a).ops|;
  }

  lemma {:induction false} OpsStay(st: nat -> State, lb: nat -> Label, n: nat, m: nat)
    requires Behaviour(st, lb) && n <= m
    ensures |st(n).ops| <= |st(m).ops|
    decreases m
  {
    if n < m {
      OpsStay(st, lb, n, m - 1);
      if st(m) != st(m - 1) {
        assert Moves(st(m - 1), lb(m - 1), st(m));
        OpsStep(st(m - 1), lb(m - 1));
      }
    }
  }

  lemma {:induction false} ExitStep(s: State, l: Label)
    requires Enabled(s, l) && !Absent(s.pc)
    ensures Apply(s, l).pc != Off
  {
    match l
    case Client(c) => assert ClientApply(s, c).pc != Off;
    case Control(w) => assert ControlApply(s, w).pc != Off;
    case Callback(a) => assert CallbackApply(s, a).pc != Off;
  }

  /** The worker ends by way of an exit. */
  lemma {:induction false} PresentUntilExit(st: nat -> State, lb: nat -> Label, n: nat, m: nat)
    requires Behaviour(st, lb) && n <= m && !Absent(st(n).pc)
    requires forall i: nat :: n <= i <= m ==> !st(i).pc.Exited?
    ensures !Absent(st(m).pc)
    decreases m
  {
    if n < m {
      PresentUntilExit(st, lb, n, m - 1);
      if st(m) != st(m - 1) {
        assert Moves(st(m - 1), lb(m - 1), st(m));
        ExitStep(st(m - 1), lb(m - 1));
      }
    }
  }

  predicate Over(s: State, o: OpId) { s.pc.Exited? || o in s.sent }

  /** What has been asked for is sent or still queued. */
  lemma {:induction false} SentOrReady(s: State, o: OpId)
    requires Inv(s) && o < |s.ops|
    ensures o in s.sent || s.ready != []
  {
    if s.ready == [] {
      assert s.sent[o] == o;
    }
  }

  lemma {:induction false} StaysQueued(st: nat -> State, lb: nat -> Label, n: nat, k: nat, o: OpId)
    requires Behaviour(st, lb) && n <= k && o < |st(n).ops| && o !in st(k).sent
    ensures st(k).ready != []
  {
    OpsStay(st, lb, n, k);
    BehaviourInv(st, lb, k);
    SentOrReady(st(k), o);
  }

  lemma {:induction false} ArmedPollComes(st: nat -> State, lb: nat -> Label, n: nat, m: nat, o: OpId)
    requires Behaviour(st, lb) && Fair(st, lb) && DisciplinedBehaviour(st, lb)
    requires !Absent(st(n).pc) && o < |st(n).ops| && n <= m
    requires forall i: nat :: n <= i ==> !Over(st(i), o)
    ensures ArmedAfter(st, m)
  {
    assert forall i: nat :: n <= i <= m ==> !Over(st(i), o);
    PresentUntilExit(st, lb, n, m);
    var k := ReachesPoll(st, lb, m);
    assert !Over(st(k), o);
    StaysQueued(st, lb, n, k, o);
    ReadyArmedAlways(st, lb, k);
    assert ArmedPoll(st(k));
  }

  /** A report of a writable socket leads to the transmission of everything queued. */
  lemma {:induction false} WritableLeadsOn(st: nat -> State, lb: nat -> Label, n: nat, k: nat, o: OpId) returns (m: nat)
    requires Behaviour(st, lb) && Fair(st, lb) && n <= k && SaysWritable(st, lb, k) && o < |st(n).ops|
    ensures n <= m && o in st(m).sent
  {
    m := ReachesTransmit(st, lb, k + 1);
    if o !in st(m).sent {
      StaysQueued(st, lb, n, m, o);
    }
  }

  /** Every operation requested is sent in time, unless the worker ends before. */
  lemma {:induction false} EveryRequestIsSent(st: nat -> State, lb: nat -> Label, n: nat, o: OpId) returns (m: nat)
    requires Behaviour(st, lb) && Fair(st, lb) && SocketFair(st, lb) && DisciplinedBehaviour(st, lb)
    requires !Absent(st(n).pc) && o < |st(n).ops|
    ensures n <= m && Over(st(m), o)
  {
    if exists i: nat :: n <= i && Over(st(i), o) {
      m :| n <= m && Over(st(m), o);
    } else {
      forall i: nat ensures ArmedAfter(st, i) {
        var from := if i < n then n else i;
        ArmedPollComes(st, lb, n, from, o);
        var k :| from <= k && ArmedPoll(st(k));
      }
      assert WritableAfter(st, lb, n);
      var k :| n <= k && SaysWritable(st, lb, k);
      m := WritableLeadsOn(st, lb, n, k, o);
    }
  }

  lemma {:induction false} OnlyFirstRequest(ss: seq<State>, ls: seq<Label>)
    requires |ls| < |ss| && ss[0].pc.Off?
    requires forall i :: 0 < i < |ls| ==> !(ls[i].Client? && ls[i].c.Request?)
    ensures DisciplinedRun(ss, ls)
  {
  }

  /** From the start to a request made before there is a worker. */
  lemma {:induction false} RunToRequest(pid: U32) returns (ss: seq<State>, ls: seq<Label>)
    ensures IsRun(ss, ls) && ss[0] == Initial(pid) && ls == [Client(Request(false))]
    ensures var s := ss[1]; s.ready == [0] && s.sent == [] && s.todo == []
    ensures ss[1].pc.Off? && !ss[1].running && ss[1].stopper.NoStop?
  {
    InvInit(pid);
    ss, ls := Extend([Initial(pid)], [], Client(Request(false)));
  }

  /** A clean stop is such an end: it drains the jobs but not the requests.  A run, with its request made
      before the start, that leaves one unsent. */
  lemma {:induction false} StopStrandsRequests(pid: U32) returns (ss: seq<State>, ls: seq<Label>)
    ensures IsRun(ss, ls) && ss[0] == Initial(pid) && DisciplinedRun(ss, ls)
    ensures var s := ss[|ls|]; s.pc == Exited(false) && s.ready == [0] && s.sent == []
  {
    ss, ls := RunToRequest(pid);
    ss, ls := Extend(ss, ls, Client(Start));
    ss, ls := Extend(ss, ls, Client(StopBegin));
    ss, ls := Extend(ss, ls, Control(FirstLock));
    ss, ls := Extend(ss, ls, Control(LoopTop));
    OnlyFirstRequest(ss, ls);
  }
}
