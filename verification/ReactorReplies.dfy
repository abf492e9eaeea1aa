/** Replies on their way to their operations: how requests are numbered, and that every message received is
    looked at. */
module ReactorReplies {
  import opened Netlink
  import opened SequenceNumbers
  import opened ReactorState
  import opened ReactorInvariant
  import opened ReactorSafety
  import opened ReactorLiveness
  import opened ReactorRequests

  // ----- numbers

  /** Until the numbers wrap around, each request's number is its place in the order of requests. */
  ghost predicate Numbered(s: State) {
    && (|s.ops| <= WRAP ==> forall o :: 0 <= o < |s.ops| ==> s.ops[o].seqno == o)
    && (|s.ops| < WRAP ==> s.nextseq == |s.ops|)
  }

  lemma {:induction false} PushKeepsNumbered(s: State, empty: bool)
    requires Handlers(s) && Numbered(s)
    ensures Numbered(PushRequest(s, empty))
  {
    if |s.ops| < WRAP {
      assert s.nextseq !in s.handlers;
    }
  }

  ghost predicate SameNumbers(s: State, t: State) {
    && t.nextseq == s.nextseq && |t.ops| == |s.ops|
    && forall o :: 0 <= o < |s.ops| ==> t.ops[o].seqno == s.ops[o].seqno
  }

  lemma {:induction false} NumberedFrame(s: State, t: State)
    requires Numbered(s) && SameNumbers(s, t)
    ensures Numbered(t)
  {
  }

  lemma {:induction false} ClientKeepsNumbers(s: State, c: ClientStep)
    requires ClientEnabled(s, c) && !c.Request?
    ensures SameNumbers(s, ClientApply(s, c))
  {
  }

  lemma {:induction false} NumberedClient(s: State, c: ClientStep)
    requires Handlers(s) && Numbered(s) && ClientEnabled(s, c)
    ensures Numbered(ClientApply(s, c))
  {
    if c.Request? {
      PushKeepsNumbered(s, c.empty);
    } else {
      ClientKeepsNumbers(s, c);
      NumberedFrame(s, ClientApply(s, c));
    }
  }

  lemma {:induction false} ControlKeepsNumbers(s: State, w: ControlStep)
    requires ControlEnabled(s, w)
    ensures SameNumbers(s, ControlApply(s, w))
  {
  }

  lemma {:induction false} NumberedControl(s: State, w: ControlStep)
    requires Numbered(s) && ControlEnabled(s, w)
    ensures Numbered(ControlApply(s, w))
  {
    ControlKeepsNumbers(s, w);
    NumberedFrame(s, ControlApply(s, w));
  }

  lemma {:induction false} NumberedCallback(s: State, a: CallbackStep)
    requires Handlers(s) && Numbered(s) && CallbackEnabled(s, a)
    ensures Numbered(CallbackApply(s, a))
  {
    if a.RequestInside? {
      PushKeepsNumbered(s, a.empty);
    } else {
      NumberedFrame(s, CallbackApply(s, a));
    }
  }

  lemma {:induction false} NumberedKept(s: State, l: Label)
    requires Handlers(s) && Numbered(s) && Enabled(s, l)
    ensures Numbered(Apply(s, l))
  {
    match l
    case Client(c) => NumberedClient(s, c);
    case Control(w) => NumberedControl(s, w);
    case Callback(a) => NumberedCallback(s, a);
  }

  lemma {:induction false} RunNumbered(ss: seq<State>, ls: seq<Label>, k: nat, pid: U32)
    requires IsRun(ss, ls) && ss[0] == Initial(pid) && k < |ss|
    ensures Numbered(ss[k])
  {
    if k > 0 {
      RunNumbered(ss, ls, k - 1, pid);
      RunInv(ss, ls, k - 1);
      NumberedKept(ss[k - 1], ls[k - 1]);
    }
  }

  /** The operation with the message's number has been dropped. */
  predicate LateFor(s: State, m: Message, o: OpId) {
    o < |s.ops| && Dropped(s.ops[o].life) && m.hdr.seqno == s.ops[o].seqno
  }

  /** Over any run the first 2^32 requests are numbered 0, 1, 2 and so on, so that no two of them share a
      number, dropped or not, and a late message for a dropped one is handed to nobody. */
  lemma {:induction false} NumbersAreNotReused(ss: seq<State>, ls: seq<Label>, k: nat, pid: U32)
    requires IsRun(ss, ls) && ss[0] == Initial(pid) && k < |ss| && |ss[k].ops| <= WRAP
    ensures forall o :: 0 <= o < |ss[k].ops| ==> ss[k].ops[o].seqno == o
    ensures forall m: Message, o :: LateFor(ss[k], m, o) ==> !Deliverable(ss[k], m)
  {
    RunNumbered(ss, ls, k, pid);
    RunInv(ss, ls, k);
    forall m: Message, o | LateFor(ss[k], m, o) ensures !Deliverable(ss[k], m) {
      assert OpFlags(ss[k], o);
    }
  }

  // ----- from a readable socket to a datagram

  /** The worker is on its way from a poll that reported the socket readable. */
  predicate Readable(pc: Pc) {
    (pc.Woken? || pc.Batch? || pc.InJob? || pc.Drain? || pc.Receive?) && pc.rev.rx
  }

  lemma {:induction false} ReadableStep(st: nat -> State, lb: nat -> Label, n: nat, k: nat)
    requires ControlAt(st, lb, k) && Undisturbed(st(n), st(k)) && Readable(st(n).pc) && !st(n).pc.Receive?
    ensures Readable(st(k + 1).pc) && Nearer(st(k + 1).pc, st(n).pc)
  {
    TurnStep(st, lb, n, k);
    assert Readable(st(k).pc);
  }

  /** A report of a readable socket leads to an attempt to receive. */
  lemma {:induction false} ReachesReceive(st: nat -> State, lb: nat -> Label, n: nat) returns (m: nat)
    requires Behaviour(st, lb) && Fair(st, lb) && Readable(st(n).pc)
    ensures n <= m && st(m).pc.Receive? && st(m).pc.rev.rx
    decreases Turn(st(n).pc), Items(st(n).pc)
  {
    m := n;
    if !st(n).pc.Receive? {
      var k := NextOutsidePoll(st, lb, n);
      ReadableStep(st, lb, n, k);
      m := ReachesReceive(st, lb, k + 1);
    }
  }

  ghost predicate SaysReadable(st: nat -> State, lb: nat -> Label, n: nat) {
    lb(n).Control? && lb(n).w.PollReturns? && lb(n).w.rx && Moves(st(n), lb(n), st(n + 1))
  }

  lemma {:induction false} ReadableIsRead(st: nat -> State, lb: nat -> Label, n: nat) returns (m: nat)
    requires Behaviour(st, lb) && Fair(st, lb) && SaysReadable(st, lb, n)
    ensures n < m && Enabled(st(m), Control(ReceiveDatagram([])))
  {
    m := ReachesReceive(st, lb, n + 1);
  }

  // ----- from a datagram to its messages

  predicate InDatagram(pc: Pc) { pc.Walk? || pc.InHandler? }

  /** What is left of the datagram. */
  function Left(pc: Pc): seq<Message>
    requires InDatagram(pc)
  {
    Messages(pc.data, pc.at)
  }

  ghost predicate LooksAt(st: nat -> State, lb: nat -> Label, n: nat, m: Message) {
    && ControlAt(st, lb, n) && lb(n).w.NextMessage? && Left(st(n).pc) != [] && Current(st(n)) == m
  }

  lemma {:induction false} SameLeft(p: Pc, q: Pc)
    requires Place(p) == Place(q) && InDatagram(p)
    ensures InDatagram(q) && Left(q) == Left(p) && p.Walk? == q.Walk? && Items(p) == Items(q)
  {
    assert Items(Place(p)) == Items(Place(q));
  }

  lemma {:induction false} HandlerStep(s: State, w: ControlStep)
    requires s.pc.InHandler? && ControlEnabled(s, w)
    ensures var t := ControlApply(s, w); t.pc.Walk? && Left(t.pc) == Left(s.pc) && Items(t.pc) < Items(s.pc)
  {
  }

  lemma {:induction false} CursorMoves(s: State)
    requires s.pc.Walk? && Left(s.pc) != []
    ensures Left(s.pc)[0] == Current(s)
    ensures var t := ControlApply(s, NextMessage); InDatagram(t.pc) && Left(t.pc) == Left(s.pc)[1..]
  {
    CursorFollowsWalk(s);
  }

  lemma {:induction false} WalkStep(s: State, w: ControlStep)
    requires s.pc.Walk? && ControlEnabled(s, w) && Left(s.pc) != []
    ensures w.NextMessage? && Left(s.pc)[0] == Current(s)
    ensures var t := ControlApply(s, w); InDatagram(t.pc) && Left(t.pc) == Left(s.pc)[1..] && Items(t.pc) < Items(s.pc)
  {
    CursorMoves(s);
    MessagesDecrease(s, w, true);
  }

  lemma {:induction false} MessageStep(st: nat -> State, lb: nat -> Label, n: nat, k: nat, i: nat)
    requires ControlAt(st, lb, k) && Undisturbed(st(n), st(k)) && InDatagram(st(n).pc) && i < |Left(st(n).pc)|
    ensures InDatagram(st(k + 1).pc) && Items(st(k + 1).pc) < Items(st(n).pc)
    ensures if st(n).pc.InHandler? then Left(st(k + 1).pc) == Left(st(n).pc)
            else LooksAt(st, lb, k, Left(st(n).pc)[0]) && Left(st(k + 1).pc) == Left(st(n).pc)[1..]
  {
    SameLeft(st(n).pc, st(k).pc);
    if st(n).pc.InHandler? {
      HandlerStep(st(k), lb(k).w);
    } else {
      WalkStep(st(k), lb(k).w);
    }
  }

  lemma {:induction false} NextInDatagram(st: nat -> State, lb: nat -> Label, n: nat, i: nat) returns (k: nat)
    requires Behaviour(st, lb) && Fair(st, lb) && InDatagram(st(n).pc) && i < |Left(st(n).pc)|
    ensures n <= k && InDatagram(st(k + 1).pc) && Items(st(k + 1).pc) < Items(st(n).pc)
    ensures if st(n).pc.InHandler? then Left(st(k + 1).pc) == Left(st(n).pc)
            else LooksAt(st, lb, k, Left(st(n).pc)[0]) && Left(st(k + 1).pc) == Left(st(n).pc)[1..]
  {
    k := NextOutsidePoll(st, lb, n);
    MessageStep(st, lb, n, k, i);
  }

  lemma {:induction false} EveryMessageIsSeen(st: nat -> State, lb: nat -> Label, n: nat, i: nat) returns (m: nat)
    requires Behaviour(st, lb) && Fair(st, lb) && InDatagram(st(n).pc) && i < |Left(st(n).pc)|
    ensures n <= m && LooksAt(st, lb, m, Left(st(n).pc)[i])
    decreases Items(st(n).pc)
  {
    var left := Left(st(n).pc);
    var k := NextInDatagram(st, lb, n, i);
    if st(n).pc.Walk? && i == 0 {
      m := k;
    } else {
      var next := if st(n).pc.Walk? then i - 1 else i;
      assert Left(st(k + 1).pc)[next] == left[i];
      m := EveryMessageIsSeen(st, lb, k + 1, next);
    }
  }

  ghost predicate Received(st: nat -> State, lb: nat -> Label, n: nat, bytes: seq<Byte>) {
    lb(n) == Control(ReceiveDatagram(bytes)) && Moves(st(n), lb(n), st(n + 1))
  }

  lemma {:induction false} DatagramBegins(st: nat -> State, lb: nat -> Label, n: nat, bytes: seq<Byte>)
    requires Received(st, lb, n, bytes)
    ensures InDatagram(st(n + 1).pc) && Left(st(n + 1).pc) == Messages(bytes, 0)
  {
  }

  /** Every message of a received datagram is looked at in time, and then handed to the operation that has
      its number, if the port id is this socket's and the operation has a callback and is not dropped by
      then, and to nobody else. */
  lemma {:induction false} EveryMessageIsHandled(st: nat -> State, lb: nat -> Label, n: nat, bytes: seq<Byte>, i: nat)
    returns (m: nat)
    requires Behaviour(st, lb) && Fair(st, lb) && Received(st, lb, n, bytes) && i < |Messages(bytes, 0)|
    ensures n < m && LooksAt(st, lb, m, Messages(bytes, 0)[i])
    ensures forall o :: OpRuns(st(m + 1), o) <==> IsFor(st(m), Messages(bytes, 0)[i].hdr, o)
  {
    DatagramBegins(st, lb, n, bytes);
    m := EveryMessageIsSeen(st, lb, n + 1, i);
    HandedTo(st, lb, m, Messages(bytes, 0)[i]);
  }

  predicate IsFor(s: State, h: Header, o: OpId) {
    h.pid == s.pid && o < |s.ops| && s.ops[o].seqno == h.seqno && !Dropped(s.ops[o].life) && !s.ops[o].empty
  }

  lemma {:induction false} HandedTo(st: nat -> State, lb: nat -> Label, m: nat, msg: Message)
    requires Behaviour(st, lb) && LooksAt(st, lb, m, msg)
    ensures forall o :: OpRuns(st(m + 1), o) <==> IsFor(st(m), msg.hdr, o)
  {
    BehaviourInv(st, lb, m);
    forall o ensures OpRuns(st(m + 1), o) <==> IsFor(st(m), msg.hdr, o) {
      CursorHandsTo(st(m), o);
    }
  }

  lemma {:induction false} CursorHandsTo(s: State, o: OpId)
    requires Inv(s) && s.pc.Walk? && Left(s.pc) != []
    ensures OpRuns(ControlApply(s, NextMessage), o) <==> IsFor(s, Current(s).hdr, o)
  {
    DispatchIsExact(s, o);
  }
}
