/** How long the deleter of a handle waits for a callback in progress. */
module ReactorWaits {
  import opened Netlink
  import opened SequenceNumbers
  import opened ReactorState
  import opened ReactorInvariant
  import opened ReactorSafety
  import opened Reactor

  /** The deleter of a job waits for one return at most: from then on it is not put to sleep again, and
      takes the lock to cancel. */
  lemma {:induction false} JobWaitsOnce(ss: seq<State>, ls: seq<Label>, i: nat, k: nat, j: JobId)
    requires IsRun(ss, ls) && i < k < |ss| && ls[i] == Control(JobReturns)
    requires j < |ss[i].jobs| && ss[i].jobs[j].life.Sleeping?
    ensures j < |ss[k].jobs| && !ss[k].jobs[j].life.Sleeping?
    ensures ClientEnabled(ss[k], LockJob(j)) ==> ClientApply(ss[k], LockJob(j)).jobs[j].life == Clearing(false)
  {
    RunInv(ss, ls, i);
    SleepersAreWoken(ss[i], JobReturns);
    JobAgesRun(ss, ls, i + 1, k, j);
    RunInv(ss, ls, k);
    assert JobFlags(ss[k], j);
  }

  /** The first message of the rest of the datagram that is for anybody is for operation `o`. */
  ghost predicate NextIsFor(s: State, o: OpId)
    requires s.pc.Walk?
  {
    var left := Messages(s.pc.data, s.pc.at);
    exists i :: 0 <= i < |left| && Deliverable(s, left[i]) && s.handlers[left[i].hdr.seqno] == o
                && forall k :: 0 <= k < i ==> !Deliverable(s, left[k])
  }

  lemma {:induction false} NextCallback(s: State, o: OpId)
    requires s.pc.Walk?
    ensures var u := SkipMessages(s);
            && (u.pc.InHandler? || u.pc.Transmit?)
            && (OpRuns(u, o) <==> NextIsFor(s, o))
            && (o < |s.ops| ==>
                 && o < |u.ops| && u.ops[o].life == s.ops[o].life
                 && u.ops[o].busy == (s.ops[o].busy || OpRuns(u, o)))
  {
    var left := Messages(s.pc.data, s.pc.at);
    var i := MessageLoopFindsFirst(s);
  }

  lemma {:induction false} HandlerReturned(s: State, o: OpId)
    requires Inv(s) && ControlEnabled(s, HandlerReturns) && o < |s.ops| && s.ops[o].life.Sleeping?
    ensures var t := ControlApply(s, HandlerReturns);
            t.pc.Walk? && o < |t.ops| && t.ops[o].life.Dropping? && !t.ops[o].busy
  {
    SleepersAreWoken(s, HandlerReturns);
  }

  lemma {:induction false} LockWhileDropping(u: State, o: OpId)
    requires o < |u.ops| && u.ops[o].life.Dropping? && u.pc.InHandler?
    ensures ClientEnabled(u, LockOp(o)) && (ClientApply(u, LockOp(o)).ops[o].life.Sleeping? <==> u.ops[o].busy)
  {
  }

  /** The deleter of an operation may have to wait again: the worker keeps the lock from one message to the
      next.  A client that slept until the callback returned has its next chance at the lock when the
      worker next lets go of it, in a callback or with the datagram done, and then goes back to sleep if
      and only if that callback is its operation's own once more. */
  lemma {:induction false} OpWaitsAgainIff(s: State, o: OpId)
    requires Inv(s) && ControlEnabled(s, HandlerReturns) && o < |s.ops| && s.ops[o].life.Sleeping?
    ensures var t := ControlApply(s, HandlerReturns);
            var u := SkipMessages(t);
            && Locked(t.pc) && o < |u.ops| && u.ops[o].life.Dropping?
            && (u.ops[o].busy <==> NextIsFor(t, o))
            && (u.pc.InHandler? || u.pc.Transmit?)
            && (u.pc.InHandler? ==>
                 && ClientEnabled(u, LockOp(o))
                 && (ClientApply(u, LockOp(o)).ops[o].life.Sleeping? <==> NextIsFor(t, o)))
            && (u.pc.Transmit? ==> !NextIsFor(t, o))
  {
    HandlerReturned(s, o);
    var t := ControlApply(s, HandlerReturns);
    NextCallback(t, o);
    if SkipMessages(t).pc.InHandler? {
      LockWhileDropping(SkipMessages(t), o);
    }
  }

  // ----- a run in which it has to

  /** Operation 0 has been requested, and is being dropped or not. */
  function Started(pid: U32, life: Life, busy: bool, pc: Pc, ready: seq<OpId>, sent: seq<OpId>): State {
    Initial(pid).(running := true, pc := pc, handlers := map[0 := 0], nextseq := 1,
                  ops := [Operation(0, false, true, false, busy, life)], ready := ready, sent := sent)
  }

  lemma {:induction false} FirstRequest(pid: U32)
    ensures ClientApply(ClientApply(Initial(pid), ReactorState.Request(false)), ReactorState.Start)
            == Started(pid, Held, false, Spawned, [0], [])
  {
    assert FirstFree({}, 0) == 0;
  }

  lemma {:induction false} RunToTransmit(pid: U32) returns (ss: seq<State>, ls: seq<Label>)
    ensures IsRun(ss, ls) && ss[0] == Initial(pid)
    ensures ss[|ls|] == Started(pid, Held, false, Transmit(Revents(false, false, true)), [0], [])
  {
    InvInit(pid);
    FirstRequest(pid);
    ss, ls := Extend([Initial(pid)], [], Client(ReactorState.Request(false)));
    ss, ls := Extend(ss, ls, Client(ReactorState.Start));
    ss, ls := Extend(ss, ls, Control(FirstLock));
    ss, ls := ToReceive(pid, ss, ls, [0], [], false, true);
    ss, ls := Extend(ss, ls, Control(ReceiveNothing));
  }

  /** From the top of the loop to the socket. */
  lemma {:induction false} ToReceive(pid: U32, ss0: seq<State>, ls0: seq<Label>,
                                     ready: seq<OpId>, sent: seq<OpId>, rx: bool, tx: bool)
    returns (ss: seq<State>, ls: seq<Label>)
    requires IsRun(ss0, ls0) && ss0[|ls0|] == Started(pid, Held, false, Top, ready, sent)
    requires (rx || tx) && (tx ==> ready != [])
    ensures IsRun(ss, ls) && ss[0] == ss0[0]
    ensures ss[|ls|] == Started(pid, Held, false, Receive(Revents(false, rx, tx)), ready, sent)
  {
    ss, ls := Extend(ss0, ls0, Control(LoopTop));
    ss, ls := Extend(ss, ls, Control(EnterPoll));
    ss, ls := Extend(ss, ls, Control(PollReturns(rx, tx)));
    ss, ls := Extend(ss, ls, Control(Relock));
    ss, ls := Extend(ss, ls, Control(NextJob));
    ss, ls := Extend(ss, ls, Control(DrainPipe(true)));
  }

  /** Two acknowledgements of the first request. */
  function Twice(pid: U32): seq<Byte> {
    HeaderBytes(Header(NLMSG_HDRLEN, 2, 0, 0, pid)) + HeaderBytes(Header(NLMSG_HDRLEN, 2, 0, 0, pid))
  }

  lemma {:induction false} TwiceReads(pid: U32)
    ensures |Twice(pid)| == 2 * NLMSG_HDRLEN
    ensures ReadHeader(Twice(pid), 0) == ReadHeader(Twice(pid), NLMSG_HDRLEN) == Header(NLMSG_HDRLEN, 2, 0, 0, pid)
  {
    var h := Header(NLMSG_HDRLEN, 2, 0, 0, pid);
    HeaderRoundTrip(h, [], HeaderBytes(h));
    HeaderRoundTrip(h, HeaderBytes(h), []);
    assert [] + HeaderBytes(h) + HeaderBytes(h) == Twice(pid) == HeaderBytes(h) + HeaderBytes(h) + [];
  }

  function InFirst(pid: U32, life: Life, at: nat): State {
    Started(pid, life, true, InHandler(Revents(false, true, false), Twice(pid), at, 0, Free), [], [0])
  }

  lemma {:induction false} RunToReceive(pid: U32) returns (ss: seq<State>, ls: seq<Label>)
    ensures IsRun(ss, ls) && ss[0] == Initial(pid)
    ensures ss[|ls|] == Started(pid, Held, false, Receive(Revents(false, true, false)), [], [0])
  {
    ss, ls := RunToTransmit(pid);
    ss, ls := Extend(ss, ls, Control(TransmitAll));
    ss, ls := ToReceive(pid, ss, ls, [], [0], true, false);
  }

  lemma {:induction false} RunToReply(pid: U32) returns (ss: seq<State>, ls: seq<Label>)
    ensures IsRun(ss, ls) && ss[0] == Initial(pid) && ss[|ls|] == InFirst(pid, Held, NLMSG_HDRLEN)
  {
    ss, ls := RunToReceive(pid);
    TwiceReads(pid);
    ss, ls := Extend(ss, ls, Control(ReceiveDatagram(Twice(pid))));
    ss, ls := Extend(ss, ls, Control(NextMessage));
  }

  lemma {:induction false} RunToSleep(pid: U32) returns (ss: seq<State>, ls: seq<Label>)
    ensures IsRun(ss, ls) && ss[0] == Initial(pid) && ss[|ls|] == InFirst(pid, Sleeping, NLMSG_HDRLEN)
    ensures |ls| >= 1 && ls[|ls| - 1..] == [Client(LockOp(0))]
  {
    ss, ls := RunToReply(pid);
    ss, ls := Extend(ss, ls, Client(DropOp(0)));
    ss, ls := Extend(ss, ls, Client(LockOp(0)));
  }

  lemma {:induction false} RunToWake(pid: U32) returns (ss: seq<State>, ls: seq<Label>)
    ensures IsRun(ss, ls) && ss[0] == Initial(pid)
    ensures ss[|ls|].pc == Walk(Revents(false, true, false), Twice(pid), NLMSG_HDRLEN)
    ensures ss[|ls|] == Started(pid, Dropping, false, ss[|ls|].pc, [], [0])
    ensures |ls| >= 2 && ls[|ls| - 2..] == [Client(LockOp(0)), Control(HandlerReturns)]
  {
    ss, ls := RunToSleep(pid);
    ss, ls := Extend(ss, ls, Control(HandlerReturns));
  }

  /** A client drops the handle during the first callback, sleeps, is woken and sleeps again. */
  lemma {:induction false} OpWaitsTwice(pid: U32) returns (ss: seq<State>, ls: seq<Label>)
    ensures IsRun(ss, ls) && ss[0] == Initial(pid) && ss[|ls|] == InFirst(pid, Sleeping, 2 * NLMSG_HDRLEN)
    ensures |ls| >= 4 && ls[|ls| - 4..]
            == [Client(LockOp(0)), Control(HandlerReturns), Control(NextMessage), Client(LockOp(0))]
  {
    ss, ls := RunToWake(pid);
    TwiceReads(pid);
    ss, ls := Extend(ss, ls, Control(NextMessage));
    ss, ls := Extend(ss, ls, Client(LockOp(0)));
  }
}
