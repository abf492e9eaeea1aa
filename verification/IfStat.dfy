/** The network interface table on top of the reactor: one request outstanding at most, abandoned when no
    acknowledgement came within a second, retried by the update after that. */
module IfStat {
  import opened Options
  import opened Netlink
  import opened SequenceNumbers
  import opened ReactorState
  import opened ReactorInvariant
  import opened Reactor
  import opened Tables
  import opened IfStatMessage

  // ----- the protocol, step by step, among all other steps of the reactor

  /** `mine`: every operation this table ever asked for. */
  datatype System = System(s: State, op: Option<OpId>, opStart: real, mine: set<OpId>)

  datatype Step =
    | Update(now: real)     // by the table's job, or by the lookup that made it before the reactor started
    | Acknowledged          // the reply callback got an NLMSG_ERROR message
    | OtherReply            // any other message
    | Elsewhere(l: Label)   // everything else that happens in the reactor

  predicate OnWorker(s: State) { InCallback(s.pc) && s.pc.act.Free? }

  /** Nobody else has the table's handle. */
  predicate LeavesAlone(l: Label, mine: set<OpId>) {
    && !(l.Client? && l.c.DropOp? && l.c.o in mine)
    && !(l.Callback? && l.a.DropOpInside? && l.a.o in mine)
  }

  predicate StepEnabled(t: System, e: Step) {
    match e
    case Update(_) => |t.s.handlers.Keys| < WRAP && (OnWorker(t.s) || (t.s.pc.Off? && t.op.None?))
    case Acknowledged => OnWorker(t.s) && t.s.pc.InHandler? && t.s.pc.op in t.mine
    case OtherReply => OnWorker(t.s) && t.s.pc.InHandler? && t.s.pc.op in t.mine
    case Elsewhere(l) => Enabled(t.s, l) && LeavesAlone(l, t.mine)
  }

  /** `op.reset()`: the locked part of the deleter; the clearing that follows is one of the reactor's steps. */
  function Reset(t: System): System
    requires OnWorker(t.s)
  {
    if t.op.Some? && CallbackEnabled(t.s, DropOpInside(t.op.value)) then
      t.(s := CallbackApply(t.s, DropOpInside(t.op.value)), op := None)
    else t
  }

  function StepApply(t: System, e: Step): System
    requires StepEnabled(t, e)
  {
    match e
    case Update(now) =>
      if t.op.Some? then
        if now - t.opStart > 1.0 then Reset(t) else t
      else
        var o := |t.s.ops|;
        var s := if OnWorker(t.s) then CallbackApply(t.s, RequestInside(false))
                 else ClientApply(t.s, ReactorState.Request(false));
        System(s, Some(o), now, t.mine + {o})
    case Acknowledged => Reset(t)
    case OtherReply => t
    case Elsewhere(l) => t.(s := Apply(t.s, l))
  }

  /** Held, or dropped by the worker. */
  predicate WorkersOwn(life: Life) { life.Held? || life == Clearing(true) || life == ReactorState.Gone(true) }

  /** The table's handle is exactly its one live operation. */
  ghost predicate Good(t: System) {
    && Inv(t.s)
    && (forall o :: o in t.mine ==> o < |t.s.ops|)
    && (forall o :: o in t.mine ==> (t.s.ops[o].life.Held? <==> t.op == Some(o)))
    && (forall o :: o in t.mine ==> WorkersOwn(t.s.ops[o].life))
    && (t.op.Some? ==> t.op.value in t.mine)
  }

  predicate LifeKept(s: State, u: State, o: OpId)
    requires o < |s.ops|
  {
    o < |u.ops| && u.ops[o].life.Held? == s.ops[o].life.Held? && WorkersOwn(u.ops[o].life)
  }

  lemma {:induction false} LifeKeptClient(s: State, c: ClientStep, o: OpId)
    requires ClientEnabled(s, c) && !(c.DropOp? && c.o == o)
    requires o < |s.ops| && WorkersOwn(s.ops[o].life) && OpFlags(s, o)
    ensures LifeKept(s, ClientApply(s, c), o)
  {
  }

  lemma {:induction false} LifeKeptControl(s: State, w: ControlStep, o: OpId)
    requires ControlEnabled(s, w) && o < |s.ops| && WorkersOwn(s.ops[o].life) && OpFlags(s, o)
    ensures LifeKept(s, ControlApply(s, w), o)
  {
  }

  lemma {:induction false} LifeKeptCallback(s: State, a: CallbackStep, o: OpId)
    requires CallbackEnabled(s, a) && !(a.DropOpInside? && a.o == o)
    requires o < |s.ops| && WorkersOwn(s.ops[o].life) && OpFlags(s, o)
    ensures LifeKept(s, CallbackApply(s, a), o)
  {
  }

  lemma {:induction false} LifeOfOthers(t: System, l: Label, o: OpId)
    requires Good(t) && o in t.mine && Enabled(t.s, l) && LeavesAlone(l, t.mine)
    ensures LifeKept(t.s, Apply(t.s, l), o)
  {
    assert OpFlags(t.s, o);
    match l
    case Client(c) => LifeKeptClient(t.s, c, o);
    case Control(w) => LifeKeptControl(t.s, w, o);
    case Callback(a) => LifeKeptCallback(t.s, a, o);
  }

  lemma {:induction false} GoodElsewhere(t: System, l: Label)
    requires Good(t) && StepEnabled(t, Elsewhere(l))
    ensures Good(StepApply(t, Elsewhere(l)))
  {
    InvKept(t.s, l);
    forall o | o in t.mine ensures LifeKept(t.s, Apply(t.s, l), o)
    {
      LifeOfOthers(t, l, o);
    }
  }

  lemma {:induction false} GoodReset(t: System)
    requires Good(t) && OnWorker(t.s)
    ensures Good(Reset(t)) && Reset(t).op == None
  {
    if t.op.Some? {
      InvKept(t.s, Callback(DropOpInside(t.op.value)));
    }
  }

  lemma {:induction false} GoodRequest(t: System, now: real)
    requires Good(t) && StepEnabled(t, Update(now)) && t.op.None?
    ensures Good(StepApply(t, Update(now)))
  {
    if OnWorker(t.s) {
      InvKept(t.s, Callback(RequestInside(false)));
    } else {
      InvKept(t.s, Client(ReactorState.Request(false)));
    }
    assert |t.s.ops| !in t.mine;
  }

  lemma {:induction false} GoodKept(t: System, e: Step)
    requires Good(t) && StepEnabled(t, e)
    ensures Good(StepApply(t, e))
  {
    match e
    case Update(now) =>
      if t.op.None? {
        GoodRequest(t, now);
      } else if OnWorker(t.s) {
        GoodReset(t);
      }
    case Acknowledged => GoodReset(t);
    case OtherReply =>
    case Elsewhere(l) => GoodElsewhere(t, l);
  }

  ghost predicate IsRun(ts: seq<System>, es: seq<Step>) {
    && |ts| == |es| + 1
    && Inv(ts[0].s) && ts[0].op == None && ts[0].mine == {}
    && forall i {:trigger es[i]} :: 0 <= i < |es| ==> StepEnabled(ts[i], es[i]) && ts[i + 1] == StepApply(ts[i], es[i])
  }

  lemma {:induction false} RunGood(ts: seq<System>, es: seq<Step>, n: nat)
    requires IsRun(ts, es) && n < |ts|
    ensures Good(ts[n])
  {
    if n > 0 {
      RunGood(ts, es, n - 1);
      GoodKept(ts[n - 1], es[n - 1]);
    }
  }

  /** Sequence number `q` is registered for an operation of this table. */
  predicate Waiting(t: System, q: U32) { q in t.s.handlers && t.s.handlers[q] in t.mine }

  /** Over any run of updates, replies, errors and silences the table has at most one operation in the
      handler map, and it has one exactly while it holds a handle. */
  lemma AtMostOneOutstanding(ts: seq<System>, es: seq<Step>, n: nat)
    requires IsRun(ts, es) && n < |ts|
    ensures var t := ts[n];
            && (forall p, q :: Waiting(t, p) && Waiting(t, q) ==> p == q)
            && (t.op.Some? <==> exists q :: Waiting(t, q))
  {
    RunGood(ts, es, n);
    var t := ts[n];
    forall q | Waiting(t, q) ensures t.op == Some(t.s.handlers[q]) {
      assert OpFlags(t.s, t.s.handlers[q]);
    }
    if t.op.Some? {
      assert OpFlags(t.s, t.op.value);
      assert Waiting(t, t.s.ops[t.op.value].seqno);
    }
  }

  // ----- how often a request is issued

  predicate Issues(t: System, e: Step) { e.Update? && t.op.None? }

  /** Updates come more than a second apart. */
  ghost predicate Spaced(es: seq<Step>) {
    forall i, k :: 0 <= i < k < |es| && es[i].Update? && es[k].Update? ==> es[k].now - es[i].now > 1.0
  }

  /** The operation held was issued by the update that set `opStart`. */
  lemma {:induction false} IssuedBy(ts: seq<System>, es: seq<Step>, n: nat) returns (i: nat)
    requires IsRun(ts, es) && n < |ts| && ts[n].op.Some?
    ensures i < n && es[i].Update? && es[i].now == ts[n].opStart
  {
    if Issues(ts[n - 1], es[n - 1]) {
      i := n - 1;
    } else {
      i := IssuedBy(ts, es, n - 1);
    }
  }

  lemma {:induction false} StaysIdle(ts: seq<System>, es: seq<Step>, i: nat, k: nat)
    requires IsRun(ts, es) && i <= k < |ts| && ts[i].op.None?
    requires forall n :: i <= n < k ==> !es[n].Update?
    ensures ts[k].op.None?
  {
    if i < k {
      StaysIdle(ts, es, i, k - 1);
      assert !es[k - 1].Update?;
    }
  }

  /** A request has been made, and the table holds its handle. */
  predicate Asked(t: System, u: System) {
    && |u.s.ops| == |t.s.ops| + 1 && u.s.ready == t.s.ready + [|t.s.ops|]
    && u.op == Some(|t.s.ops|) && u.s.ops[|t.s.ops|].life.Held? && u.s.ops[|t.s.ops|].cb
  }

  lemma {:induction false} UpdateAsksIff(t: System, now: real)
    requires StepEnabled(t, Update(now))
    ensures var u := StepApply(t, Update(now));
            if t.op.None? then Asked(t, u) && u.opStart == now else |u.s.ops| == |t.s.ops|
  {
  }

  /** Of any two consecutive updates at least one issues a request, whatever the kernel answers or does
      not answer in between. */
  lemma EveryOtherUpdateAsks(ts: seq<System>, es: seq<Step>, i: nat, k: nat)
    requires IsRun(ts, es) && Spaced(es)
    requires i < k < |es| && es[i].Update? && es[k].Update? && forall n :: i < n < k ==> !es[n].Update?
    ensures Asked(ts[i], ts[i + 1]) || Asked(ts[k], ts[k + 1])
  {
    UpdateAsksIff(ts[i], es[i].now);
    if ts[i].op.Some? {
      AbandonedByNext(ts, es, i, k);
      UpdateAsksIff(ts[k], es[k].now);
    }
  }

  lemma {:induction false} AbandonedByNext(ts: seq<System>, es: seq<Step>, i: nat, k: nat)
    requires IsRun(ts, es) && Spaced(es) && i < k < |es| && ts[i].op.Some?
    requires es[i].Update? && forall n :: i < n < k ==> !es[n].Update?
    ensures ts[k].op.None?
  {
    var a := IssuedBy(ts, es, i);
    assert es[i].now - ts[i].opStart > 1.0;
    RunGood(ts, es, i);
    GoodReset(ts[i]);
    StaysIdle(ts, es, i + 1, k);
  }

  /** When the kernel acknowledges, no update is lost: the one after an acknowledgement issues a request. */
  lemma {:induction false} AcknowledgedThenAsks(ts: seq<System>, es: seq<Step>, i: nat, k: nat)
    requires IsRun(ts, es) && i < k < |es| && es[i].Acknowledged? && es[k].Update?
    requires forall n :: i < n < k ==> !es[n].Update?
    ensures Asked(ts[k], ts[k + 1])
  {
    RunGood(ts, es, i);
    GoodReset(ts[i]);
    StaysIdle(ts, es, i + 1, k);
    UpdateAsksIff(ts[k], es[k].now);
  }

  /** From its request on nothing has acknowledged the operation, and no update came more than a second
      after it. */
  ghost predicate Pending(es: seq<Step>, i: nat, k: nat) {
    && i < k <= |es| && es[i].Update?
    && forall n {:trigger es[n]} :: i < n < k ==>
         !es[n].Acknowledged? && (es[n].Update? ==> es[n].now - es[i].now <= 1.0)
  }

  /** So long the table keeps the operation, and asks nothing else. */
  lemma {:induction false} HeldWhilePending(ts: seq<System>, es: seq<Step>, i: nat, k: nat)
    requires IsRun(ts, es) && Pending(es, i, k) && ts[i].op.None?
    ensures ts[k].op == Some(|ts[i].s.ops|) && ts[k].opStart == es[i].now
    decreases k
  {
    if i + 1 < k {
      assert !es[k - 1].Acknowledged?;
      HeldWhilePending(ts, es, i, k - 1);
    } else {
      UpdateAsksIff(ts[i], es[i].now);
    }
  }

  lemma {:induction false} HandleIsHeld(t: System)
    requires Good(t) && OnWorker(t.s) && t.op.Some?
    ensures CallbackEnabled(t.s, DropOpInside(t.op.value))
  {
  }

  /** And the next update abandons it if and only if it comes more than a second after the request. */
  lemma {:induction false} AbandonedIff(ts: seq<System>, es: seq<Step>, i: nat, k: nat)
    requires IsRun(ts, es) && Pending(es, i, k) && ts[i].op.None? && k < |es| && es[k].Update?
    ensures ts[k + 1].op == if es[k].now - es[i].now > 1.0 then None else Some(|ts[i].s.ops|)
    ensures |ts[k + 1].s.ops| == |ts[k].s.ops| > |ts[i].s.ops|
    ensures ts[k + 1].s.ops[|ts[i].s.ops|].cancel <==> es[k].now - es[i].now > 1.0
  {
    HeldWhilePending(ts, es, i, k);
    RunGood(ts, es, k);
    HandleIsHeld(ts[k]);
    assert OpFlags(ts[k].s, ts[k].op.value);
  }

  // ----- the table object

  /** With the clearing that follows a reset. */
  function Cleared(t: System, after: bool): System {
    if after && CallbackEnabled(t.s, ClearInside) then t.(s := CallbackApply(t.s, ClearInside)) else t
  }

  class IfStatTable {
    const inst: string
    const react: Pvt
    const tbl: StatTable
    var op: Option<OpId>
    var opStart: real
    ghost var mine: set<OpId>

    ghost function Now(): System
      reads this, react
    {
      System(react.Now(), op, opStart, mine)
    }

    constructor (inst: string, react: Pvt, tbl: StatTable)
      ensures this.inst == inst && this.react == react && this.tbl == tbl && op == None && mine == {}
    {
      this.inst, this.react, this.tbl := inst, react, tbl;
      op, opStart, mine := None, 0.0, {};
    }

    method ResetOp()
      requires OnWorker(react.Now()) && (op.Some? ==> CallbackEnabled(react.Now(), DropOpInside(op.value)))
      modifies this, react
      ensures Now() == Cleared(Reset(old(Now())), old(op).Some?)
    {
      if op.Some? {
        var waits := react.DropOp(op.value, true);
        react.ClearOp(op.value, true);
        op := None;
      }
    }

    /** update(): three cases, told apart by the handle and its age. */
    method Update(now: real, onWorker: bool) returns (issued: bool)
      requires onWorker == OnWorker(react.Now()) && StepEnabled(Now(), Step.Update(now)) && Good(Now())
      modifies this, react
      ensures issued == old(Issues(Now(), Step.Update(now)))
      ensures Now() == Cleared(StepApply(old(Now()), Step.Update(now)), old(op).Some? && op.None?)
    {
      if op.Some? {
        if now - opStart > 1.0 {
          HandleIsHeld(Now());
          ResetOp();
        }
        return false;
      }
      Ask(now, onWorker);
      issued := true;
    }

    method Ask(now: real, onWorker: bool)
      requires onWorker == OnWorker(react.Now()) && StepEnabled(Now(), Step.Update(now)) && op.None?
      modifies this, react
      ensures Now() == StepApply(old(Now()), Step.Update(now))
    {
      var o, q, wake := react.Request(RequestLength(inst), false, onWorker);
      op := o;
      mine := mine + {o.value};
      opStart := now;
    }

    /** The reply callback: a link message with its template is digested, an acknowledgement with its error
        resets the handle, anything else is ignored. */
    method Reply(rep: seq<Byte>, now: int) returns (inside: bool)
      requires NLMSG_HDRLEN <= |rep| < 0x1_0000_0000 && ReadHeader(rep, 0).len == |rep|
      requires StepEnabled(Now(), Acknowledged) && Good(Now())
      modifies this, react, tbl
      ensures var h := ReadHeader(rep, 0);
              var newlink := h.typ == 16 && h.len >= 16 + 16;
              var ack := h.typ == 2 && h.len >= 16 + 20;
              && (newlink && inside ==> tbl.current == Fold(DigestCalls(inst, rep)))
              && (newlink ==> (inside <==> Attributes.WalkAttrs(rep, BODY, |rep| - BODY).Done?))
              && (!newlink ==> tbl.current == old(tbl.current) && inside)
              && Now() == if ack then Cleared(StepApply(old(Now()), Acknowledged), old(op).Some?)
                          else StepApply(old(Now()), OtherReply)
    {
      var h := ReadHeader(rep, 0);
      inside := true;
      if h.typ == RTM_NEWLINK && h.len >= BODY {
        inside := Digest(tbl, now, inst, rep);
      } else if h.typ == NLMSG_ERROR && h.len >= NLMSG_HDRLEN + NLMSGERR_LEN {
        if op.Some? {
          HandleIsHeld(Now());
        }
        ResetOp();
      }
    }
  }
}
