/** The messages of the network interface table: the request it sends and what it takes from a reply
    (the interface service template of section 2.3.3.1 of RFC 3549). */
module IfStatMessage {
  import opened Options
  import opened Sequences
  import opened Netlink
  import opened Attributes
  import opened Tables

  const NLMSG_ERROR: nat := 2
  const RTM_NEWLINK: nat := 16
  const RTM_GETLINK: nat := 18
  const NLM_F_REQUEST_ACK: nat := 5
  const IFINFOMSG_LEN: nat := 16
  const NLMSGERR_LEN: nat := 20
  const BODY: nat := NLMSG_HDRLEN + IFINFOMSG_LEN  // attributes start here

  const IFLA_IFNAME: U16 := 3
  const IFLA_MTU: U16 := 4
  const IFLA_OPERSTATE: U16 := 16
  const IFLA_LINKMODE: U16 := 17
  const IFLA_STATS64: U16 := 23
  const IFLA_CARRIER: U16 := 33
  const IFLA_CARRIER_UP_COUNT: U16 := 47
  const IFLA_CARRIER_DOWN_COUNT: U16 := 48

  // ----- the request

  /** An instance name: one byte per character. */
  predicate IsName(inst: string) { forall i :: 0 <= i < |inst| ==> inst[i] as int < 0x100 }

  function NameBytes(inst: string): (b: seq<Byte>)
    requires IsName(inst)
    ensures |b| == |inst|
  {
    seq(|inst|, i requires 0 <= i < |inst| => inst[i] as int)
  }

  function RequestLength(inst: string): nat { BODY + Align4(RTA_HDRLEN + |inst| + 1) }

  function RequestHead(inst: string): Header {
    Header(RequestLength(inst) % 0x1_0000_0000, RTM_GETLINK, NLM_F_REQUEST_ACK, 0, 0)
  }

  /** The name attribute; its length field is 16 bits wide. */
  function NameAttrBytes(inst: string): seq<Byte>
    requires IsName(inst)
  {
    Bytes16((RTA_HDRLEN + |inst| + 1) % 0x1_0000) + Bytes16(IFLA_IFNAME)
    + NameBytes(inst) + Zeros(1 + Align4(RTA_HDRLEN + |inst| + 1) - (RTA_HDRLEN + |inst| + 1))
  }

  function RequestPrefix(inst: string): seq<Byte> { HeaderBytes(RequestHead(inst)) + Zeros(IFINFOMSG_LEN) }

  function RequestBytes(inst: string): seq<Byte>
    requires IsName(inst)
  {
    RequestPrefix(inst) + NameAttrBytes(inst)
  }

  method Put(scratch: array<Byte>, at: nat, bytes: seq<Byte>)
    requires at + |bytes| <= scratch.Length
    modifies scratch
    ensures scratch[..] == old(scratch[..at]) + bytes + old(scratch[at + |bytes|..])
  {
    for i := 0 to |bytes|
      invariant scratch[..at] == old(scratch[..at]) && scratch[at + |bytes|..] == old(scratch[at + |bytes|..])
      invariant scratch[at..at + i] == bytes[..i]
    {
      scratch[at + i] := bytes[i];
    }
    assert scratch[..] == scratch[..at] + scratch[at..at + |bytes|] + scratch[at + |bytes|..];
  }

  /** Writes behind what is written already and a gap. */
  method PutNext(scratch: array<Byte>, ghost written: seq<Byte>, at: nat, bytes: seq<Byte>)
    requires |written| <= at && at + |bytes| <= scratch.Length
    requires scratch[..] == written + Zeros(scratch.Length - |written|)
    modifies scratch
    ensures scratch[..] == written + Zeros(at - |written|) + bytes + Zeros(scratch.Length - at - |bytes|)
  {
    Put(scratch, at, bytes);
  }

  lemma RequestPieces(inst: string, rta: seq<Byte>)
    requires IsName(inst)
    requires rta == Bytes16((RTA_HDRLEN + |inst| + 1) % 0x1_0000) + Bytes16(IFLA_IFNAME)
    ensures RequestBytes(inst)
            == RequestPrefix(inst) + rta + NameBytes(inst) + Zeros(RequestLength(inst) - BODY - RTA_HDRLEN - |inst|)
  {
    var head, tail := RequestPrefix(inst), Zeros(RequestLength(inst) - BODY - RTA_HDRLEN - |inst|);
    Regroup(rta, NameBytes(inst), tail);
    Regroup(head, rta, NameBytes(inst) + tail);
    Regroup(head + rta, NameBytes(inst), tail);
  }

  /** The constructor fills in the fields of a zeroed buffer; an empty name is an error. */
  method BuildRequest(inst: string) returns (scratch: Option<array<Byte>>)
    requires IsName(inst)
    ensures scratch.None? <==> inst == ""
    ensures scratch.Some? ==> fresh(scratch.value) && scratch.value[..] == RequestBytes(inst)
  {
    if inst == "" {
      return None;
    }
    var n := RequestLength(inst);
    var b: array<Byte> := new Byte[n](_ => 0);
    var hdr := HeaderBytes(RequestHead(inst));
    var rta := Bytes16((RTA_HDRLEN + |inst| + 1) % 0x1_0000) + Bytes16(IFLA_IFNAME);
    assert b[..] == [] + Zeros(n);
    PutNext(b, [], 0, hdr);
    assert [] + Zeros(0) + hdr == hdr;
    PutNext(b, hdr, BODY, rta);
    ghost var front := RequestPrefix(inst) + rta;
    PutNext(b, front, BODY + RTA_HDRLEN, NameBytes(inst));
    assert front + Zeros(0) + NameBytes(inst) == front + NameBytes(inst);
    RequestPieces(inst, rta);
    scratch := Some(b);
  }

  function NameAttr(inst: string): Attr
    requires IsName(inst)
  {
    Attr(IFLA_IFNAME, NameBytes(inst) + [0])
  }

  lemma RequestHeader(inst: string)
    requires IsName(inst) && RequestLength(inst) < 0x1_0000_0000
    ensures var m := RequestBytes(inst);
            |m| == RequestLength(inst) && ReadHeader(m, 0).len == |m| && ReadHeader(m, 0).typ == RTM_GETLINK
  {
    var h, body := RequestHead(inst), Zeros(IFINFOMSG_LEN) + NameAttrBytes(inst);
    Regroup(HeaderBytes(h), Zeros(IFINFOMSG_LEN), NameAttrBytes(inst));
    assert RequestBytes(inst) == [] + HeaderBytes(h) + body;
    HeaderRoundTrip(h, [], body);
  }

  lemma EncodedName(inst: string)
    requires IsName(inst) && RTA_HDRLEN + |inst| + 1 < 0x1_0000
    ensures NameAttrBytes(inst) == EncodeAttr(NameAttr(inst))
  {
  }

  lemma FittingName(inst: string)
    requires IsName(inst) && RTA_HDRLEN + |inst| + 1 < 0x1_0000
    ensures var m := RequestBytes(inst); WalkAttrs(m, BODY, |m| - BODY) == Done([NameAttr(inst)], 0)
  {
    var a := NameAttr(inst);
    EncodedName(inst);
    assert EncodeAttrs([a]) == EncodeAttr(a);
    AttrsRoundTrip([a], RequestPrefix(inst));
  }

  lemma OverlongName(inst: string)
    requires IsName(inst) && RTA_HDRLEN + |inst| + 1 >= 0x1_0000 && RequestLength(inst) < 0x1_0000_0000
    ensures var m := RequestBytes(inst); WalkAttrs(m, BODY, |m| - BODY).attrs != [NameAttr(inst)]
  {
    var m := RequestBytes(inst);
    var len := (RTA_HDRLEN + |inst| + 1) % 0x1_0000;
    assert m[BODY] == Bytes16(len)[0] && m[BODY + 1] == Bytes16(len)[1];
    FirstPayload(m, BODY, |m| - BODY, len);
    assert |NameAttr(inst).payload| == |inst| + 1;
  }

  lemma FirstPayload(m: seq<Byte>, at: nat, remaining: U32, len: U16)
    requires at + RTA_HDRLEN <= |m| && ReadU16(m, at) == len
    ensures var w := WalkAttrs(m, at, remaining); w.attrs != [] ==> |w.attrs[0].payload| == len - RTA_HDRLEN
  {
  }

  /** The request's header tells its length, and its body decodes to one attribute, the interface name
      with its terminating zero, if and only if the name fits the attribute's 16-bit length field. */
  lemma RequestDecodes(inst: string)
    requires IsName(inst) && RequestLength(inst) < 0x1_0000_0000
    ensures var m := RequestBytes(inst);
            && |m| == RequestLength(inst) && ReadHeader(m, 0).len == |m| && ReadHeader(m, 0).typ == RTM_GETLINK
            && (WalkAttrs(m, BODY, |m| - BODY) == Done([NameAttr(inst)], 0) <==> RTA_HDRLEN + |inst| + 1 < 0x1_0000)
  {
    RequestHeader(inst);
    if RTA_HDRLEN + |inst| + 1 < 0x1_0000 {
      FittingName(inst);
    } else {
      OverlongName(inst);
    }
  }

  // ----- the reply

  const STATS64: seq<string> := [
    "rx_packets", "tx_packets", "rx_bytes", "tx_bytes", "rx_errors", "tx_errors", "rx_dropped", "tx_dropped",
    "multicast", "collisions", "rx_length_errors", "rx_over_errors", "rx_crc_errors", "rx_frame_errors",
    "rx_fifo_errors", "rx_missed_errors", "tx_aborted_errors", "tx_carrier_errors", "tx_fifo_errors",
    "tx_heartbeat_errors", "tx_window_errors", "rx_compressed", "tx_compressed", "rx_nohandler"
  ]

  /** Size of the statistics structure up to the last counter taken from it; headers that append further
      counters ask for that much more payload. */
  const STATS64_LEN: nat := 8 * 24

  function ReadU64(b: seq<Byte>, at: nat): nat
    requires at + 8 <= |b|
  {
    ReadU32(b, at) + 0x1_0000_0000 * ReadU32(b, at + 4)
  }

  /** Conversion to a signed 64-bit number. */
  function AsInt64(u: nat): int { if u < 0x8000_0000_0000_0000 then u else u - 0x1_0000_0000_0000_0000 }

  function Number(n: int): Value { Int(n, "") }

  /** The set() calls one attribute leads to; none if its type is not of interest or its payload too short. */
  function Calls(a: Attr): seq<SetCall> {
    if a.typ == IFLA_STATS64 then
      if |a.payload| >= STATS64_LEN then
        seq(24, i requires 0 <= i < 24 => SetCall(STATS64[i], Number(AsInt64(ReadU64(a.payload, 8 * i)))))
      else []
    else if a.typ == IFLA_OPERSTATE then Calls8("operatate", a)
    else if a.typ == IFLA_CARRIER then Calls8("carrier", a)
    else if a.typ == IFLA_LINKMODE then Calls8("linkmode", a)
    else if a.typ == IFLA_CARRIER_UP_COUNT then Calls32("carrier_up_count", a)
    else if a.typ == IFLA_CARRIER_DOWN_COUNT then Calls32("carrier_down_count", a)
    else if a.typ == IFLA_MTU then Calls32("mtu", a)
    else []
  }

  function Calls8(name: string, a: Attr): seq<SetCall> {
    if |a.payload| >= 1 then [SetCall(name, Number(a.payload[0]))] else []
  }

  function Calls32(name: string, a: Attr): seq<SetCall> {
    if |a.payload| >= 4 then [SetCall(name, Number(ReadU32(a.payload, 0)))] else []
  }

  function AllCalls(attrs: seq<Attr>): seq<SetCall> {
    if attrs == [] then [] else AllCalls(attrs[..|attrs| - 1]) + Calls(attrs[|attrs| - 1])
  }

  /** Set before the attributes are looked at. */
  function HeadCalls(inst: string, m: seq<Byte>): seq<SetCall>
    requires BODY <= |m|
  {
    [SetCall("name", Text(inst)), SetCall("if_flags", Number(ReadU32(m, NLMSG_HDRLEN + 8)))]
  }

  /** What a reply of length at least `BODY` makes of the table. */
  function DigestCalls(inst: string, m: seq<Byte>): seq<SetCall>
    requires BODY <= |m| < 0x1_0000_0000
  {
    HeadCalls(inst, m) + AllCalls(WalkAttrs(m, BODY, |m| - BODY).attrs)
  }

  /** The reply is digested attribute by attribute into a transaction, committed at the end; `inside` is
      false when the walk has left the message. */
  method Digest(tbl: StatTable, now: int, inst: string, m: seq<Byte>) returns (inside: bool)
    requires BODY <= |m| < 0x1_0000_0000
    modifies tbl
    ensures inside <==> WalkAttrs(m, BODY, |m| - BODY).Done?
    ensures inside ==> tbl.current == Fold(DigestCalls(inst, m)) && tbl.currentTime == now
  {
    var tr := new Transaction(tbl, now);
    tr.Set("name", Text(inst));
    tr.Set("if_flags", Number(ReadU32(m, NLMSG_HDRLEN + 8)));
    ghost var base := HeadCalls(inst, m);
    ghost var whole := WalkAttrs(m, BODY, |m| - BODY);
    ghost var seen: seq<Attr> := [];
    assert tr.calls == base + AllCalls(seen);
    AppendNone(whole);
    var ratt := BODY;
    var remaining: U32 := |m| - BODY;
    inside := true;
    while inside && RtaOk(m, ratt, remaining)
      invariant fresh(tr) && tr.tbl == tbl && tr.nextTime == now && tr.Valid()
      invariant tr.calls == base + AllCalls(seen)
      invariant inside ==> Append(seen, WalkAttrs(m, ratt, remaining)) == whole
      invariant !inside ==> whole.Overrun?
      decreases inside, if ratt < |m| then |m| - ratt else 0
    {
      if !Inside(m, ratt) {
        inside := false;
      } else {
        ghost var a: Attr;
        a, ratt, remaining := DigestOne(tr, m, ratt, remaining);
        AppendCons(seen, a, WalkAttrs(m, ratt, remaining));
        Regroup(base, AllCalls(seen), Calls(a));
        seen := seen + [a];
      }
    }
    if inside {
      WalkEnds(m, ratt, remaining);
      assert whole.attrs == seen;
    }
    tr.Commit();
  }

  predicate RtaOk(m: seq<Byte>, at: nat, remaining: U32) {
    remaining >= RTA_HDRLEN && (at + RTA_HDRLEN <= |m| ==> RTA_HDRLEN <= ReadU16(m, at) <= remaining)
  }

  predicate Inside(m: seq<Byte>, at: nat) {
    at + RTA_HDRLEN <= |m| && at + ReadU16(m, at) <= |m|
  }

  lemma WalkStep(m: seq<Byte>, at: nat, remaining: U32)
    requires RtaOk(m, at, remaining) && Inside(m, at)
    ensures var len := ReadU16(m, at);
            WalkAttrs(m, at, remaining)
            == Cons(Attr(ReadU16(m, at + 2), m[at + RTA_HDRLEN..at + len]),
                    WalkAttrs(m, at + Align4(len), Minus(remaining, Align4(len))))
  {
  }

  lemma WalkEnds(m: seq<Byte>, at: nat, remaining: U32)
    requires !RtaOk(m, at, remaining)
    ensures WalkAttrs(m, at, remaining) == Done([], remaining)
  {
  }

  /** One round of the loop: digest the attribute under the cursor, move on. */
  method DigestOne(tr: Transaction, m: seq<Byte>, ratt: nat, remaining: U32)
    returns (ghost a: Attr, next: nat, left: U32)
    requires tr.Valid() && RtaOk(m, ratt, remaining) && Inside(m, ratt)
    modifies tr
    ensures tr.Valid() && tr.calls == old(tr.calls) + Calls(a)
    ensures WalkAttrs(m, ratt, remaining) == Cons(a, WalkAttrs(m, next, left))
    ensures ratt < |m| && ratt < next
  {
    var len := ReadU16(m, ratt);
    var attr := Attr(ReadU16(m, ratt + 2), m[ratt + RTA_HDRLEN..ratt + len]);
    a := attr;
    SetAll(tr, Calls(attr));
    WalkStep(m, ratt, remaining);
    left := Minus(remaining, Align4(len));
    next := ratt + Align4(len);
  }

  lemma AppendCons(seen: seq<Attr>, a: Attr, w: Walked)
    ensures Append(seen, Cons(a, w)) == Append(seen + [a], w)
    ensures AllCalls(seen + [a]) == AllCalls(seen) + Calls(a)
  {
    assert (seen + [a])[..|seen|] == seen;
    assert seen + ([a] + w.attrs) == seen + [a] + w.attrs;
  }

  lemma AppendNone(w: Walked)
    ensures Append([], w) == w
  {
    assert [] + w.attrs == w.attrs;
  }

  function Append(seen: seq<Attr>, w: Walked): Walked { w.(attrs := seen + w.attrs) }

  method SetAll(tr: Transaction, calls: seq<SetCall>)
    requires tr.Valid()
    modifies tr
    ensures tr.Valid() && tr.calls == old(tr.calls) + calls
  {
    for i := 0 to |calls|
      invariant tr.Valid() && tr.calls == old(tr.calls) + calls[..i]
    {
      tr.Set(calls[i].name, calls[i].value);
    }
  }
}
