/** From values to the table: a reply is built byte by byte, as the kernel lays it out, and each parameter then
    shows the value that was put in. */
module IfStatValues {
  import opened Sequences
  import opened Netlink
  import opened Attributes
  import opened Tables
  import opened IfStatMessage
  import opened IfStatDigest

  // ----- bytes, least significant first

  function Le(n: nat, width: nat): (b: seq<Byte>)
    ensures |b| == width
  {
    if width == 0 then [] else [n % 0x100] + Le(n / 0x100, width - 1)
  }

  type Int64 = x: int | -0x8000_0000_0000_0000 <= x < 0x8000_0000_0000_0000

  /** Two's complement. */
  function Signed(x: Int64): seq<Byte> { Le(if x < 0 then x + 0x1_0000_0000_0000_0000 else x, 8) }

  lemma {:induction false} ReadsLe16(b: seq<Byte>, at: nat, n: U16)
    requires at + 2 <= |b| && b[at..at + 2] == Le(n, 2)
    ensures ReadU16(b, at) == n
  {
    LeStep(b, at, n, 2);
    LeStep(b, at + 1, n / 0x100, 1);
  }

  /** A byte, and the rest of them. */
  lemma {:induction false} LeStep(b: seq<Byte>, at: nat, n: nat, width: nat)
    requires 0 < width && at + width <= |b| && b[at..at + width] == Le(n, width)
    ensures b[at] == n % 0x100 && b[at + 1..at + width] == Le(n / 0x100, width - 1)
  {
    var s := b[at..at + width];
    assert b[at] == s[0] && b[at + 1..at + width] == s[1..];
  }

  /** The lower two bytes, and the rest of them. */
  lemma {:induction false} LeSplit(n: nat, width: nat)
    requires width >= 2
    ensures Le(n, width) == Le(n % 0x1_0000, 2) + Le(n / 0x1_0000, width - 2)
  {
    assert Le(n, width) == [n % 0x100] + ([n / 0x100 % 0x100] + Le(n / 0x100 / 0x100, width - 2));
    Bytes(n);
    assert Le(n % 0x1_0000, 2) == [n % 0x100, n / 0x100 % 0x100];
  }

  lemma {:induction false} Bytes(n: nat)
    ensures n / 0x100 / 0x100 == n / 0x1_0000
    ensures n % 0x1_0000 % 0x100 == n % 0x100 && n % 0x1_0000 / 0x100 % 0x100 == n / 0x100 % 0x100
    ensures n % 0x1_0000 / 0x100 / 0x100 == 0
  {
  }

  lemma {:induction false} ReadsLe32(b: seq<Byte>, at: nat, n: U32)
    requires at + 4 <= |b| && b[at..at + 4] == Le(n, 4)
    ensures ReadU32(b, at) == n
  {
    LeSplit(n, 4);
    Slices(b, at, Le(n % 0x1_0000, 2), Le(n / 0x1_0000, 2));
    ReadsLe16(b, at, n % 0x1_0000);
    ReadsLe16(b, at + 2, n / 0x1_0000);
  }

  lemma {:induction false} LeHalves(n: nat)
    ensures Le(n, 8) == Le(n % 0x1_0000_0000, 4) + Le(n / 0x1_0000_0000, 4)
  {
    LeSplit(n, 8);
    LeSplit(n / 0x1_0000, 6);
    Words(n);
    LeSplit(n % 0x1_0000_0000, 4);
    Regroup(Le(n % 0x1_0000, 2), Le(n / 0x1_0000 % 0x1_0000, 2), Le(n / 0x1_0000_0000, 4));
  }

  lemma {:induction false} ReadsLe64(b: seq<Byte>, at: nat, n: nat)
    requires at + 8 <= |b| && n < 0x1_0000_0000_0000_0000 && b[at..at + 8] == Le(n, 8)
    ensures ReadU64(b, at) == n
  {
    LeHalves(n);
    Slices(b, at, Le(n % 0x1_0000_0000, 4), Le(n / 0x1_0000_0000, 4));
    ReadsLe32(b, at, n % 0x1_0000_0000);
    ReadsLe32(b, at + 4, n / 0x1_0000_0000);
  }

  lemma {:induction false} Words(n: nat)
    ensures n / 0x1_0000 / 0x1_0000 == n / 0x1_0000_0000
    ensures n % 0x1_0000_0000 % 0x1_0000 == n % 0x1_0000
    ensures n % 0x1_0000_0000 / 0x1_0000 == n / 0x1_0000 % 0x1_0000
  {
  }

  lemma {:induction false} Slices(b: seq<Byte>, at: nat, low: seq<Byte>, high: seq<Byte>)
    requires at + |low| + |high| <= |b| && b[at..at + |low| + |high|] == low + high
    ensures b[at..at + |low|] == low && b[at + |low|..at + |low| + |high|] == high
  {
    var s := b[at..at + |low| + |high|];
    assert s[..|low|] == low && s[|low|..] == high;
    assert b[at..at + |low|] == s[..|low|] && b[at + |low|..at + |low| + |high|] == s[|low|..];
  }

  // ----- what the kernel knows about an interface

  /** The counters of the kernel's structure, in its order. */
  datatype LinkStats64 = LinkStats64(
    rx_packets: Int64, tx_packets: Int64, rx_bytes: Int64, tx_bytes: Int64, rx_errors: Int64, tx_errors: Int64,
    rx_dropped: Int64, tx_dropped: Int64, multicast: Int64, collisions: Int64, rx_length_errors: Int64,
    rx_over_errors: Int64, rx_crc_errors: Int64, rx_frame_errors: Int64, rx_fifo_errors: Int64,
    rx_missed_errors: Int64, tx_aborted_errors: Int64, tx_carrier_errors: Int64, tx_fifo_errors: Int64,
    tx_heartbeat_errors: Int64, tx_window_errors: Int64, rx_compressed: Int64, tx_compressed: Int64,
    rx_nohandler: Int64)

  function Counters(s: LinkStats64): (xs: seq<Int64>)
    ensures |xs| == 24
  {
    [
    s.rx_packets, s.tx_packets, s.rx_bytes, s.tx_bytes, s.rx_errors, s.tx_errors, s.rx_dropped, s.tx_dropped,
    s.multicast, s.collisions, s.rx_length_errors, s.rx_over_errors, s.rx_crc_errors, s.rx_frame_errors,
    s.rx_fifo_errors, s.rx_missed_errors, s.tx_aborted_errors, s.tx_carrier_errors, s.tx_fifo_errors,
    s.tx_heartbeat_errors, s.tx_window_errors, s.rx_compressed, s.tx_compressed, s.rx_nohandler
    ]
  }

  datatype Link = Link(flags: U32, stats: LinkStats64, operstate: Byte, carrier: Byte, linkmode: Byte,
                       mtu: U32, carrierUps: U32, carrierDowns: U32)

  function SignedAll(xs: seq<Int64>): (b: seq<Byte>)
    ensures |b| == 8 * |xs|
  {
    if xs == [] then [] else Signed(xs[0]) + SignedAll(xs[1..])
  }

  /** The attributes that tell it; each may go on with further bytes, and the structure with further counters. */
  function LinkAttrs(v: Link, more: seq<Byte>): (attrs: seq<Attr>)
    ensures |attrs| == 7
  {
    [Attr(23, SignedAll(Counters(v.stats)) + more),
     Attr(16, [v.operstate] + more), Attr(33, [v.carrier] + more), Attr(17, [v.linkmode] + more),
     Attr(4, Le(v.mtu, 4) + more), Attr(47, Le(v.carrierUps, 4) + more), Attr(48, Le(v.carrierDowns, 4) + more)]
  }

  function AttrBytes(a: Attr): seq<Byte> {
    Le(4 + |a.payload|, 2) + Le(a.typ, 2) + a.payload + Zeros((4 - |a.payload| % 4) % 4)
  }

  function AttrsBytes(attrs: seq<Attr>): seq<Byte> {
    if attrs == [] then [] else AttrBytes(attrs[0]) + AttrsBytes(attrs[1..])
  }

  /** A message: the netlink header and the first half of the service template, the flags, the rest of the
      template, and the attributes. */
  function LinkMessage(front: seq<Byte>, flags: U32, change: seq<Byte>, attrs: seq<Attr>): seq<Byte> {
    front + Le(flags, 4) + change + AttrsBytes(attrs)
  }

  // ----- what the table shows

  predicate Shown(row: Row, name: string, n: int) { name in row && row[name] == Int(n, "") }

  predicate ShowsStats(row: Row, s: LinkStats64) {
    && Shown(row, "rx_packets", s.rx_packets) && Shown(row, "tx_packets", s.tx_packets)
    && Shown(row, "rx_bytes", s.rx_bytes) && Shown(row, "tx_bytes", s.tx_bytes)
    && Shown(row, "rx_errors", s.rx_errors) && Shown(row, "tx_errors", s.tx_errors)
    && Shown(row, "rx_dropped", s.rx_dropped) && Shown(row, "tx_dropped", s.tx_dropped)
    && Shown(row, "multicast", s.multicast) && Shown(row, "collisions", s.collisions)
    && Shown(row, "rx_length_errors", s.rx_length_errors) && Shown(row, "rx_over_errors", s.rx_over_errors)
    && Shown(row, "rx_crc_errors", s.rx_crc_errors) && Shown(row, "rx_frame_errors", s.rx_frame_errors)
    && Shown(row, "rx_fifo_errors", s.rx_fifo_errors) && Shown(row, "rx_missed_errors", s.rx_missed_errors)
    && Shown(row, "tx_aborted_errors", s.tx_aborted_errors) && Shown(row, "tx_carrier_errors", s.tx_carrier_errors)
    && Shown(row, "tx_fifo_errors", s.tx_fifo_errors) && Shown(row, "tx_heartbeat_errors", s.tx_heartbeat_errors)
    && Shown(row, "tx_window_errors", s.tx_window_errors) && Shown(row, "rx_compressed", s.rx_compressed)
    && Shown(row, "tx_compressed", s.tx_compressed) && Shown(row, "rx_nohandler", s.rx_nohandler)
  }

  predicate ShowsAttrs(row: Row, v: Link) {
    && ShowsStats(row, v.stats)
    && Shown(row, "operatate", v.operstate) && Shown(row, "carrier", v.carrier)
    && Shown(row, "linkmode", v.linkmode) && Shown(row, "mtu", v.mtu)
    && Shown(row, "carrier_up_count", v.carrierUps) && Shown(row, "carrier_down_count", v.carrierDowns)
  }

  // ----- the two encodings of attributes agree

  lemma {:induction false} SameAttrBytes(a: Attr)
    requires Attributes.Encodable(a)
    ensures AttrBytes(a) == EncodeAttr(a)
  {
    SameBytes16(4 + |a.payload|);
    SameBytes16(a.typ);
    SamePadding(|a.payload|);
  }

  lemma {:induction false} SameBytes16(n: U16)
    ensures Le(n, 2) == Bytes16(n)
  {
    assert Le(n, 2) == [n % 0x100] + ([n / 0x100 % 0x100] + []);
  }

  lemma {:induction false} SamePadding(n: nat)
    ensures (4 - n % 4) % 4 == Align4(RTA_HDRLEN + n) - (RTA_HDRLEN + n)
  {
  }

  lemma {:induction false} SameAttrsBytes(attrs: seq<Attr>)
    requires forall a :: a in attrs ==> Attributes.Encodable(a)
    ensures AttrsBytes(attrs) == EncodeAttrs(attrs)
    decreases |attrs|
  {
    if attrs != [] {
      SameAttrBytes(attrs[0]);
      SameAttrsBytes(attrs[1..]);
    }
  }

  // ----- the request, byte by byte

  lemma {:induction false} SameBytes32(n: U32)
    ensures Le(n, 4) == Bytes32(n)
  {
    LeSplit(n, 4);
    SameBytes16(n % 0x1_0000);
    SameBytes16(n / 0x1_0000);
  }

  lemma {:induction false} HeaderLayout(h: Header)
    ensures HeaderBytes(h) == Le(h.len, 4) + Le(h.typ, 2) + Le(h.flags, 2) + Le(h.seqno, 4) + Le(h.pid, 4)
  {
    SameBytes32(h.len);
    SameBytes16(h.typ);
    SameBytes16(h.flags);
    SameBytes32(h.seqno);
    SameBytes32(h.pid);
  }

  /** The request is what the kernel expects: length, RTM_GETLINK, NLM_F_REQUEST and NLM_F_ACK, no number and
      port yet, an empty template, and the interface name with its terminator, padded. */
  lemma {:induction false} RequestLayout(inst: string)
    requires IsName(inst) && 4 + |inst| + 1 < 0x1_0000
    ensures var m := RequestBytes(inst);
            var header := Le(|m|, 4) + Le(18, 2) + Le(1 + 4, 2) + Le(0, 4) + Le(0, 4);
            m == header + Zeros(16) + AttrBytes(Attr(3, NameBytes(inst) + [0]))
  {
    RequestHeader(inst);
    HeaderLayout(RequestHead(inst));
    SameAttrBytes(NameAttr(inst));
    EncodedName(inst);
  }

  // ----- one parameter

  ghost predicate LastOfType(attrs: seq<Attr>, k: nat, a: Attr) {
    k < |attrs| && attrs[k] == a && forall n :: k < n < |attrs| ==> attrs[n].typ != a.typ
  }

  lemma {:induction false} FromAttr(attrs: seq<Attr>, i: nat, name: string, value: Value)
    requires i < |attrs| && LastOfType(attrs, i, attrs[i])
    requires Sets(attrs[i], name) && Fold(Calls(attrs[i]))[name] == value
    ensures name in Fold(AllCalls(attrs)) && Fold(AllCalls(attrs))[name] == value
  {
    SetsTellsType(attrs[i], name);
    forall k | i < k < |attrs| ensures !Sets(attrs[k], name) {
      if Sets(attrs[k], name) {
        SetsTellsType(attrs[k], name);
      }
    }
    assert IsLastRow(Rows(attrs), name, i);
    LastLongEnoughWins(attrs, name);
  }

  lemma {:induction false} CounterBytes(xs: seq<Int64>, more: seq<Byte>, i: nat)
    requires i < |xs|
    ensures (SignedAll(xs) + more)[8 * i..8 * i + 8] == Signed(xs[i])
    decreases |xs|
  {
    var b := SignedAll(xs) + more;
    if i == 0 {
      assert b[0..8] == Signed(xs[0]);
    } else {
      var rest := SignedAll(xs[1..]) + more;
      CounterBytes(xs[1..], more, i - 1);
      assert b == Signed(xs[0]) + rest;
      assert b[8 * i..8 * i + 8] == rest[8 * (i - 1)..8 * (i - 1) + 8];
    }
  }

  lemma {:induction false} CounterReads(xs: seq<Int64>, more: seq<Byte>, i: nat)
    requires i < |xs|
    ensures AsInt64(ReadU64(SignedAll(xs) + more, 8 * i)) == xs[i]
  {
    CounterBytes(xs, more, i);
    var x: int := xs[i];
    ReadsLe64(SignedAll(xs) + more, 8 * i, if x < 0 then x + 0x1_0000_0000_0000_0000 else x);
  }

  lemma {:induction false} CounterArrives(xs: seq<Int64>, more: seq<Byte>, attrs: seq<Attr>, k: nat, i: nat)
    requires |xs| == 24 && i < 24 && LastOfType(attrs, k, Attr(23, SignedAll(xs) + more))
    ensures Shown(Fold(AllCalls(attrs)), STATS64[i], xs[i])
  {
    CounterAtItsPlace(attrs[k], i);
    CounterReads(xs, more, i);
    FromAttr(attrs, k, STATS64[i], Number(xs[i]));
  }

  lemma {:induction false} StatsArrive(s: LinkStats64, more: seq<Byte>, attrs: seq<Attr>, k: nat)
    requires LastOfType(attrs, k, Attr(23, SignedAll(Counters(s)) + more))
    ensures ShowsStats(Fold(AllCalls(attrs)), s)
  {
    forall i | 0 <= i < 24 ensures Shown(Fold(AllCalls(attrs)), STATS64[i], Counters(s)[i]) {
      CounterArrives(Counters(s), more, attrs, k, i);
    }
    CountersNamed(Fold(AllCalls(attrs)), s);
  }

  lemma {:induction false} CountersNamed(row: Row, s: LinkStats64)
    requires forall i :: 0 <= i < 24 ==> Shown(row, STATS64[i], Counters(s)[i])
    ensures ShowsStats(row, s)
  {
    assert Shown(row, STATS64[0], Counters(s)[0]) && Shown(row, STATS64[1], Counters(s)[1]);
    assert Shown(row, STATS64[2], Counters(s)[2]) && Shown(row, STATS64[3], Counters(s)[3]);
    assert Shown(row, STATS64[4], Counters(s)[4]) && Shown(row, STATS64[5], Counters(s)[5]);
    assert Shown(row, STATS64[6], Counters(s)[6]) && Shown(row, STATS64[7], Counters(s)[7]);
    assert Shown(row, STATS64[8], Counters(s)[8]) && Shown(row, STATS64[9], Counters(s)[9]);
    assert Shown(row, STATS64[10], Counters(s)[10]) && Shown(row, STATS64[11], Counters(s)[11]);
    assert Shown(row, STATS64[12], Counters(s)[12]) && Shown(row, STATS64[13], Counters(s)[13]);
    assert Shown(row, STATS64[14], Counters(s)[14]) && Shown(row, STATS64[15], Counters(s)[15]);
    assert Shown(row, STATS64[16], Counters(s)[16]) && Shown(row, STATS64[17], Counters(s)[17]);
    assert Shown(row, STATS64[18], Counters(s)[18]) && Shown(row, STATS64[19], Counters(s)[19]);
    assert Shown(row, STATS64[20], Counters(s)[20]) && Shown(row, STATS64[21], Counters(s)[21]);
    assert Shown(row, STATS64[22], Counters(s)[22]) && Shown(row, STATS64[23], Counters(s)[23]);
  }

  lemma {:induction false} ByteArrives(name: string, typ: U16, x: Byte, more: seq<Byte>, attrs: seq<Attr>, k: nat)
    requires (name == "operatate" && typ == 16) || (name == "carrier" && typ == 33) || (name == "linkmode" && typ == 17)
    requires LastOfType(attrs, k, Attr(typ, [x] + more))
    ensures Shown(Fold(AllCalls(attrs)), name, x)
  {
    assert Calls(attrs[k]) == [SetCall(name, Number(x))];
    OneCall(name, Number(x));
    FromAttr(attrs, k, name, Number(x));
  }

  lemma {:induction false} OneCall(name: string, value: Value)
    ensures var row := Fold([SetCall(name, value)]); name in row && row[name] == value
  {
  }

  lemma {:induction false} WordArrives(name: string, typ: U16, x: U32, more: seq<Byte>, attrs: seq<Attr>, k: nat)
    requires (name == "mtu" && typ == 4) || (name == "carrier_up_count" && typ == 47)
             || (name == "carrier_down_count" && typ == 48)
    requires LastOfType(attrs, k, Attr(typ, Le(x, 4) + more))
    ensures Shown(Fold(AllCalls(attrs)), name, x)
  {
    var b := Le(x, 4) + more;
    assert b[0..4] == Le(x, 4);
    ReadsLe32(b, 0, x);
    assert Calls(attrs[k]) == [SetCall(name, Number(x))];
    OneCall(name, Number(x));
    FromAttr(attrs, k, name, Number(x));
  }

  // ----- all of them

  lemma {:induction false} HeadName(name: string, a: Attr)
    requires name == "name" || name == "if_flags"
    ensures !Sets(a, name)
  {
    if Sets(a, name) {
      SetIsFound(Calls(a), name);
      if name in STATS64 {
        CounterNames(name);
      }
    }
  }

  lemma {:induction false} HeadStays(name: string, attrs: seq<Attr>)
    requires name == "name" || name == "if_flags"
    ensures name !in Fold(AllCalls(attrs))
  {
    LastLongEnoughWins(attrs, name);
    forall i | 0 <= i < |attrs| ensures !Sets(attrs[i], name) {
      HeadName(name, attrs[i]);
    }
  }

  lemma {:induction false} HeadArrives(inst: string, front: seq<Byte>, flags: U32, change: seq<Byte>)
    requires |front| == NLMSG_HDRLEN + 8 && |change| == 4
    ensures var row := Fold(HeadCalls(inst, front + Le(flags, 4) + change));
            "name" in row && row["name"] == Text(inst) && Shown(row, "if_flags", flags)
  {
    var m := front + Le(flags, 4) + change;
    assert m[NLMSG_HDRLEN + 8..NLMSG_HDRLEN + 12] == Le(flags, 4);
    ReadsLe32(m, NLMSG_HDRLEN + 8, flags);
    var calls := HeadCalls(inst, m);
    LastSetWins(calls, "name", 0);
    LastSetWins(calls, "if_flags", 1);
  }

  lemma {:induction false} EachIsLast(own: seq<Attr>, others: seq<Attr>, i: nat)
    requires i < |own| && forall n :: i < n < |own| ==> own[n].typ != own[i].typ
    ensures LastOfType(others + own, |others| + i, own[i])
  {
    var attrs, k := others + own, |others|;
    forall n | k + i < n < |attrs| ensures attrs[n].typ != own[i].typ {
      assert attrs[n] == own[n - k];
    }
  }

  lemma {:induction false} BytesArrive(v: Link, more: seq<Byte>, others: seq<Attr>)
    ensures var row := Fold(AllCalls(others + LinkAttrs(v, more)));
            && Shown(row, "operatate", v.operstate) && Shown(row, "carrier", v.carrier)
            && Shown(row, "linkmode", v.linkmode)
  {
    var own, k := LinkAttrs(v, more), |others|;
    EachIsLast(own, others, 1);
    ByteArrives("operatate", 16, v.operstate, more, others + own, k + 1);
    EachIsLast(own, others, 2);
    ByteArrives("carrier", 33, v.carrier, more, others + own, k + 2);
    EachIsLast(own, others, 3);
    ByteArrives("linkmode", 17, v.linkmode, more, others + own, k + 3);
  }

  lemma {:induction false} WordsArrive(v: Link, more: seq<Byte>, others: seq<Attr>)
    ensures var row := Fold(AllCalls(others + LinkAttrs(v, more)));
            && Shown(row, "mtu", v.mtu)
            && Shown(row, "carrier_up_count", v.carrierUps) && Shown(row, "carrier_down_count", v.carrierDowns)
  {
    var own, k := LinkAttrs(v, more), |others|;
    EachIsLast(own, others, 4);
    WordArrives("mtu", 4, v.mtu, more, others + own, k + 4);
    EachIsLast(own, others, 5);
    WordArrives("carrier_up_count", 47, v.carrierUps, more, others + own, k + 5);
    EachIsLast(own, others, 6);
    WordArrives("carrier_down_count", 48, v.carrierDowns, more, others + own, k + 6);
  }

  lemma {:induction false} AttrsArrive(v: Link, more: seq<Byte>, others: seq<Attr>)
    ensures ShowsAttrs(Fold(AllCalls(others + LinkAttrs(v, more))), v)
  {
    EachIsLast(LinkAttrs(v, more), others, 0);
    StatsArrive(v.stats, more, others + LinkAttrs(v, more), |others|);
    BytesArrive(v, more, others);
    WordsArrive(v, more, others);
  }

  lemma {:induction false} DigestOfLink(inst: string, front: seq<Byte>, flags: U32, change: seq<Byte>, attrs: seq<Attr>)
    requires |front| == NLMSG_HDRLEN + 8 && |change| == 4
    requires forall a :: a in attrs ==> Attributes.Encodable(a)
    requires |LinkMessage(front, flags, change, attrs)| < 0x1_0000_0000
    ensures Fold(DigestCalls(inst, LinkMessage(front, flags, change, attrs)))
            == Fold(HeadCalls(inst, front + Le(flags, 4) + change)) + Fold(AllCalls(attrs))
  {
    var pre := front + Le(flags, 4) + change;
    SameAttrsBytes(attrs);
    DigestOfReply(inst, pre, attrs);
    FoldConcat(HeadCalls(inst, pre), AllCalls(attrs));
  }

  /** Whatever a link message says of an interface is what the table then shows: every counter as the signed
      64-bit number it is, under its own name, and the other values; whatever else the message carries in
      front, and however much longer than expected its attributes are. */
  lemma {:induction false} ValuesArrive(inst: string, front: seq<Byte>, v: Link, change: seq<Byte>, more: seq<Byte>,
                                        others: seq<Attr>)
    requires |front| == NLMSG_HDRLEN + 8 && |change| == 4
    requires forall a :: a in others + LinkAttrs(v, more) ==> Attributes.Encodable(a)
    requires |LinkMessage(front, v.flags, change, others + LinkAttrs(v, more))| < 0x1_0000_0000
    ensures var row := Fold(DigestCalls(inst, LinkMessage(front, v.flags, change, others + LinkAttrs(v, more))));
            "name" in row && row["name"] == Text(inst) && Shown(row, "if_flags", v.flags) && ShowsAttrs(row, v)
  {
    var attrs := others + LinkAttrs(v, more);
    DigestOfLink(inst, front, v.flags, change, attrs);
    HeadArrives(inst, front, v.flags, change);
    HeadStays("name", attrs);
    HeadStays("if_flags", attrs);
    AttrsArrive(v, more, others);
  }
}
