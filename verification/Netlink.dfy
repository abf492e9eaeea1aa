/** Byte-level view of netlink: fixed-width little-endian fields, 4-byte alignment, the 16-byte
    message header (section 2.3.2 of RFC 3549) and the walk over the messages of a datagram. */
module Netlink {
  import opened Sequences

  type Byte = x: nat | x < 0x100
  type U16 = x: nat | x < 0x1_0000
  type U32 = x: nat | x < 0x1_0000_0000

  const NLMSG_HDRLEN: nat := 16

  function Align4(n: nat): (r: nat)
    ensures r % 4 == 0 && n <= r < n + 4
  {
    (n + 3) / 4 * 4
  }

  function ReadU16(b: seq<Byte>, at: nat): U16
    requires at + 2 <= |b|
  {
    var low: nat, high: nat := b[at], b[at + 1];
    low + 0x100 * high
  }

  function ReadU32(b: seq<Byte>, at: nat): U32
    requires at + 4 <= |b|
  {
    var low: nat, high: nat := ReadU16(b, at), ReadU16(b, at + 2);
    low + 0x1_0000 * high
  }

  function Bytes16(x: U16): (b: seq<Byte>)
    ensures |b| == 2 && ReadU16(b, 0) == x
  {
    [x % 0x100, x / 0x100]
  }

  function Bytes32(x: U32): (b: seq<Byte>)
    ensures |b| == 4 && ReadU32(b, 0) == x
  {
    Bytes16(x % 0x1_0000) + Bytes16(x / 0x1_0000)
  }

  function Zeros(n: nat): (b: seq<Byte>)
    ensures |b| == n && forall i :: 0 <= i < n ==> b[i] == 0
  {
    seq(n, _ => 0)
  }

  function Padding(n: nat): seq<Byte> {
    Zeros(Align4(n) - n)
  }

  datatype Header = Header(len: U32, typ: U16, flags: U16, seqno: U32, pid: U32)

  /** A message found in a datagram: where it starts and what its header says. */
  datatype Message = Message(at: nat, hdr: Header)

  function ReadHeader(b: seq<Byte>, at: nat): Header
    requires at + NLMSG_HDRLEN <= |b|
  {
    Header(ReadU32(b, at), ReadU16(b, at + 4), ReadU16(b, at + 6), ReadU32(b, at + 8), ReadU32(b, at + 12))
  }

  function HeaderBytes(h: Header): (b: seq<Byte>)
    ensures |b| == NLMSG_HDRLEN
  {
    Bytes32(h.len) + Bytes16(h.typ) + Bytes16(h.flags) + Bytes32(h.seqno) + Bytes32(h.pid)
  }

  /** Whether a message starts at `at` with `remain` bytes of the datagram left.  `remain` is signed:
      stepping over an unaligned last message can take it below zero. */
  predicate MessageOk(b: seq<Byte>, at: nat, remain: int)
    requires remain == |b| - at
  {
    remain >= NLMSG_HDRLEN && NLMSG_HDRLEN <= ReadU32(b, at) <= remain
  }

  /** The messages of datagram `b` from offset `at` on. */
  function Messages(b: seq<Byte>, at: nat): seq<Message>
    decreases |b| - at
  {
    if MessageOk(b, at, |b| - at) then
      var h := ReadHeader(b, at);
      [Message(at, h)] + Messages(b, at + Align4(h.len))
    else
      []
  }

  /** Where the walk from offset `at` stops. */
  function Stop(b: seq<Byte>, at: nat): nat
    decreases |b| - at
  {
    if MessageOk(b, at, |b| - at) then Stop(b, at + Align4(ReadU32(b, at))) else at
  }

  /** The signed count of bytes the walk leaves behind. */
  function Leftover(b: seq<Byte>, at: nat): int { |b| - Stop(b, at) }

  /** The walk as the receiver runs it: one cursor, one signed remainder. */
  method WalkDatagram(b: seq<Byte>) returns (msgs: seq<Message>, remain: int)
    ensures msgs == Messages(b, 0) && remain == Leftover(b, 0)
  {
    msgs := [];
    var hdr := 0;
    remain := |b|;
    while MessageOk(b, hdr, remain)
      invariant remain == |b| - hdr
      invariant msgs + Messages(b, hdr) == Messages(b, 0)
      invariant Stop(b, hdr) == Stop(b, 0)
      decreases remain
    {
      var h := ReadHeader(b, hdr);
      assert msgs + Messages(b, hdr) == (msgs + [Message(hdr, h)]) + Messages(b, hdr + Align4(h.len));
      msgs := msgs + [Message(hdr, h)];
      remain := remain - Align4(h.len);
      hdr := hdr + Align4(h.len);
    }
  }

  ghost predicate InsideFrom(b: seq<Byte>, at: nat, m: Message) {
    && at <= m.at && m.at % 4 == 0 && NLMSG_HDRLEN <= m.hdr.len && m.at + m.hdr.len <= |b|
    && m.hdr == ReadHeader(b, m.at)
  }

  /** Every message the walk yields lies inside the received bytes, starts on a 4-byte boundary and
      begins right where the padding of the previous one ends. */
  lemma {:induction false} WalkStaysInside(b: seq<Byte>, at: nat)
    requires at % 4 == 0
    ensures var ms := Messages(b, at);
            && (forall i :: 0 <= i < |ms| ==> InsideFrom(b, at, ms[i]))
            && (forall i :: 0 <= i < |ms| - 1 ==> ms[i + 1].at == ms[i].at + Align4(ms[i].hdr.len))
            && (ms != [] ==> ms[0].at == at)
    decreases |b| - at
  {
    if MessageOk(b, at, |b| - at) {
      var next := at + Align4(ReadU32(b, at));
      WalkUnfolds(b, at);
      AlignedSum(at, Align4(ReadU32(b, at)));
      WalkStaysInside(b, next);
      forall m | InsideFrom(b, next, m) ensures InsideFrom(b, at, m) {
      }
    }
  }

  lemma {:induction false} WalkStops(b: seq<Byte>, at: nat)
    ensures var stop := Stop(b, at); stop >= at && !MessageOk(b, stop, |b| - stop)
    decreases |b| - at
  {
    if MessageOk(b, at, |b| - at) {
      WalkStops(b, at + Align4(ReadU32(b, at)));
    }
  }

  lemma {:induction false} StopIsAligned(b: seq<Byte>, at: nat)
    requires at % 4 == 0
    ensures Stop(b, at) % 4 == 0
    decreases |b| - at
  {
    if MessageOk(b, at, |b| - at) {
      AlignedSum(at, Align4(ReadU32(b, at)));
      StopIsAligned(b, at + Align4(ReadU32(b, at)));
    }
  }

  lemma {:induction false} StopIsClose(b: seq<Byte>, at: nat)
    requires at <= |b|
    ensures Stop(b, at) < |b| + 4
    decreases |b| - at
  {
    if MessageOk(b, at, |b| - at) {
      var next := at + Align4(ReadU32(b, at));
      if next <= |b| {
        StopIsClose(b, next);
      }
    }
  }

  lemma PastTheEnd(n: nat, stop: nat)
    requires stop % 4 == 0 && stop < n + 4
    ensures stop <= n || n % 4 != 0
  {
  }

  /** The walk goes on as long as it can: what is left over holds no well-formed message, and the
      receiver reports an invalid message exactly when the left-over count is not zero. */
  lemma {:induction false} WalkIsMaximal(b: seq<Byte>, at: nat)
    requires at % 4 == 0
    ensures var stop := Stop(b, at);
            stop >= at && stop % 4 == 0 && !MessageOk(b, stop, |b| - stop)
            && (Leftover(b, at) >= 0 || (|b| % 4 != 0 && Leftover(b, at) > -4) || at > |b|)
  {
    WalkStops(b, at);
    StopIsAligned(b, at);
    if at <= |b| {
      StopIsClose(b, at);
      PastTheEnd(|b|, Stop(b, at));
    }
  }

  // ----- encoding, the partner of the walk

  /** A message to send: header fields other than the length, and the payload behind the header. */
  datatype Draft = Draft(typ: U16, flags: U16, seqno: U32, pid: U32, payload: seq<Byte>)

  predicate Encodable(d: Draft) {
    NLMSG_HDRLEN + |d.payload| < 0x1_0000_0000
  }

  function DraftHeader(d: Draft): Header
    requires Encodable(d)
  {
    Header(NLMSG_HDRLEN + |d.payload|, d.typ, d.flags, d.seqno, d.pid)
  }

  function EncodeMessage(d: Draft): (b: seq<Byte>)
    requires Encodable(d)
    ensures |b| == Align4(NLMSG_HDRLEN + |d.payload|)
  {
    HeaderBytes(DraftHeader(d)) + d.payload + Padding(NLMSG_HDRLEN + |d.payload|)
  }

  function EncodeDatagram(ds: seq<Draft>): seq<Byte>
    requires forall d :: d in ds ==> Encodable(d)
  {
    if ds == [] then [] else EncodeMessage(ds[0]) + EncodeDatagram(ds[1..])
  }

  /** What a receiver takes from message `m` of datagram `b`. */
  function Decoded(b: seq<Byte>, m: Message): Draft
    requires m.at + m.hdr.len <= |b| && m.hdr.len >= NLMSG_HDRLEN
  {
    Draft(m.hdr.typ, m.hdr.flags, m.hdr.seqno, m.hdr.pid, b[m.at + NLMSG_HDRLEN..m.at + m.hdr.len])
  }

  lemma AlignedSum(a: nat, b: nat)
    requires a % 4 == 0 && b % 4 == 0
    ensures (a + b) % 4 == 0
  {
  }

  lemma ReadShift(pre: seq<Byte>, b: seq<Byte>, post: seq<Byte>, at: nat)
    requires at + 4 <= |b|
    ensures ReadU32(pre + b + post, |pre| + at) == ReadU32(b, at)
    ensures ReadU16(pre + b + post, |pre| + at) == ReadU16(b, at)
    ensures ReadU16(pre + b + post, |pre| + at + 2) == ReadU16(b, at + 2)
  {
    var w := pre + b + post;
    assert forall i :: 0 <= i < |b| ==> w[|pre| + i] == b[i];
  }

  lemma HeaderRoundTrip(h: Header, pre: seq<Byte>, post: seq<Byte>)
    ensures ReadHeader(pre + HeaderBytes(h) + post, |pre|) == h
  {
    var b := HeaderBytes(h);
    ReadShift(pre, b, post, 0);
    ReadShift(pre, b, post, 4);
    ReadShift(pre, b, post, 8);
    ReadShift(pre, b, post, 12);
    assert b[0..4] == Bytes32(h.len) && b[8..12] == Bytes32(h.seqno) && b[12..16] == Bytes32(h.pid);
    assert b[4..6] == Bytes16(h.typ) && b[6..8] == Bytes16(h.flags);
    assert ReadU32(b, 0) == ReadU32(b[0..4], 0);
    assert ReadU32(b, 8) == ReadU32(b[8..12], 0) && ReadU32(b, 12) == ReadU32(b[12..16], 0);
    assert ReadU16(b, 4) == ReadU16(b[4..6], 0) && ReadU16(b, 6) == ReadU16(b[6..8], 0);
  }

  lemma WalkUnfolds(b: seq<Byte>, at: nat)
    requires MessageOk(b, at, |b| - at)
    ensures var h := ReadHeader(b, at);
            && Messages(b, at) == [Message(at, h)] + Messages(b, at + Align4(h.len))
            && Stop(b, at) == Stop(b, at + Align4(h.len))
  {
  }

  lemma EncodedDraft(d: Draft, pre: seq<Byte>, rest: seq<Byte>)
    requires Encodable(d)
    ensures var b := pre + EncodeMessage(d) + rest;
            && |pre| + DraftHeader(d).len <= |b|
            && ReadHeader(b, |pre|) == DraftHeader(d)
            && MessageOk(b, |pre|, |b| - |pre|)
            && b[|pre| + NLMSG_HDRLEN..|pre| + DraftHeader(d).len] == d.payload
  {
    var b := pre + EncodeMessage(d) + rest;
    var hb, pad := HeaderBytes(DraftHeader(d)), Padding(NLMSG_HDRLEN + |d.payload|);
    assert b == pre + hb + (d.payload + pad + rest);
    HeaderRoundTrip(DraftHeader(d), pre, d.payload + pad + rest);
  }

  lemma TakesDraft(b: seq<Byte>, at: nat, d: Draft)
    requires Encodable(d) && at % 4 == 0 && MessageOk(b, at, |b| - at) && at + DraftHeader(d).len <= |b|
    requires ReadHeader(b, at) == DraftHeader(d) && b[at + NLMSG_HDRLEN..at + DraftHeader(d).len] == d.payload
    ensures var next := at + Align4(DraftHeader(d).len);
            && next % 4 == 0
            && Decoded(b, Message(at, DraftHeader(d))) == d
            && Messages(b, at) == [Message(at, DraftHeader(d))] + Messages(b, next)
            && Stop(b, at) == Stop(b, next)
  {
    WalkUnfolds(b, at);
    AlignedSum(at, Align4(DraftHeader(d).len));
  }

  /** The walk takes the first encoded message off the front, whole and alone. */
  lemma FirstMessage(d: Draft, pre: seq<Byte>, rest: seq<Byte>)
    requires Encodable(d) && |pre| % 4 == 0
    ensures var b := pre + EncodeMessage(d) + rest;
            var next := |pre + EncodeMessage(d)|;
            && MessageOk(b, |pre|, |b| - |pre|)
            && ReadHeader(b, |pre|) == DraftHeader(d)
            && next == |pre| + Align4(DraftHeader(d).len) && next % 4 == 0
            && |pre| + DraftHeader(d).len <= |b|
            && Decoded(b, Message(|pre|, DraftHeader(d))) == d
            && Messages(b, |pre|) == [Message(|pre|, DraftHeader(d))] + Messages(b, next)
            && Leftover(b, |pre|) == Leftover(b, next)
  {
    EncodedDraft(d, pre, rest);
    TakesDraft(pre + EncodeMessage(d) + rest, |pre|, d);
  }

  /** The messages `ms` of `b` are the drafts `ds`: same number, same fields, same payloads. */
  ghost predicate Carries(b: seq<Byte>, ms: seq<Message>, ds: seq<Draft>) {
    && |ms| == |ds|
    && forall i :: 0 <= i < |ms| ==>
         ms[i].hdr.len >= NLMSG_HDRLEN && ms[i].at + ms[i].hdr.len <= |b| && Decoded(b, ms[i]) == ds[i]
  }

  lemma CarriesMore(b: seq<Byte>, m: Message, ms: seq<Message>, ds: seq<Draft>)
    requires ds != [] && Carries(b, ms, ds[1..]) && Carries(b, [m], [ds[0]])
    ensures Carries(b, [m] + ms, ds)
  {
    assert Decoded(b, [m][0]) == ds[0];
    assert forall i :: 0 < i < |ds| ==> ds[i] == ds[1..][i - 1];
  }

  /** Walking an encoded datagram, wherever it sits behind `pre`, gives back the encoded messages,
      field for field and payload for payload, and leaves nothing over. */
  lemma {:induction false} DatagramRoundTrip(ds: seq<Draft>, pre: seq<Byte>)
    requires forall d :: d in ds ==> Encodable(d)
    requires |pre| % 4 == 0
    ensures var b := pre + EncodeDatagram(ds);
            Carries(b, Messages(b, |pre|), ds) && Leftover(b, |pre|) == 0
    decreases |ds|
  {
    var b := pre + EncodeDatagram(ds);
    if ds == [] {
      assert b == pre;
    } else {
      var d, next := ds[0], pre + EncodeMessage(ds[0]);
      FirstMessage(d, pre, EncodeDatagram(ds[1..]));
      Regroup(pre, EncodeMessage(d), EncodeDatagram(ds[1..]));
      DatagramRoundTrip(ds[1..], next);
      CarriesMore(b, Message(|pre|, DraftHeader(d)), Messages(b, |next|), ds);
    }
  }
}
