/** The walk over the 4-byte-aligned, length-prefixed attributes of a route netlink message, with the
    unsigned 32-bit count of remaining bytes it is run on, and the encoding it inverts. */
module Attributes {
  import opened Sequences
  import opened Netlink

  const RTA_HDRLEN: nat := 4

  datatype Attr = Attr(typ: U16, payload: seq<Byte>)

  /** The attributes seen, and either the bytes left over or the finding that the walk left the message. */
  datatype Walked = Done(attrs: seq<Attr>, remaining: U32) | Overrun(attrs: seq<Attr>)

  function Minus(a: U32, b: nat): U32
    requires b < 0x1_0000_0000
  {
    if a >= b then a - b else a + 0x1_0000_0000 - b
  }

  function Cons(a: Attr, w: Walked): Walked { w.(attrs := [a] + w.attrs) }

  /** The walk from `at` with `remaining` bytes believed to be left of message `m`.  A header or an
      attribute outside `m` is an overrun. */
  function WalkAttrs(m: seq<Byte>, at: nat, remaining: U32): Walked
    decreases if at < |m| then |m| - at else 0
  {
    if remaining < RTA_HDRLEN then Done([], remaining)
    else if at + RTA_HDRLEN > |m| then Overrun([])
    else
      var len := ReadU16(m, at);
      if !(RTA_HDRLEN <= len <= remaining) then Done([], remaining)
      else if at + len > |m| then Overrun([])
      else
        Cons(Attr(ReadU16(m, at + 2), m[at + RTA_HDRLEN..at + len]),
             WalkAttrs(m, at + Align4(len), Minus(remaining, Align4(len))))
  }

  // ----- the encoding

  predicate Encodable(a: Attr) { RTA_HDRLEN + |a.payload| < 0x1_0000 }

  function EncodeAttr(a: Attr): (b: seq<Byte>)
    requires Encodable(a)
    ensures |b| == Align4(RTA_HDRLEN + |a.payload|)
  {
    Bytes16(RTA_HDRLEN + |a.payload|) + Bytes16(a.typ) + a.payload + Padding(RTA_HDRLEN + |a.payload|)
  }

  function EncodeAttrs(attrs: seq<Attr>): (b: seq<Byte>)
    requires forall a :: a in attrs ==> Encodable(a)
    ensures |b| % 4 == 0
  {
    if attrs == [] then []
    else
      AlignedSum(|EncodeAttr(attrs[0])|, |EncodeAttrs(attrs[1..])|);
      EncodeAttr(attrs[0]) + EncodeAttrs(attrs[1..])
  }

  lemma AttrHeader(a: Attr, pre: seq<Byte>, rest: seq<Byte>)
    requires Encodable(a)
    ensures var m := pre + EncodeAttr(a) + rest;
            && ReadU16(m, |pre|) == RTA_HDRLEN + |a.payload|
            && ReadU16(m, |pre| + 2) == a.typ
            && m[|pre| + RTA_HDRLEN..|pre| + RTA_HDRLEN + |a.payload|] == a.payload
  {
    var b := EncodeAttr(a);
    ReadShift(pre, b, rest, 0);
    assert b[0..2] == Bytes16(RTA_HDRLEN + |a.payload|) && b[2..4] == Bytes16(a.typ);
    assert ReadU16(b, 0) == ReadU16(b[0..2], 0) && ReadU16(b, 2) == ReadU16(b[2..4], 0);
  }

  /** The walk takes the first encoded attribute off the front. */
  lemma FirstAttr(a: Attr, pre: seq<Byte>, rest: seq<Byte>)
    requires Encodable(a) && |EncodeAttr(a) + rest| < 0x1_0000_0000
    ensures var m := pre + EncodeAttr(a) + rest;
            WalkAttrs(m, |pre|, |m| - |pre|) == Cons(a, WalkAttrs(m, |pre + EncodeAttr(a)|, |rest|))
  {
    AttrHeader(a, pre, rest);
  }

  /** Walking the encoding of a list of attributes gives back exactly that list, with nothing left over
      and without leaving the message. */
  lemma {:induction false} AttrsRoundTrip(attrs: seq<Attr>, pre: seq<Byte>)
    requires forall a :: a in attrs ==> Encodable(a)
    requires |EncodeAttrs(attrs)| < 0x1_0000_0000
    ensures var m := pre + EncodeAttrs(attrs);
            WalkAttrs(m, |pre|, |EncodeAttrs(attrs)|) == Done(attrs, 0)
    decreases |attrs|
  {
    if attrs != [] {
      var a, rest := attrs[0], EncodeAttrs(attrs[1..]);
      Regroup(pre, EncodeAttr(a), rest);
      FirstAttr(a, pre, rest);
      AttrsRoundTrip(attrs[1..], pre + EncodeAttr(a));
      assert [a] + attrs[1..] == attrs;
    }
  }

  // ----- when the walk stays inside the message

  /** If the bytes left are a multiple of four, the count never wraps and the walk stays inside. */
  lemma {:induction false} AlignedWalkStaysInside(m: seq<Byte>, at: nat)
    requires at <= |m| && |m| - at < 0x1_0000_0000 && (|m| - at) % 4 == 0
    ensures var w := WalkAttrs(m, at, |m| - at); w.Done? && w.remaining <= |m| - at
    decreases |m| - at
  {
    var remaining := |m| - at;
    if remaining >= RTA_HDRLEN {
      var len := ReadU16(m, at);
      if RTA_HDRLEN <= len <= remaining {
        AlignedBelow(len, remaining);
        AlignedWalkStaysInside(m, at + Align4(len));
      }
    }
  }

  lemma AlignedBelow(n: nat, r: nat)
    requires n <= r && r % 4 == 0
    ensures Align4(n) <= r && (r - Align4(n)) % 4 == 0
  {
  }

  /** A message body of any unaligned length over four on which the walk leaves the message. */
  function Filler(r: nat): (b: seq<Byte>)
    requires r > 4
    ensures |b| == r
  {
    if r < 8 then Bytes16(r) + Zeros(r - 2) else Bytes16(4) + Bytes16(0) + (if r == 8 then Zeros(4) else Filler(r - 4))
  }

  lemma FillerHead(r: nat, pre: seq<Byte>)
    requires r > 4
    ensures ReadU16(pre + Filler(r), |pre|) == if r < 8 then r else 4
  {
    var m := pre + Filler(r);
    assert m[|pre|] == Filler(r)[0] && m[|pre| + 1] == Filler(r)[1];
  }

  lemma {:induction false} FillerOverruns(r: nat, pre: seq<Byte>)
    requires 4 < r < 0x1_0000_0000 && r % 4 != 0
    ensures WalkAttrs(pre + Filler(r), |pre|, r).Overrun?
    decreases r
  {
    var m := pre + Filler(r);
    FillerHead(r, pre);
    if r > 8 {
      var head := Bytes16(4) + Bytes16(0);
      assert m == (pre + head) + Filler(r - 4);
      FillerOverruns(r - 4, pre + head);
    }
  }

  /** Exactly when every message of a given length keeps the walk inside: the attribute area is a multiple
      of four, or too short to hold an attribute header with something behind it. */
  lemma StaysInsideIff(pre: seq<Byte>, r: nat)
    requires r < 0x1_0000_0000
    ensures (forall m: seq<Byte> :: pre <= m && |m| == |pre| + r ==> WalkAttrs(m, |pre|, r).Done?)
            <==> (r % 4 == 0 || r < 4)
  {
    if r % 4 == 0 {
      forall m: seq<Byte> | pre <= m && |m| == |pre| + r ensures WalkAttrs(m, |pre|, r).Done? {
        AlignedWalkStaysInside(m, |pre|);
      }
    } else if r > 4 {
      FillerOverruns(r, pre);
      assert pre <= pre + Filler(r);
    }
  }
}
