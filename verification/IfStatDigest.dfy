/** What a table holds after a reply depends on the attributes alone, not on their order. */
module IfStatDigest {
  import opened Netlink
  import opened Attributes
  import opened Tables
  import opened IfStatMessage

  /** The attribute type a parameter comes from. */
  function TypeOf(name: string): U16 {
    if name in STATS64 then IFLA_STATS64
    else if name == "operatate" then IFLA_OPERSTATE
    else if name == "carrier" then IFLA_CARRIER
    else if name == "linkmode" then IFLA_LINKMODE
    else if name == "carrier_up_count" then IFLA_CARRIER_UP_COUNT
    else if name == "carrier_down_count" then IFLA_CARRIER_DOWN_COUNT
    else IFLA_MTU
  }

  lemma CounterNames(name: string)
    requires name in STATS64
    ensures |name| >= 8 && (name[1] == 'x' || name == "multicast" || name == "collisions")
  {
    var i :| 0 <= i < |STATS64| && STATS64[i] == name;
  }

  lemma OtherNames()
    ensures "operatate" !in STATS64 && "carrier" !in STATS64 && "linkmode" !in STATS64
    ensures "carrier_up_count" !in STATS64 && "carrier_down_count" !in STATS64 && "mtu" !in STATS64
  {
    if "operatate" in STATS64 { CounterNames("operatate"); }
    if "carrier" in STATS64 { CounterNames("carrier"); }
    if "linkmode" in STATS64 { CounterNames("linkmode"); }
    if "carrier_up_count" in STATS64 { CounterNames("carrier_up_count"); }
    if "carrier_down_count" in STATS64 { CounterNames("carrier_down_count"); }
    if "mtu" in STATS64 { CounterNames("mtu"); }
  }

  /** The attribute is of a type that sets the parameter and long enough to do so. */
  predicate Sets(a: Attr, name: string) { name in Fold(Calls(a)) }

  lemma SetsTellsType(a: Attr, name: string)
    requires Sets(a, name)
    ensures a.typ == TypeOf(name)
  {
    SetIsFound(Calls(a), name);
    OtherNames();
  }

  lemma {:induction false} FoldConcat(c: seq<SetCall>, d: seq<SetCall>)
    ensures Fold(c + d) == Fold(c) + Fold(d)
    decreases |d|
  {
    if d == [] {
      assert c + d == c;
    } else {
      var n := |d| - 1;
      FoldConcat(c, d[..n]);
      assert (c + d)[..|c + d| - 1] == c + d[..n];
    }
  }

  /** What each attribute contributes. */
  function Rows(attrs: seq<Attr>): seq<Row> {
    seq(|attrs|, i requires 0 <= i < |attrs| => Fold(Calls(attrs[i])))
  }

  function Merge(rows: seq<Row>): Row {
    if rows == [] then map[] else Merge(rows[..|rows| - 1]) + rows[|rows| - 1]
  }

  lemma {:induction false} MergeSnoc(attrs: seq<Attr>)
    requires attrs != []
    ensures var n := |attrs| - 1; Merge(Rows(attrs)) == Merge(Rows(attrs[..n])) + Fold(Calls(attrs[n]))
  {
    assert Rows(attrs)[..|attrs| - 1] == Rows(attrs[..|attrs| - 1]);
  }

  lemma {:induction false} CallsMerge(attrs: seq<Attr>)
    ensures Fold(AllCalls(attrs)) == Merge(Rows(attrs))
    decreases |attrs|
  {
    if attrs != [] {
      var n := |attrs| - 1;
      CallsMerge(attrs[..n]);
      FoldConcat(AllCalls(attrs[..n]), Calls(attrs[n]));
      MergeSnoc(attrs);
    }
  }

  ghost predicate IsLastRow(rows: seq<Row>, name: string, i: nat) {
    i < |rows| && name in rows[i] && forall k :: i < k < |rows| ==> name !in rows[k]
  }

  lemma {:induction false} LastRowWins(rows: seq<Row>, name: string, i: nat)
    requires IsLastRow(rows, name, i)
    ensures name in Merge(rows) && Merge(rows)[name] == rows[i][name]
    decreases |rows|
  {
    if i < |rows| - 1 {
      LastRowWins(rows[..|rows| - 1], name, i);
    }
  }

  lemma {:induction false} LastRow(rows: seq<Row>, name: string) returns (i: nat)
    requires name in Merge(rows)
    ensures IsLastRow(rows, name, i)
    decreases |rows|
  {
    var n := |rows| - 1;
    if name in rows[n] {
      i := n;
    } else {
      i := LastRow(rows[..n], name);
      forall k | i < k < |rows| ensures name !in rows[k] {
        if k < n {
          assert rows[k] == rows[..n][k];
        }
      }
    }
  }

  lemma {:induction false} RowAfter(rows: seq<Row>, name: string, i: nat) returns (k: nat)
    requires i < |rows| && name in rows[i]
    ensures IsLastRow(rows, name, k)
    decreases |rows| - i
  {
    if forall e :: i < e < |rows| ==> name !in rows[e] {
      k := i;
    } else {
      var e :| i < e < |rows| && name in rows[e];
      k := RowAfter(rows, name, e);
    }
  }

  /** With several attributes that could set a parameter the last long enough one does; with none it is
      not set. */
  lemma {:induction false} LastLongEnoughWins(attrs: seq<Attr>, name: string)
    ensures name in Fold(AllCalls(attrs)) <==> exists i :: 0 <= i < |attrs| && Sets(attrs[i], name)
    ensures forall i :: 0 <= i < |attrs| && IsLastRow(Rows(attrs), name, i) ==>
              name in Fold(AllCalls(attrs)) && Fold(AllCalls(attrs))[name] == Fold(Calls(attrs[i]))[name]
  {
    CallsMerge(attrs);
    var rows := Rows(attrs);
    if name in Merge(rows) {
      var i := LastRow(rows, name);
      assert Sets(attrs[i], name);
    }
    forall i | 0 <= i < |attrs| && Sets(attrs[i], name) ensures name in Merge(rows) {
      var k := RowAfter(rows, name, i);
      LastRowWins(rows, name, k);
    }
    forall i: nat | i < |attrs| && IsLastRow(rows, name, i)
      ensures name in Merge(rows) && Merge(rows)[name] == rows[i][name]
    {
      LastRowWins(rows, name, i);
    }
  }

  ghost predicate DistinctTypes(attrs: seq<Attr>) {
    forall i, k :: 0 <= i < k < |attrs| ==> attrs[i].typ != attrs[k].typ
  }

  /** The attribute that decides a parameter, if any sets it, is the same in both lists. */
  lemma {:induction false} SameSetter(attrs: seq<Attr>, bs: seq<Attr>, name: string, i: nat, k: nat)
    requires DistinctTypes(attrs) && (forall b :: b in bs ==> b in attrs)
    requires i < |attrs| && k < |bs| && Sets(attrs[i], name) && Sets(bs[k], name)
    ensures attrs[i] == bs[k]
  {
    SetsTellsType(attrs[i], name);
    SetsTellsType(bs[k], name);
    assert bs[k] in attrs;
    var e :| 0 <= e < |attrs| && attrs[e] == bs[k];
    assert e == i;
  }

  lemma {:induction false} SameEntry(attrs: seq<Attr>, bs: seq<Attr>, name: string)
    requires DistinctTypes(attrs) && (forall a :: a in attrs <==> a in bs)
    requires name in Merge(Rows(attrs)) || name in Merge(Rows(bs))
    ensures name in Merge(Rows(attrs)) && name in Merge(Rows(bs))
    ensures Merge(Rows(attrs))[name] == Merge(Rows(bs))[name]
  {
    var i: nat, k: nat;
    if name in Merge(Rows(attrs)) {
      i := LastRow(Rows(attrs), name);
      assert attrs[i] in bs;
      var e :| 0 <= e < |bs| && bs[e] == attrs[i];
      k := RowAfter(Rows(bs), name, e);
    } else {
      k := LastRow(Rows(bs), name);
      assert bs[k] in attrs;
      var e :| 0 <= e < |attrs| && attrs[e] == bs[k];
      i := RowAfter(Rows(attrs), name, e);
    }
    LastRowWins(Rows(attrs), name, i);
    LastRowWins(Rows(bs), name, k);
    SameSetter(attrs, bs, name, i, k);
  }

  /** If the attribute types are distinct, any other order of the same attributes gives the same table. */
  lemma {:induction false} OrderDoesNotMatter(base: seq<SetCall>, attrs: seq<Attr>, bs: seq<Attr>)
    requires DistinctTypes(attrs) && (forall a :: a in attrs <==> a in bs)
    ensures Fold(base + AllCalls(attrs)) == Fold(base + AllCalls(bs))
  {
    forall name | name in Merge(Rows(attrs)) || name in Merge(Rows(bs))
      ensures name in Merge(Rows(attrs)) && name in Merge(Rows(bs))
      ensures Merge(Rows(attrs))[name] == Merge(Rows(bs))[name]
    {
      SameEntry(attrs, bs, name);
    }
    assert Merge(Rows(attrs)) == Merge(Rows(bs));
    CallsMerge(attrs);
    CallsMerge(bs);
    FoldConcat(base, AllCalls(attrs));
    FoldConcat(base, AllCalls(bs));
  }

  lemma {:induction false} DigestOfReply(inst: string, pre: seq<Byte>, attrs: seq<Attr>)
    requires |pre| == BODY && forall a :: a in attrs ==> Attributes.Encodable(a)
    requires |pre + EncodeAttrs(attrs)| < 0x1_0000_0000
    ensures DigestCalls(inst, pre + EncodeAttrs(attrs)) == HeadCalls(inst, pre) + AllCalls(attrs)
  {
    AttrsRoundTrip(attrs, pre);
    SameHead(inst, pre, EncodeAttrs(attrs));
  }

  lemma {:induction false} SameHead(inst: string, pre: seq<Byte>, body: seq<Byte>)
    requires |pre| == BODY
    ensures HeadCalls(inst, pre + body) == HeadCalls(inst, pre)
  {
    assert forall k :: 0 <= k < BODY ==> (pre + body)[k] == pre[k];
  }

  /** So two replies that differ only in the order of their attributes leave the same table. */
  lemma {:induction false} ReplyOrderDoesNotMatter(inst: string, pre: seq<Byte>, attrs: seq<Attr>, bs: seq<Attr>)
    requires |pre| == BODY && DistinctTypes(attrs) && (forall a :: a in attrs <==> a in bs)
    requires forall a :: a in attrs ==> Attributes.Encodable(a)
    requires |pre + EncodeAttrs(attrs)| < 0x1_0000_0000 && |pre + EncodeAttrs(bs)| < 0x1_0000_0000
    ensures Fold(DigestCalls(inst, pre + EncodeAttrs(attrs))) == Fold(DigestCalls(inst, pre + EncodeAttrs(bs)))
  {
    DigestOfReply(inst, pre, attrs);
    DigestOfReply(inst, pre, bs);
    OrderDoesNotMatter(HeadCalls(inst, pre), attrs, bs);
  }

  /** The counters do not overwrite each other: each parameter gets the number at its own place. */
  lemma CounterAtItsPlace(a: Attr, i: nat)
    requires a.typ == IFLA_STATS64 && |a.payload| >= STATS64_LEN && i < 24
    ensures Sets(a, STATS64[i]) && Fold(Calls(a))[STATS64[i]] == Number(AsInt64(ReadU64(a.payload, 8 * i)))
  {
    CountersDiffer(i);
    assert forall k :: i < k < 24 ==> Calls(a)[k].name == STATS64[k];
    LastSetWins(Calls(a), STATS64[i], i);
  }

  lemma CountersDiffer(i: nat)
    requires i < 24
    ensures forall k :: i < k < 24 ==> STATS64[k] != STATS64[i]
  {
  }
}
