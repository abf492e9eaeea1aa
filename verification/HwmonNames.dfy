/** Names of hardware sensors, `<device>.<label>.<occurrence>`: when they are unique. */
module HwmonNames {
  import opened Decimal

  function SensorName(dev: string, name: string, count: nat): string {
    dev + ("." + (name + ("." + Dec(count))))
  }

  lemma {:induction false} CutEnd(a: string, b: string, c: string, d: string)
    requires a + b == c + d && |b| == |d|
    ensures a == c && b == d
  {
    assert (a + b)[..|a|] == a && (c + d)[..|c|] == c;
    assert (a + b)[|a|..] == b && (c + d)[|c|..] == d;
  }

  /** What is behind the last dot can be told from what is in front of it. */
  lemma {:induction false} LastDot(a: string, s: string, b: string, t: string)
    requires a + ("." + s) == b + ("." + t) && '.' !in s && '.' !in t
    ensures a == b && s == t
  {
    DotComesNoLater(a, s, b, t);
    DotComesNoLater(b, t, a, s);
    CutEnd(a, "." + s, b, "." + t);
    CutEnd(".", s, ".", t);
  }

  lemma {:induction false} DotComesNoLater(a: string, s: string, b: string, t: string)
    requires a + ("." + s) == b + ("." + t) && '.' !in t
    ensures |a| <= |b|
  {
    var x, y := a + ("." + s), b + ("." + t);
    assert x[|a|] == '.';
    assert forall k :: |b| < k < |y| ==> y[k] == t[k - |b| - 1];
  }

  /** On one device different (label, occurrence) pairs have different names, whatever the labels contain. */
  lemma {:induction false} SameDevice(dev: string, l1: string, c1: nat, l2: string, c2: nat)
    requires SensorName(dev, l1, c1) == SensorName(dev, l2, c2)
    ensures l1 == l2 && c1 == c2
  {
    var x, y := l1 + ("." + Dec(c1)), l2 + ("." + Dec(c2));
    CutEnd(dev, "." + x, dev, "." + y);
    CutEnd(".", x, ".", y);
    LastDot(l1, Dec(c1), l2, Dec(c2));
    DecInjective(c1, c2);
  }

  /** The device name `d` followed by a dot begins the device name `e`. */
  predicate Shadows(d: string, e: string) { d + "." <= e }

  lemma {:induction false} ShorterShadows(d: string, x: string, e: string, y: string)
    requires d + ("." + x) == e + ("." + y) && d != e && |d| <= |e|
    ensures Shadows(d, e)
  {
    var s := d + ("." + x);
    assert s[..|d|] == d && s[|d|] == '.';
    assert s[..|e|] == e;
    assert d + "." == s[..|d| + 1];
  }

  lemma {:induction false} ShadowCollides(d: string, e: string) returns (l1: string, l2: string)
    requires Shadows(d, e)
    ensures l1 != "" && l2 != "" && SensorName(d, l1, 0) == SensorName(e, l2, 0)
  {
    l2 := "a";
    l1 := e[|d| + 1..] + "." + l2;
    assert e == d + "." + e[|d| + 1..];
    assert SensorName(d, l1, 0) == SensorName(e, l2, 0);
  }

  /** Sensors of two different devices can have the same name exactly when one device name, followed by a
      dot, begins the other.  Names without dots are therefore safe. */
  lemma {:induction false} DevicesCollideIff(d: string, e: string)
    requires d != e
    ensures (exists l1, c1, l2, c2 :: l1 != "" && l2 != "" && SensorName(d, l1, c1) == SensorName(e, l2, c2))
            <==> Shadows(d, e) || Shadows(e, d)
  {
    if Shadows(d, e) {
      var l1, l2 := ShadowCollides(d, e);
    } else if Shadows(e, d) {
      var l1, l2 := ShadowCollides(e, d);
    }
    forall l1, c1, l2, c2 | SensorName(d, l1, c1) == SensorName(e, l2, c2) ensures Shadows(d, e) || Shadows(e, d) {
      if |d| <= |e| {
        ShorterShadows(d, l1 + ("." + Dec(c1)), e, l2 + ("." + Dec(c2)));
      } else {
        ShorterShadows(e, l2 + ("." + Dec(c2)), d, l1 + ("." + Dec(c1)));
      }
    }
  }

  lemma {:induction false} ShadowHasDot(d: string, e: string)
    ensures Shadows(d, e) ==> '.' in e
  {
    if Shadows(d, e) {
      assert e[|d|] == (d + ".")[|d|];
    }
  }
}
