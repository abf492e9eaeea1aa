/** The hardware monitor table told from the devices: what is shown of each sensor and fan, the maximum, and
    the numbers of fans. */
module HwmonDevices {
  import opened Sequences
  import opened Decimal
  import opened Options
  import opened Tables
  import opened Hwmon
  import opened HwmonFacts

  // ----- names

  function Label(file: string, name: string): string { if name == "" then file else name }

  function TempLabel(d: Device, k: nat): string
    requires k < |d.temps|
  {
    Label(d.temps[k].file, d.temps[k].name)
  }

  function FanLabel(d: Device, k: nat): string
    requires k < |d.fans|
  {
    Label(d.fans[k].file, d.fans[k].name)
  }

  /** The sensors before it with the same label. */
  function EarlierTemps(d: Device, k: nat): set<nat>
    requires k < |d.temps|
  {
    set j: nat | j < k && TempLabel(d, j) == TempLabel(d, k)
  }

  function EarlierFans(d: Device, k: nat): set<nat>
    requires k < |d.fans|
  {
    set j: nat | j < k && FanLabel(d, j) == FanLabel(d, k)
  }

  /** `<device>.<label>.<number of earlier ones>` */
  function Name(dev: string, tag: string, n: nat): string { dev + "." + tag + "." + Dec(n) }

  lemma {:induction false} CountIsCardinality(tags: seq<string>, tag: string)
    ensures Count(tags, tag) == |set j: nat | j < |tags| && tags[j] == tag|
    decreases |tags|
  {
    if tags != [] {
      var n := |tags| - 1;
      CountIsCardinality(tags[..n], tag);
      var before := set j: nat | j < n && tags[..n][j] == tag;
      assert (set j: nat | j < |tags| && tags[j] == tag) == before + if tags[n] == tag then {n} else {};
    }
  }

  lemma {:induction false} OccurrenceOfTemp(d: Device, k: nat)
    requires k < |d.temps|
    ensures Occurrence(TempTags(d), k) == |EarlierTemps(d, k)| && TempTags(d)[k] == TempLabel(d, k)
  {
    var tags := TempTags(d);
    CountIsCardinality(tags[..k], tags[k]);
    assert EarlierTemps(d, k) == set j: nat | j < k && tags[..k][j] == tags[k];
  }

  lemma {:induction false} OccurrenceOfFan(d: Device, k: nat)
    requires k < |d.fans|
    ensures Occurrence(FanTags(d), k) == |EarlierFans(d, k)| && FanTags(d)[k] == FanLabel(d, k)
  {
    var tags := FanTags(d);
    CountIsCardinality(tags[..k], tags[k]);
    assert EarlierFans(d, k) == set j: nat | j < k && tags[..k][j] == tags[k];
  }

  lemma {:induction false} NameIsName(i: Item)
    ensures NameOf(i) == Name(i.dev, i.tag, i.count)
  {
    var tail := "." + Dec(i.count);
    Regroup(i.dev, ".", i.tag + tail);
    Regroup(i.dev + ".", i.tag, tail);
    Regroup(i.dev + "." + i.tag, ".", Dec(i.count));
  }

  // ----- every sensor and fan is among the items

  lemma {:induction false} ItemsAre(ds: seq<Device>)
    requires ds != []
    ensures var n := |ds| - 1; Items(ds) == Items(ds[..n]) + (TempItems(ds[n]) + FanItems(ds[n]))
  {
    Regroup(Items(ds[..|ds| - 1]), TempItems(ds[|ds| - 1]), FanItems(ds[|ds| - 1]));
  }

  lemma {:induction false} InSecond(x: seq<Item>, y: seq<Item>, item: Item) returns (i: nat)
    requires item in y
    ensures i < |x + y| && (x + y)[i] == item
  {
    var k :| 0 <= k < |y| && y[k] == item;
    i := |x| + k;
  }

  lemma {:induction false} ItemsOfDevice(ds: seq<Device>, a: nat, item: Item) returns (i: nat)
    requires a < |ds| && item in TempItems(ds[a]) + FanItems(ds[a])
    ensures i < |Items(ds)| && Items(ds)[i] == item
    decreases |ds|
  {
    var n := |ds| - 1;
    ItemsAre(ds);
    if a < n {
      i := ItemsOfDevice(ds[..n], a, item);
    } else {
      i := InSecond(Items(ds[..n]), TempItems(ds[n]) + FanItems(ds[n]), item);
    }
  }

  /** After an update every temperature read is found under its name, and so is its label. */
  lemma {:induction false} TempIsShown(devs: seq<Device>, d: Device, k: nat)
    requires Apart(devs) && d in Kept(devs) && k < |d.temps|
    ensures var row := Fold(AllCalls(devs));
            var n := |EarlierTemps(d, k)|;
            var name := Name(d.name, TempLabel(d, k), n);
            && name + ".temp" in row && row[name + ".temp"] == Int(d.temps[k].mC, "mC")
            && name + ".label" in row && row[name + ".label"] == Text(TempLabel(d, k) + " [" + Dec(n) + "]")
  {
    var item := TempItem(d, k);
    OccurrenceOfTemp(d, k);
    NameIsName(item);
    assert TempItems(d)[k] == item;
    var a :| 0 <= a < |Kept(devs)| && Kept(devs)[a] == d;
    var i := ItemsOfDevice(Kept(devs), a, item);
    NoReadingLost(devs, i, ItemCalls(item)[0]);
    NoReadingLost(devs, i, ItemCalls(item)[1]);
  }

  /** And so are a fan's speed, its target and its label. */
  lemma {:induction false} FanIsShown(devs: seq<Device>, d: Device, k: nat)
    requires Apart(devs) && d in Kept(devs) && k < |d.fans|
    ensures var row := Fold(AllCalls(devs));
            var n := |EarlierFans(d, k)|;
            var name := Name(d.name, FanLabel(d, k), n);
            && name + ".input" in row && row[name + ".input"] == Int(d.fans[k].input, "rpm")
            && name + ".target" in row && row[name + ".target"] == Int(d.fans[k].target, "rpm")
            && name + ".label" in row && row[name + ".label"] == Text(FanLabel(d, k) + " [" + Dec(n) + "]")
  {
    var item := FanItem(d, k);
    OccurrenceOfFan(d, k);
    NameIsName(item);
    assert FanItems(d)[k] == item;
    assert (TempItems(d) + FanItems(d))[|d.temps| + k] == item;
    var a :| 0 <= a < |Kept(devs)| && Kept(devs)[a] == d;
    var i := ItemsOfDevice(Kept(devs), a, item);
    NoReadingLost(devs, i, ItemCalls(item)[0]);
    NoReadingLost(devs, i, ItemCalls(item)[1]);
    NoReadingLost(devs, i, ItemCalls(item)[2]);
  }

  // ----- the maximum

  predicate IsReading(ds: seq<Device>, a: nat, k: nat) { a < |ds| && k < |ds[a].temps| }

  ghost predicate NoReadings(ds: seq<Device>) { forall a: nat, k: nat :: !IsReading(ds, a, k) }

  /** Sensor `k` of device `a` is the hottest, and the first of those. */
  ghost predicate IsHottest(ds: seq<Device>, a: nat, k: nat) {
    && IsReading(ds, a, k)
    && forall b: nat, l: nat :: IsReading(ds, b, l) ==>
         if b < a || (b == a && l < k) then ds[b].temps[l].mC < ds[a].temps[k].mC
         else ds[b].temps[l].mC <= ds[a].temps[k].mC
  }

  function Hotter(x: Option<Item>, y: Option<Item>): Option<Item>
    requires (x.Some? ==> x.value.Temp?) && (y.Some? ==> y.value.Temp?)
  {
    if y.Some? && (x.None? || y.value.mC > x.value.mC) then y else x
  }

  lemma {:induction false} HottestOfBoth(x: seq<Item>, y: seq<Item>)
    ensures Hottest(x + y) == Hotter(Hottest(x), Hottest(y))
    decreases |y|
  {
    if y == [] {
      assert x + y == x;
    } else {
      var n := |y| - 1;
      assert x + y == (x + y[..n]) + [y[n]];
      ItemsSnoc(x + y[..n], y[n]);
      HottestOfBoth(x, y[..n]);
    }
  }

  lemma {:induction false} FansAreCold(d: Device, n: nat)
    requires n <= |d.fans|
    ensures Hottest(FanItems(d)[..n]) == None
  {
    if n > 0 {
      FansAreCold(d, n - 1);
      assert FanItems(d)[..n][..n - 1] == FanItems(d)[..n - 1];
    }
  }

  lemma {:induction false} HottestNext(items: seq<Item>, n: nat)
    requires n < |items|
    ensures Hottest(items[..n + 1]) == Hotter(Hottest(items[..n]), if items[n].Temp? then Some(items[n]) else None)
  {
    assert items[..n + 1][..n] == items[..n];
  }

  /** The hottest of the first `n` sensors of a device. */
  ghost predicate HottestBelow(d: Device, n: nat, k: nat) {
    && k < n <= |d.temps|
    && forall l: nat :: l < n ==>
         if l < k then d.temps[l].mC < d.temps[k].mC else d.temps[l].mC <= d.temps[k].mC
  }

  lemma {:induction false} HottestTempNext(d: Device, n: nat)
    requires n < |d.temps|
    ensures Hottest(TempItems(d)[..n + 1]) == Hotter(Hottest(TempItems(d)[..n]), Some(TempItem(d, n)))
  {
    assert TempItems(d)[n] == TempItem(d, n);
    HottestNext(TempItems(d), n);
  }

  /** Which of the two is hotter, the earlier one if neither. */
  function HotterIndex(d: Device, k: nat, l: nat): nat
    requires k < |d.temps| && l < |d.temps|
  {
    if d.temps[l].mC > d.temps[k].mC then l else k
  }

  lemma {:induction false} BelowNext(d: Device, n: nat, k: nat)
    requires HottestBelow(d, n, k) && n < |d.temps|
    ensures HottestBelow(d, n + 1, HotterIndex(d, k, n))
  {
  }

  lemma {:induction false} HottestTemp(d: Device, n: nat) returns (k: nat)
    requires 0 < n <= |d.temps|
    ensures HottestBelow(d, n, k) && Hottest(TempItems(d)[..n]) == Some(TempItem(d, k))
  {
    HottestTempNext(d, n - 1);
    if n == 1 {
      assert TempItems(d)[..0] == [];
      k := 0;
    } else {
      var before := HottestTemp(d, n - 1);
      BelowNext(d, n - 1, before);
      k := HotterIndex(d, before, n - 1);
    }
  }

  lemma {:induction false} HottestOfDevice(ds: seq<Device>)
    requires ds != []
    ensures var d := ds[|ds| - 1]; Hottest(Items(ds)) == Hotter(Hottest(Items(ds[..|ds| - 1])), Hottest(TempItems(d)))
  {
    var d, before := ds[|ds| - 1], Items(ds[..|ds| - 1]);
    HottestOfBoth(before + TempItems(d), FanItems(d));
    HottestOfBoth(before, TempItems(d));
    FansAreCold(d, |d.fans|);
    assert FanItems(d)[..|d.fans|] == FanItems(d);
  }

  lemma {:induction false} NoneIsCold(ds: seq<Device>)
    requires NoReadings(ds)
    ensures Hottest(Items(ds)) == None
    decreases |ds|
  {
    if ds != [] {
      var n := |ds| - 1;
      assert !IsReading(ds, n, 0);
      forall a: nat, k: nat | IsReading(ds[..n], a, k) ensures false {
        assert IsReading(ds, a, k);
      }
      NoneIsCold(ds[..n]);
      HottestOfDevice(ds);
    }
  }

  lemma {:induction false} HottestReading(ds: seq<Device>, a0: nat, k0: nat) returns (a: nat, k: nat)
    requires IsReading(ds, a0, k0)
    ensures IsHottest(ds, a, k) && Hottest(Items(ds)) == Some(TempItem(ds[a], k))
    decreases |ds|
  {
    var n := |ds| - 1;
    HottestOfDevice(ds);
    if NoReadings(ds[..n]) {
      NoneIsCold(ds[..n]);
      OnlyLast(ds, a0, k0);
      a, k := LastHottest(ds);
    } else {
      var b: nat, l: nat :| IsReading(ds[..n], b, l);
      a, k := HottestReading(ds[..n], b, l);
      a, k := HotterOfTwo(ds, a, k);
    }
  }

  lemma {:induction false} OnlyLast(ds: seq<Device>, a: nat, k: nat)
    requires IsReading(ds, a, k) && NoReadings(ds[..|ds| - 1])
    ensures a == |ds| - 1
  {
    assert !IsReading(ds[..|ds| - 1], a, k);
  }

  lemma {:induction false} LastHottest(ds: seq<Device>) returns (a: nat, k: nat)
    requires ds != [] && ds[|ds| - 1].temps != [] && NoReadings(ds[..|ds| - 1])
    ensures IsHottest(ds, a, k) && a == |ds| - 1 && Hottest(TempItems(ds[a])) == Some(TempItem(ds[a], k))
  {
    a := |ds| - 1;
    var d := ds[a];
    k := HottestTemp(d, |d.temps|);
    assert TempItems(d)[..|d.temps|] == TempItems(d);
    forall b: nat, l: nat | IsReading(ds, b, l) ensures b == a {
      OnlyLast(ds, b, l);
    }
  }

  lemma {:induction false} StaysHottest(ds: seq<Device>, a: nat, k: nat, d: Device)
    requires ds != [] && IsHottest(ds[..|ds| - 1], a, k) && ds[|ds| - 1] == d
    requires forall l: nat :: l < |d.temps| ==> d.temps[l].mC <= ds[a].temps[k].mC
    ensures IsHottest(ds, a, k)
  {
    assert forall b: nat, l: nat :: IsReading(ds[..|ds| - 1], b, l) <==> IsReading(ds, b, l) && b < |ds| - 1;
  }

  lemma {:induction false} BecomesHottest(ds: seq<Device>, a: nat, k: nat, l: nat)
    requires ds != [] && IsHottest(ds[..|ds| - 1], a, k)
    requires var d := ds[|ds| - 1]; HottestBelow(d, |d.temps|, l) && d.temps[l].mC > ds[a].temps[k].mC
    ensures IsHottest(ds, |ds| - 1, l)
  {
    assert forall b: nat, l: nat :: IsReading(ds[..|ds| - 1], b, l) <==> IsReading(ds, b, l) && b < |ds| - 1;
  }

  lemma {:induction false} HotterOfTwo(ds: seq<Device>, a0: nat, k0: nat) returns (a: nat, k: nat)
    requires ds != [] && IsHottest(ds[..|ds| - 1], a0, k0)
    ensures IsHottest(ds, a, k)
    ensures Hotter(Some(TempItem(ds[a0], k0)), Hottest(TempItems(ds[|ds| - 1]))) == Some(TempItem(ds[a], k))
  {
    var n := |ds| - 1;
    var d := ds[n];
    a, k := a0, k0;
    if d.temps == [] {
      StaysHottest(ds, a, k, d);
    } else {
      var l := HottestTemp(d, |d.temps|);
      assert TempItems(d)[..|d.temps|] == TempItems(d);
      if d.temps[l].mC > ds[a0].temps[k0].mC {
        BecomesHottest(ds, a0, k0, l);
        a, k := n, l;
      } else {
        StaysHottest(ds, a, k, d);
      }
    }
  }

  /** `temp_max` and `name_max` are the value and the name of the hottest sensor of all devices taken, the first
      one if several are equally hot, and empty if there is no sensor. */
  lemma {:induction false} MaximumIsShown(devs: seq<Device>)
    ensures var ds, row := Kept(devs), Fold(AllCalls(devs));
            && "temp_max" in row && "name_max" in row
            && if exists a: nat, k: nat :: IsReading(ds, a, k) then
                 exists a: nat, k: nat ::
                   && IsHottest(ds, a, k) && row["temp_max"] == Int(ds[a].temps[k].mC, "mC")
                   && row["name_max"] == Text(Name(ds[a].name, TempLabel(ds[a], k), |EarlierTemps(ds[a], k)|))
               else row["temp_max"] == Empty && row["name_max"] == Empty
  {
    var ds := Kept(devs);
    SummaryEntry(devs, 0);
    SummaryEntry(devs, 1);
    if a0: nat, k0: nat :| IsReading(ds, a0, k0) {
      var a, k := HottestReading(ds, a0, k0);
      OccurrenceOfTemp(ds[a], k);
      NameIsName(TempItem(ds[a], k));
    } else {
      NoneIsCold(ds);
    }
  }

  // ----- the fans

  /** The fans of a kind, by the device and their place in it. */
  function FansOf(ds: seq<Device>, kind: Fan -> bool): set<(nat, nat)> {
    set a: nat, k: nat | a < |ds| && k < |ds[a].fans| && kind(ds[a].fans[k]) :: (a, k)
  }

  function AnyFan(): Fan -> bool { (f: Fan) => true }

  function Turning(): Fan -> bool { (f: Fan) => f.input != 0 }

  /** Standing still though it should turn. */
  function Stuck(): Fan -> bool { (f: Fan) => f.input == 0 && f.target != 0 }

  function Own(d: Device, kind: Fan -> bool, n: nat): set<nat>
    requires n <= |d.fans|
  {
    set k: nat | k < n && kind(d.fans[k])
  }

  function At(a: nat, ks: set<nat>): set<(nat, nat)> { set k | k in ks :: (a, k) }

  lemma {:induction false} AtKeepsSize(a: nat, ks: set<nat>)
    ensures |At(a, ks)| == |ks|
    decreases |ks|
  {
    if ks != {} {
      var k :| k in ks;
      AtKeepsSize(a, ks - {k});
      assert At(a, ks) == At(a, ks - {k}) + {(a, k)};
    }
  }

  lemma {:induction false} FansOfDevice(ds: seq<Device>, kind: Fan -> bool)
    requires ds != []
    ensures var n := |ds| - 1; |FansOf(ds, kind)| == |FansOf(ds[..n], kind)| + |Own(ds[n], kind, |ds[n].fans|)|
  {
    var n := |ds| - 1;
    var own := Own(ds[n], kind, |ds[n].fans|);
    AtKeepsSize(n, own);
    assert FansOf(ds, kind) == FansOf(ds[..n], kind) + At(n, own);
  }

  function Sum(f: Fans, g: Fans): Fans { Fans(f.num + g.num, f.turning + g.turning, f.stuck + g.stuck) }

  lemma {:induction false} CountOfBoth(x: seq<Item>, y: seq<Item>)
    ensures CountFans(x + y) == Sum(CountFans(x), CountFans(y))
    decreases |y|
  {
    if y == [] {
      assert x + y == x;
    } else {
      var n := |y| - 1;
      assert x + y == (x + y[..n]) + [y[n]];
      ItemsSnoc(x + y[..n], y[n]);
      CountOfBoth(x, y[..n]);
    }
  }

  lemma {:induction false} TempsAreNoFans(d: Device, n: nat)
    requires n <= |d.temps|
    ensures CountFans(TempItems(d)[..n]) == Fans(0, 0, 0)
  {
    if n > 0 {
      TempsAreNoFans(d, n - 1);
      assert TempItems(d)[..n][..n - 1] == TempItems(d)[..n - 1];
    }
  }

  lemma {:induction false} NextFan(d: Device, kind: Fan -> bool, n: nat)
    requires n < |d.fans|
    ensures |Own(d, kind, n + 1)| == |Own(d, kind, n)| + if kind(d.fans[n]) then 1 else 0
  {
    assert Own(d, kind, n + 1) == Own(d, kind, n) + if kind(d.fans[n]) then {n} else {};
  }

  function OwnFans(d: Device, n: nat): Fans
    requires n <= |d.fans|
  {
    Fans(|Own(d, AnyFan(), n)|, |Own(d, Turning(), n)|, |Own(d, Stuck(), n)|)
  }

  lemma {:induction false} FansAreCounted(d: Device, n: nat)
    requires n <= |d.fans|
    ensures CountFans(FanItems(d)[..n]) == OwnFans(d, n)
  {
    if n > 0 {
      FansAreCounted(d, n - 1);
      NextFan(d, AnyFan(), n - 1);
      NextFan(d, Turning(), n - 1);
      NextFan(d, Stuck(), n - 1);
      assert FanItems(d)[..n][..n - 1] == FanItems(d)[..n - 1];
    }
  }

  lemma {:induction false} CountOfDevice(d: Device)
    ensures CountFans(TempItems(d) + FanItems(d)) == OwnFans(d, |d.fans|)
  {
    CountOfBoth(TempItems(d), FanItems(d));
    TempsAreNoFans(d, |d.temps|);
    FansAreCounted(d, |d.fans|);
    assert TempItems(d)[..|d.temps|] == TempItems(d) && FanItems(d)[..|d.fans|] == FanItems(d);
  }

  function AllFans(ds: seq<Device>): Fans {
    Fans(|FansOf(ds, AnyFan())|, |FansOf(ds, Turning())|, |FansOf(ds, Stuck())|)
  }

  lemma {:induction false} AllFansNext(ds: seq<Device>)
    requires ds != []
    ensures var n := |ds| - 1; AllFans(ds) == Sum(AllFans(ds[..n]), OwnFans(ds[n], |ds[n].fans|))
  {
    FansOfDevice(ds, AnyFan());
    FansOfDevice(ds, Turning());
    FansOfDevice(ds, Stuck());
  }

  lemma {:induction false} CountNext(ds: seq<Device>)
    requires ds != []
    ensures var n := |ds| - 1;
            CountFans(Items(ds)) == Sum(CountFans(Items(ds[..n])), OwnFans(ds[n], |ds[n].fans|))
  {
    var n := |ds| - 1;
    ItemsAre(ds);
    CountOfBoth(Items(ds[..n]), TempItems(ds[n]) + FanItems(ds[n]));
    CountOfDevice(ds[n]);
  }

  lemma {:induction false} AllCounted(ds: seq<Device>)
    ensures CountFans(Items(ds)) == AllFans(ds)
    decreases |ds|
  {
    if ds != [] {
      AllCounted(ds[..|ds| - 1]);
      CountNext(ds);
      AllFansNext(ds);
    } else {
      NoFans(AnyFan());
      NoFans(Turning());
      NoFans(Stuck());
    }
  }

  lemma {:induction false} NoFans(kind: Fan -> bool)
    ensures FansOf([], kind) == {}
  {
  }

  lemma {:induction false} CardinalityGrows(a: set<(nat, nat)>, b: set<(nat, nat)>)
    requires a <= b
    ensures |a| <= |b|
  {
    assert b == a + (b - a);
  }

  /** The table shows how many fans the devices taken have, how many of them turn, and how many stand still
      though they should turn; the last two never exceed the first. */
  lemma {:induction false} FansAddUp(devs: seq<Device>)
    ensures var ds, row := Kept(devs), Fold(AllCalls(devs));
            && "fans_num" in row && row["fans_num"] == Int(|FansOf(ds, AnyFan())|, "")
            && "fans_turning" in row && row["fans_turning"] == Int(|FansOf(ds, Turning())|, "")
            && "fans_stuck" in row && row["fans_stuck"] == Int(|FansOf(ds, Stuck())|, "")
            && |FansOf(ds, Turning())| + |FansOf(ds, Stuck())| <= |FansOf(ds, AnyFan())|
  {
    var ds := Kept(devs);
    AllCounted(ds);
    SummaryEntry(devs, 2);
    SummaryEntry(devs, 3);
    SummaryEntry(devs, 4);
    assert FansOf(ds, Turning()) !! FansOf(ds, Stuck());
    CardinalityGrows(FansOf(ds, Turning()) + FansOf(ds, Stuck()), FansOf(ds, AnyFan()));
  }
}
