/** The hardware monitor table: one update's worth of sensors, named, numbered and summed up. */
module Hwmon {
  import opened Sequences
  import opened Decimal
  import opened HwmonNames
  import opened Options
  import opened Tables

  datatype Sensor = Sensor(file: string, name: string, mC: int)
  datatype Fan = Fan(file: string, name: string, input: int, target: int)

  /** What was read from one monitor directory, sensors and fans in the order of their map. */
  datatype Device = Device(name: string, temps: seq<Sensor>, fans: seq<Fan>)

  /** A sensor or fan with the name it gets. */
  datatype Item =
    | Temp(dev: string, tag: string, count: nat, mC: int)
    | Rotor(dev: string, tag: string, count: nat, input: int, target: int)

  /** The label, or the file name prefix where there is none. */
  function Tag(file: string, name: string): string { if name == "" then file else name }

  function Count(tags: seq<string>, tag: string): nat {
    if tags == [] then 0
    else Count(tags[..|tags| - 1], tag) + if tags[|tags| - 1] == tag then 1 else 0
  }

  function TempTags(d: Device): seq<string> {
    seq(|d.temps|, i requires 0 <= i < |d.temps| => Tag(d.temps[i].file, d.temps[i].name))
  }

  function FanTags(d: Device): seq<string> {
    seq(|d.fans|, i requires 0 <= i < |d.fans| => Tag(d.fans[i].file, d.fans[i].name))
  }

  /** How many earlier sensors have the same label. */
  function Occurrence(tags: seq<string>, i: nat): nat
    requires i < |tags|
  {
    Count(tags[..i], tags[i])
  }

  function TempItem(d: Device, i: nat): Item
    requires i < |d.temps|
  {
    Temp(d.name, TempTags(d)[i], Occurrence(TempTags(d), i), d.temps[i].mC)
  }

  function FanItem(d: Device, i: nat): Item
    requires i < |d.fans|
  {
    Rotor(d.name, FanTags(d)[i], Occurrence(FanTags(d), i), d.fans[i].input, d.fans[i].target)
  }

  function TempItems(d: Device): seq<Item> { seq(|d.temps|, i requires 0 <= i < |d.temps| => TempItem(d, i)) }

  function FanItems(d: Device): seq<Item> { seq(|d.fans|, i requires 0 <= i < |d.fans| => FanItem(d, i)) }

  /** Devices without a name are passed over, and of each name only the first is taken. */
  function Kept(devs: seq<Device>): seq<Device> {
    if devs == [] then []
    else
      var before, last := Kept(devs[..|devs| - 1]), devs[|devs| - 1];
      if last.name == "" || last.name in Names(before) then before else before + [last]
  }

  function Names(devs: seq<Device>): set<string> { set d | d in devs :: d.name }

  function Items(devs: seq<Device>): seq<Item> {
    if devs == [] then []
    else
      var last := devs[|devs| - 1];
      Items(devs[..|devs| - 1]) + TempItems(last) + FanItems(last)
  }

  // ----- what is put into the table

  function NameOf(i: Item): string { SensorName(i.dev, i.tag, i.count) }

  function ItemCalls(i: Item): seq<SetCall> {
    var head := SetCall(NameOf(i) + ".label", Text(i.tag + " [" + Dec(i.count) + "]"));
    match i
    case Temp(_, _, _, mC) => [head, SetCall(NameOf(i) + ".temp", Int(mC, "mC"))]
    case Rotor(_, _, _, input, target) =>
      [head, SetCall(NameOf(i) + ".input", Int(input, "rpm")), SetCall(NameOf(i) + ".target", Int(target, "rpm"))]
  }

  function ItemsCalls(items: seq<Item>): seq<SetCall> {
    if items == [] then [] else ItemsCalls(items[..|items| - 1]) + ItemCalls(items[|items| - 1])
  }

  /** The first of the hottest readings. */
  function Hottest(items: seq<Item>): (h: Option<Item>)
    ensures h.Some? ==> h.value.Temp?
  {
    if items == [] then None
    else
      var before, last := Hottest(items[..|items| - 1]), items[|items| - 1];
      if last.Temp? && (before.None? || last.mC > before.value.mC) then Some(last) else before
  }

  datatype Fans = Fans(num: nat, turning: nat, stuck: nat)

  function CountFans(items: seq<Item>): Fans {
    if items == [] then Fans(0, 0, 0)
    else
      var f, last := CountFans(items[..|items| - 1]), items[|items| - 1];
      if last.Temp? then f
      else Fans(f.num + 1,
                if last.input != 0 then f.turning + 1 else f.turning,
                if last.input == 0 && last.target != 0 then f.stuck + 1 else f.stuck)
  }

  function MaxCalls(items: seq<Item>): seq<SetCall> {
    match Hottest(items)
    case Some(h) => [SetCall("temp_max", Int(h.mC, "mC")), SetCall("name_max", Text(NameOf(h)))]
    case None => [SetCall("temp_max", Empty), SetCall("name_max", Empty)]
  }

  function FanCalls(items: seq<Item>): seq<SetCall> {
    var f := CountFans(items);
    [SetCall("fans_num", Int(f.num, "")), SetCall("fans_turning", Int(f.turning, "")),
     SetCall("fans_stuck", Int(f.stuck, ""))]
  }

  function AllCalls(devs: seq<Device>): seq<SetCall> {
    var items := Items(Kept(devs));
    ItemsCalls(items) + (MaxCalls(items) + FanCalls(items))
  }

  // ----- the update

  ghost predicate Counts(label_counts: map<string, nat>, tags: seq<string>) {
    forall t :: Count(tags, t) == if t in label_counts then label_counts[t] else 0
  }

  /** `label_counts[label]++`. */
  method CountTag(label_counts: map<string, nat>, tag: string, ghost tags: seq<string>, ghost i: nat)
    returns (count: nat, counts': map<string, nat>)
    requires i < |tags| && tags[i] == tag && Counts(label_counts, tags[..i])
    ensures count == Occurrence(tags, i) && Counts(counts', tags[..i + 1])
  {
    count := if tag in label_counts then label_counts[tag] else 0;
    counts' := label_counts[tag := count + 1];
    assert tags[..i + 1][..i] == tags[..i];
  }

  lemma {:induction false} ItemsSnoc(items: seq<Item>, i: Item)
    ensures ItemsCalls(items + [i]) == ItemsCalls(items) + ItemCalls(i)
    ensures var h := Hottest(items);
            Hottest(items + [i]) == if i.Temp? && (h.None? || i.mC > h.value.mC) then Some(i) else h
    ensures var f := CountFans(items);
            CountFans(items + [i]) == if i.Temp? then f
                                      else Fans(f.num + 1, if i.input != 0 then f.turning + 1 else f.turning,
                                                if i.input == 0 && i.target != 0 then f.stuck + 1 else f.stuck)
  {
    assert (items + [i])[..|items|] == items;
  }

  /** What the update keeps: the calls made and the running maximum and fan counts fit the items so far. */
  ghost predicate Tracks(tr: Transaction, items: seq<Item>, hottest: Option<(int, string)>, f: Fans)
    reads tr
  {
    && tr.Valid() && tr.calls == ItemsCalls(items) && CountFans(items) == f
    && hottest == match Hottest(items)
                  case None => None
                  case Some(h) => Some((h.mC, NameOf(h)))
  }

  method PutTemps(tr: Transaction, d: Device, hottest: Option<(int, string)>, ghost items: seq<Item>, ghost f: Fans)
    returns (hottest': Option<(int, string)>)
    requires Tracks(tr, items, hottest, f)
    modifies tr
    ensures Tracks(tr, items + TempItems(d), hottest', f)
  {
    hottest' := hottest;
    var label_counts: map<string, nat> := map[];
    ghost var done := items;
    assert items + TempItems(d)[..0] == items;
    for n := 0 to |d.temps|
      invariant done == items + TempItems(d)[..n] && Tracks(tr, done, hottest', f)
      invariant Counts(label_counts, TempTags(d)[..n])
    {
      var t := d.temps[n];
      var tag := if t.name == "" then t.file else t.name;
      var count: nat;
      count, label_counts := CountTag(label_counts, tag, TempTags(d), n);
      ghost var item := TempItem(d, n);
      hottest' := PutTemp(tr, d.name, tag, count, t.mC, hottest', done, f);
      Grow(items, TempItems(d), n);
      done := done + [item];
    }
    assert TempItems(d)[..|d.temps|] == TempItems(d);
  }

  method PutTemp(tr: Transaction, dev: string, tag: string, count: nat, mC: int, hottest: Option<(int, string)>,
                 ghost items: seq<Item>, ghost f: Fans)
    returns (hottest': Option<(int, string)>)
    requires Tracks(tr, items, hottest, f)
    modifies tr
    ensures Tracks(tr, items + [Temp(dev, tag, count, mC)], hottest', f)
  {
    var name := SensorName(dev, tag, count);
    ghost var item := Temp(dev, tag, count, mC);
    ItemsSnoc(items, item);
    tr.Set(name + ".label", Text(tag + " [" + Dec(count) + "]"));
    tr.Set(name + ".temp", Int(mC, "mC"));
    assert tr.calls == ItemsCalls(items) + ItemCalls(item);
    hottest' := if hottest == None || mC > hottest.value.0 then Some((mC, name)) else hottest;
  }

  method PutFans(tr: Transaction, d: Device, ghost hottest: Option<(int, string)>, ghost items: seq<Item>, f: Fans)
    returns (f': Fans)
    requires Tracks(tr, items, hottest, f)
    modifies tr
    ensures Tracks(tr, items + FanItems(d), hottest, f')
  {
    f' := f;
    var label_counts: map<string, nat> := map[];
    ghost var done := items;
    assert items + FanItems(d)[..0] == items;
    for n := 0 to |d.fans|
      invariant done == items + FanItems(d)[..n] && Tracks(tr, done, hottest, f')
      invariant Counts(label_counts, FanTags(d)[..n])
    {
      var fan := d.fans[n];
      var tag := if fan.name == "" then fan.file else fan.name;
      var count: nat;
      count, label_counts := CountTag(label_counts, tag, FanTags(d), n);
      ghost var item := FanItem(d, n);
      f' := PutFan(tr, d.name, tag, count, fan, hottest, done, f');
      Grow(items, FanItems(d), n);
      done := done + [item];
    }
    assert FanItems(d)[..|d.fans|] == FanItems(d);
  }

  method PutFan(tr: Transaction, dev: string, tag: string, count: nat, fan: Fan, ghost hottest: Option<(int, string)>,
                ghost items: seq<Item>, f: Fans)
    returns (f': Fans)
    requires Tracks(tr, items, hottest, f)
    modifies tr
    ensures Tracks(tr, items + [Rotor(dev, tag, count, fan.input, fan.target)], hottest, f')
  {
    var name := SensorName(dev, tag, count);
    ghost var item := Rotor(dev, tag, count, fan.input, fan.target);
    ItemsSnoc(items, item);
    tr.Set(name + ".label", Text(tag + " [" + Dec(count) + "]"));
    tr.Set(name + ".input", Int(fan.input, "rpm"));
    tr.Set(name + ".target", Int(fan.target, "rpm"));
    assert tr.calls == ItemsCalls(items) + ItemCalls(item);
    f' := f.(num := f.num + 1);
    if fan.input != 0 {
      f' := f'.(turning := f'.turning + 1);
    } else if fan.target != 0 {
      f' := f'.(stuck := f'.stuck + 1);
    }
  }

  lemma {:induction false} KeptNext(devs: seq<Device>, n: nat)
    requires n < |devs|
    ensures var k := Kept(devs[..n]);
            Kept(devs[..n + 1]) == if devs[n].name == "" || devs[n].name in Names(k) then k else k + [devs[n]]
    ensures Items(Kept(devs[..n]) + [devs[n]]) == Items(Kept(devs[..n])) + TempItems(devs[n]) + FanItems(devs[n])
    ensures Names(Kept(devs[..n]) + [devs[n]]) == Names(Kept(devs[..n])) + {devs[n].name}
  {
    assert devs[..n + 1][..n] == devs[..n];
    assert (Kept(devs[..n]) + [devs[n]])[..|Kept(devs[..n])|] == Kept(devs[..n]);
    var k := Kept(devs[..n]) + [devs[n]];
    forall x | x in Names(Kept(devs[..n])) + {devs[n].name} ensures x in Names(k) {
      if x == devs[n].name {
        assert devs[n] in k;
      } else {
        var d :| d in Kept(devs[..n]) && d.name == x;
        assert d in k;
      }
    }
  }

  /** One update over what was read from the monitor directories. */
  method Update(tbl: StatTable, now: int, devs: seq<Device>)
    modifies tbl
    ensures tbl.current == Fold(AllCalls(devs))
  {
    var tr := new Transaction(tbl, now);
    var devs_seen: set<string> := {};
    var hottest: Option<(int, string)> := None;
    var fans := Fans(0, 0, 0);
    ghost var items: seq<Item> := [];
    for n := 0 to |devs|
      invariant fresh(tr) && tr.tbl == tbl && Tracks(tr, items, hottest, fans)
      invariant items == Items(Kept(devs[..n])) && devs_seen == Names(Kept(devs[..n]))
    {
      var d := devs[n];
      KeptNext(devs, n);
      if d.name != "" && d.name !in devs_seen {
        devs_seen := devs_seen + {d.name};
        hottest := PutTemps(tr, d, hottest, items, fans);
        fans := PutFans(tr, d, hottest, items + TempItems(d), fans);
        items := items + TempItems(d) + FanItems(d);
      }
    }
    assert devs[..|devs|] == devs;
    PutMax(tr, hottest, fans, items);
    PutFanCounts(tr, fans, items);
    Regroup(ItemsCalls(items), MaxCalls(items), FanCalls(items));
    tr.Commit();
  }

  method PutMax(tr: Transaction, hottest: Option<(int, string)>, ghost f: Fans, ghost items: seq<Item>)
    requires Tracks(tr, items, hottest, f)
    modifies tr
    ensures tr.Valid() && tr.calls == old(tr.calls) + MaxCalls(items)
  {
    if hottest.Some? {
      tr.Set("temp_max", Int(hottest.value.0, "mC"));
      tr.Set("name_max", Text(hottest.value.1));
    } else {
      tr.Set("temp_max", Empty);
      tr.Set("name_max", Empty);
    }
  }

  method PutFanCounts(tr: Transaction, f: Fans, ghost items: seq<Item>)
    requires tr.Valid() && CountFans(items) == f
    modifies tr
    ensures tr.Valid() && tr.calls == old(tr.calls) + FanCalls(items)
  {
    tr.Set("fans_num", Int(f.num, ""));
    tr.Set("fans_turning", Int(f.turning, ""));
    tr.Set("fans_stuck", Int(f.stuck, ""));
  }
}
