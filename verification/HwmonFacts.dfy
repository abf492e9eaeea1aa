/** What a reader of the hardware monitor table can rely on. */
module HwmonFacts {
  import opened Sequences
  import opened Decimal
  import opened HwmonNames
  import opened Options
  import opened Tables
  import opened Hwmon

  // ----- occurrences of a label count up from zero

  lemma {:induction false} CountGrows(tags: seq<string>, tag: string, i: nat, k: nat)
    requires i <= k <= |tags|
    ensures Count(tags[..i], tag) <= Count(tags[..k], tag)
  {
    if i < k {
      CountGrows(tags, tag, i, k - 1);
      assert tags[..k][..k - 1] == tags[..k - 1];
    }
  }

  lemma {:induction false} OccurrencesDiffer(tags: seq<string>, i: nat, k: nat)
    requires i < k < |tags| && tags[i] == tags[k]
    ensures Occurrence(tags, i) < Occurrence(tags, k)
  {
    assert tags[..i + 1][..i] == tags[..i];
    CountGrows(tags, tags[k], i + 1, k);
  }

  lemma {:induction false} OccurrenceFound(tags: seq<string>, tag: string, c: nat) returns (i: nat)
    requires c < Count(tags, tag)
    ensures i < |tags| && tags[i] == tag && Occurrence(tags, i) == c
    decreases |tags|
  {
    var n := |tags| - 1;
    if tags[n] == tag && c == Count(tags[..n], tag) {
      i := n;
    } else {
      i := OccurrenceFound(tags[..n], tag, c);
      assert tags[..n][..i] == tags[..i];
    }
  }

  lemma {:induction false} OccurrenceBound(tags: seq<string>, i: nat)
    requires i < |tags|
    ensures Occurrence(tags, i) < Count(tags, tags[i])
  {
    assert tags[..i + 1][..i] == tags[..i];
    CountGrows(tags, tags[i], i + 1, |tags|);
    assert tags[..|tags|] == tags;
  }

  /** The occurrences of a label are exactly 0 up to the number of its sensors, each once. */
  lemma {:induction false} OccurrencesFill(tags: seq<string>, tag: string, c: nat)
    ensures c < Count(tags, tag) <==> exists i :: 0 <= i < |tags| && tags[i] == tag && Occurrence(tags, i) == c
    ensures forall i, k :: 0 <= i < k < |tags| && tags[i] == tags[k] ==> Occurrence(tags, i) != Occurrence(tags, k)
  {
    if c < Count(tags, tag) {
      var i := OccurrenceFound(tags, tag, c);
    }
    forall i | 0 <= i < |tags| ensures Occurrence(tags, i) < Count(tags, tags[i]) {
      OccurrenceBound(tags, i);
    }
    forall i, k | 0 <= i < k < |tags| && tags[i] == tags[k] ensures Occurrence(tags, i) != Occurrence(tags, k) {
      OccurrencesDiffer(tags, i, k);
    }
  }

  // ----- no two sensors of an update share a name, and no two fans

  predicate SameLabel(a: Item, b: Item) { a.dev == b.dev && a.tag == b.tag && a.count == b.count }

  /** Two temperatures or two fans with the same name. */
  predicate SameKindAndLabel(a: Item, b: Item) { a.Temp? == b.Temp? && SameLabel(a, b) }

  ghost predicate Unique(items: seq<Item>) {
    forall i, k :: 0 <= i < k < |items| ==> !SameKindAndLabel(items[i], items[k])
  }

  ghost predicate DistinctNames(devs: seq<Device>) {
    forall i, k :: 0 <= i < k < |devs| ==> devs[i].name != devs[k].name
  }

  lemma {:induction false} KeptDistinct(devs: seq<Device>)
    ensures DistinctNames(Kept(devs))
    decreases |devs|
  {
    if devs != [] {
      var before := Kept(devs[..|devs| - 1]);
      KeptDistinct(devs[..|devs| - 1]);
      forall i | 0 <= i < |before| ensures before[i].name in Names(before) {
        assert before[i] in before;
      }
    }
  }

  /** Device `i` is the first of its name, and has one. */
  ghost predicate IsFirst(devs: seq<Device>, i: nat) {
    i < |devs| && devs[i].name != "" && forall k :: 0 <= k < i ==> devs[k].name != devs[i].name
  }

  lemma {:induction false} KeptIsFirst(devs: seq<Device>, d: Device) returns (i: nat)
    requires d in Kept(devs)
    ensures IsFirst(devs, i) && devs[i] == d
    decreases |devs|
  {
    var n := |devs| - 1;
    if d in Kept(devs[..n]) {
      i := KeptIsFirst(devs[..n], d);
    } else {
      i := n;
      forall k | 0 <= k < n && devs[k].name == d.name ensures false {
        NameIsKept(devs[..n], k);
        assert false;
      }
    }
  }

  lemma {:induction false} NameIsKept(devs: seq<Device>, i: nat)
    requires i < |devs| && devs[i].name != ""
    ensures devs[i].name in Names(Kept(devs))
    decreases |devs|
  {
    var n := |devs| - 1;
    if i < n {
      NameIsKept(devs[..n], i);
      var d :| d in Kept(devs[..n]) && d.name == devs[i].name;
      assert d in Kept(devs);
    } else if devs[n].name !in Names(Kept(devs[..n])) {
      assert devs[n] in Kept(devs);
    }
  }

  lemma {:induction false} FirstIsKept(devs: seq<Device>, i: nat)
    requires IsFirst(devs, i)
    ensures devs[i] in Kept(devs)
    decreases |devs|
  {
    var n := |devs| - 1;
    if i < n {
      FirstIsKept(devs[..n], i);
    } else if devs[n].name in Names(Kept(devs[..n])) {
      var d :| d in Kept(devs[..n]) && d.name == devs[n].name;
      var k := KeptIsFirst(devs[..n], d);
    }
  }

  /** The devices taken are the first ones of each name, no two of them with the same name. */
  lemma {:induction false} FirstOfEachName(devs: seq<Device>, d: Device)
    ensures d in Kept(devs) <==> exists i: nat :: IsFirst(devs, i) && devs[i] == d
    ensures DistinctNames(Kept(devs))
  {
    KeptDistinct(devs);
    if d in Kept(devs) {
      var i := KeptIsFirst(devs, d);
    }
    forall i: nat | IsFirst(devs, i) ensures devs[i] in Kept(devs) {
      FirstIsKept(devs, i);
    }
  }

  lemma {:induction false} ItemDevices(devs: seq<Device>, i: nat)
    requires i < |Items(devs)|
    ensures exists d :: d in devs && d.name == Items(devs)[i].dev
    decreases |devs|
  {
    var n := |devs| - 1;
    var before := Items(devs[..n]);
    if i < |before| {
      ItemDevices(devs[..n], i);
      var d :| d in devs[..n] && d.name == before[i].dev;
      assert d in devs;
    } else {
      assert devs[n] in devs;
    }
  }

  lemma {:induction false} TempsUnique(d: Device)
    ensures Unique(TempItems(d))
  {
    forall i, k | 0 <= i < k < |d.temps| && TempTags(d)[i] == TempTags(d)[k]
      ensures Occurrence(TempTags(d), i) != Occurrence(TempTags(d), k)
    {
      OccurrencesDiffer(TempTags(d), i, k);
    }
  }

  lemma {:induction false} FansUnique(d: Device)
    ensures Unique(FanItems(d))
  {
    forall i, k | 0 <= i < k < |d.fans| && FanTags(d)[i] == FanTags(d)[k]
      ensures Occurrence(FanTags(d), i) != Occurrence(FanTags(d), k)
    {
      OccurrencesDiffer(FanTags(d), i, k);
    }
  }

  lemma {:induction false} DeviceUnique(d: Device)
    ensures Unique(TempItems(d) + FanItems(d))
  {
    TempsUnique(d);
    FansUnique(d);
    UniqueConcat(TempItems(d), FanItems(d));
  }

  lemma {:induction false} OtherDevice(devs: seq<Device>, d: Device, i: nat)
    requires d.name !in Names(devs) && i < |Items(devs)|
    ensures Items(devs)[i].dev != d.name
  {
    ItemDevices(devs, i);
  }

  lemma {:induction false} LastIsNew(devs: seq<Device>)
    requires DistinctNames(devs) && devs != []
    ensures devs[|devs| - 1].name !in Names(devs[..|devs| - 1])
  {
  }

  lemma {:induction false} ItemsUnique(devs: seq<Device>)
    requires DistinctNames(devs)
    ensures Unique(Items(devs))
    decreases |devs|
  {
    if devs != [] {
      var n := |devs| - 1;
      var a, b := Items(devs[..n]), TempItems(devs[n]) + FanItems(devs[n]);
      ItemsUnique(devs[..n]);
      DeviceUnique(devs[n]);
      LastIsNew(devs);
      forall i, k | 0 <= i < |a| && 0 <= k < |b| ensures !SameKindAndLabel(a[i], b[k]) {
        OtherDevice(devs[..n], devs[n], i);
      }
      UniqueConcat(a, b);
      Regroup(Items(devs[..n]), TempItems(devs[n]), FanItems(devs[n]));
    }
  }

  lemma {:induction false} UniqueConcat(a: seq<Item>, b: seq<Item>)
    requires Unique(a) && Unique(b)
    requires forall i, k :: 0 <= i < |a| && 0 <= k < |b| ==> !SameKindAndLabel(a[i], b[k])
    ensures Unique(a + b)
  {
  }

  // ----- every reading ends up in the table

  /** No device name, followed by a dot, begins the name of another device of the update. */
  ghost predicate Apart(devs: seq<Device>) {
    forall d, e :: d in Kept(devs) && e in Kept(devs) && d.name != e.name ==> !Shadows(d.name, e.name)
  }

  /** Names without dots are far enough apart. */
  lemma {:induction false} DotFreeNamesAreApart(devs: seq<Device>)
    requires forall d :: d in Kept(devs) ==> '.' !in d.name
    ensures Apart(devs)
  {
    forall d, e | d in Kept(devs) && e in Kept(devs) && d.name != e.name ensures !Shadows(d.name, e.name) {
      ShadowHasDot(d.name, e.name);
    }
  }

  lemma {:induction false} AllAgree(calls: seq<SetCall>, name: string, value: Value)
    requires exists i :: 0 <= i < |calls| && calls[i].name == name
    requires forall i :: 0 <= i < |calls| && calls[i].name == name ==> calls[i].value == value
    ensures name in Fold(calls) && Fold(calls)[name] == value
    decreases |calls|
  {
    var n := |calls| - 1;
    if calls[n].name != name {
      var i :| 0 <= i < |calls| && calls[i].name == name;
      assert calls[..n][i].name == name;
      AllAgree(calls[..n], name, value);
    }
  }

  lemma {:induction false} CallOrigin(items: seq<Item>, c: nat) returns (i: nat)
    requires c < |ItemsCalls(items)|
    ensures i < |items| && ItemsCalls(items)[c] in ItemCalls(items[i])
    decreases |items|
  {
    var n := |items| - 1;
    if c < |ItemsCalls(items[..n])| {
      i := CallOrigin(items[..n], c);
    } else {
      i := n;
    }
  }

  lemma {:induction false} CallPlace(items: seq<Item>, i: nat, call: SetCall)
    requires i < |items| && call in ItemCalls(items[i])
    ensures call in ItemsCalls(items)
    decreases |items|
  {
    if i < |items| - 1 {
      CallPlace(items[..|items| - 1], i, call);
    }
  }

  /** What an item puts into the table behind its name and a dot. */
  function Entry(i: Item, field: string): Option<Value> {
    if field == "label" then Some(Text(i.tag + " [" + Dec(i.count) + "]"))
    else if field == "temp" && i.Temp? then Some(Int(i.mC, "mC"))
    else if field == "input" && i.Rotor? then Some(Int(i.input, "rpm"))
    else if field == "target" && i.Rotor? then Some(Int(i.target, "rpm"))
    else None
  }

  lemma {:induction false} CallIsEntry(i: Item, call: SetCall) returns (field: string)
    requires call in ItemCalls(i)
    ensures '.' !in field && call.name == NameOf(i) + ("." + field) && Entry(i, field) == Some(call.value)
  {
    var c :| 0 <= c < |ItemCalls(i)| && ItemCalls(i)[c] == call;
    field := if c == 0 then "label" else if i.Temp? then "temp" else if c == 1 then "input" else "target";
    assert "." + field == if c == 0 then ".label" else if i.Temp? then ".temp"
                          else if c == 1 then ".input" else ".target";
  }

  /** Names tell device, label and occurrence. */
  lemma {:induction false} SameNameSameLabel(devs: seq<Device>, i: nat, k: nat)
    requires Apart(devs) && i < |Items(Kept(devs))| && k < |Items(Kept(devs))|
    requires NameOf(Items(Kept(devs))[i]) == NameOf(Items(Kept(devs))[k])
    ensures SameLabel(Items(Kept(devs))[i], Items(Kept(devs))[k])
  {
    var a, b := Items(Kept(devs))[i], Items(Kept(devs))[k];
    ItemDevices(Kept(devs), i);
    ItemDevices(Kept(devs), k);
    if a.dev != b.dev {
      if |a.dev| <= |b.dev| {
        ShorterShadows(a.dev, a.tag + ("." + Dec(a.count)), b.dev, b.tag + ("." + Dec(b.count)));
      } else {
        ShorterShadows(b.dev, b.tag + ("." + Dec(b.count)), a.dev, a.tag + ("." + Dec(a.count)));
      }
    } else {
      SameDevice(a.dev, a.tag, a.count, b.tag, b.count);
    }
  }

  lemma {:induction false} SameKindSameItem(devs: seq<Device>, i: nat, k: nat)
    requires i < |Items(Kept(devs))| && k < |Items(Kept(devs))|
    requires SameKindAndLabel(Items(Kept(devs))[i], Items(Kept(devs))[k])
    ensures i == k
  {
    KeptDistinct(devs);
    ItemsUnique(Kept(devs));
    var items := Items(Kept(devs));
    assert SameKindAndLabel(items[k], items[i]);
  }

  /** Items of one name agree on every entry both of them make. */
  lemma {:induction false} SameEntry(devs: seq<Device>, i: nat, k: nat, field: string)
    requires i < |Items(Kept(devs))| && k < |Items(Kept(devs))|
    requires SameLabel(Items(Kept(devs))[i], Items(Kept(devs))[k])
    requires Entry(Items(Kept(devs))[i], field).Some? && Entry(Items(Kept(devs))[k], field).Some?
    ensures Entry(Items(Kept(devs))[i], field) == Entry(Items(Kept(devs))[k], field)
  {
    if field != "label" {
      SameKindSameItem(devs, i, k);
    }
  }

  lemma {:induction false} SummaryName(items: seq<Item>, c: nat)
    requires c < 5
    ensures (MaxCalls(items) + FanCalls(items))[c].name
            == ["temp_max", "name_max", "fans_num", "fans_turning", "fans_stuck"][c]
  {
    if c >= 2 {
      assert (MaxCalls(items) + FanCalls(items))[c] == FanCalls(items)[c - 2];
    }
  }

  lemma {:induction false} NoDots(c: nat)
    requires c < 5
    ensures '.' !in ["temp_max", "name_max", "fans_num", "fans_turning", "fans_stuck"][c]
  {
  }

  /** Where a call of the update comes from. */
  lemma {:induction false} CallsOfUpdate(devs: seq<Device>, c: nat)
    requires c < |AllCalls(devs)| && '.' in AllCalls(devs)[c].name
    ensures c < |ItemsCalls(Items(Kept(devs)))| && AllCalls(devs)[c] == ItemsCalls(Items(Kept(devs)))[c]
  {
    var items := Items(Kept(devs));
    var n := |ItemsCalls(items)|;
    if c >= n {
      assert AllCalls(devs)[c] == (MaxCalls(items) + FanCalls(items))[c - n];
      SummaryName(items, c - n);
      NoDots(c - n);
    }
  }

  lemma {:induction false} HasDot(name: string, field: string)
    ensures '.' in name + ("." + field)
  {
    assert (name + ("." + field))[|name|] == '.';
  }

  /** All calls for one name give it the same value. */
  lemma {:induction false} CallsAgree(devs: seq<Device>, i: nat, call: SetCall, c: nat)
    requires Apart(devs) && i < |Items(Kept(devs))| && call in ItemCalls(Items(Kept(devs))[i])
    requires c < |AllCalls(devs)| && AllCalls(devs)[c].name == call.name
    ensures AllCalls(devs)[c].value == call.value
  {
    var items := Items(Kept(devs));
    var field := CallIsEntry(items[i], call);
    HasDot(NameOf(items[i]), field);
    CallsOfUpdate(devs, c);
    var k := CallOrigin(items, c);
    var field' := CallIsEntry(items[k], AllCalls(devs)[c]);
    LastDot(NameOf(items[i]), field, NameOf(items[k]), field');
    SameNameSameLabel(devs, i, k);
    SameEntry(devs, i, k, field);
  }

  /** No reading overwrites another: whatever is read of any sensor or fan is found after the update, under
      its own name. */
  lemma {:induction false} NoReadingLost(devs: seq<Device>, i: nat, call: SetCall)
    requires Apart(devs) && i < |Items(Kept(devs))| && call in ItemCalls(Items(Kept(devs))[i])
    ensures call.name in Fold(AllCalls(devs)) && Fold(AllCalls(devs))[call.name] == call.value
  {
    var calls := AllCalls(devs);
    CallPlace(Items(Kept(devs)), i, call);
    assert call in calls;
    forall c | 0 <= c < |calls| && calls[c].name == call.name ensures calls[c].value == call.value {
      CallsAgree(devs, i, call, c);
    }
    AllAgree(calls, call.name, call.value);
  }

  // ----- the summary

  lemma {:induction false} SummaryIsLast(devs: seq<Device>)
    ensures var items := Items(Kept(devs));
            var n, summary := |ItemsCalls(items)|, MaxCalls(items) + FanCalls(items);
            |AllCalls(devs)| == n + 5 && AllCalls(devs)[n..] == summary
  {
  }

  lemma {:induction false} SummaryDistinct(items: seq<Item>, c: nat, k: nat)
    requires c < k < 5
    ensures (MaxCalls(items) + FanCalls(items))[c].name != (MaxCalls(items) + FanCalls(items))[k].name
  {
    var names := ["temp_max", "name_max", "fans_num", "fans_turning", "fans_stuck"];
    SummaryName(items, c);
    SummaryName(items, k);
    assert |names[0]| == |names[1]| == |names[2]| == 8 && |names[3]| == 12 && |names[4]| == 10;
    assert names[0][0] == 't' && names[1][0] == 'n' && names[2][0] == 'f';
  }

  /** The five entries of the summary. */
  lemma {:induction false} SummaryEntry(devs: seq<Device>, c: nat)
    requires c < 5
    ensures var call := (MaxCalls(Items(Kept(devs))) + FanCalls(Items(Kept(devs))))[c];
            call.name in Fold(AllCalls(devs)) && Fold(AllCalls(devs))[call.name] == call.value
  {
    var calls, items := AllCalls(devs), Items(Kept(devs));
    var n, summary := |ItemsCalls(items)|, MaxCalls(items) + FanCalls(items);
    SummaryIsLast(devs);
    forall k | n + c < k < |calls| ensures calls[k].name != summary[c].name {
      assert calls[k] == calls[n..][k - n];
      SummaryDistinct(items, c, k - n);
    }
    assert calls[n + c] == calls[n..][c];
    LastSetWins(calls, summary[c].name, n + c);
  }

  /** Being apart is what it takes: whenever a device name shadows another there are sensors of the two, the
      ones below, that have one entry between them, and it shows the reading of the second only. */
  lemma {:induction false} ShadowedReadingIsLost(d: string, e: string, s: string, t: string)
    returns (devs: seq<Device>, l1: string, l2: string)
    requires d != "" && Shadows(d, e)
    ensures devs == [Device(d, [Sensor(s, l1, 1)], []), Device(e, [Sensor(t, l2, 2)], [])]
    ensures var items := Items(Kept(devs));
            var row := Fold(AllCalls(devs));
            && items == [Temp(d, l1, 0, 1), Temp(e, l2, 0, 2)]
            && NameOf(items[0]) == NameOf(items[1])
            && NameOf(items[0]) + ".temp" in row && row[NameOf(items[0]) + ".temp"] == Int(2, "mC")
  {
    l1, l2 := ShadowCollides(d, e);
    devs := [Device(d, [Sensor(s, l1, 1)], []), Device(e, [Sensor(t, l2, 2)], [])];
    var a, b := Temp(d, l1, 0, 1), Temp(e, l2, 0, 2);
    TwoDevices(devs[0], devs[1], a, b);
    TwoItems(a, b);
    var calls, name := AllCalls(devs), NameOf(b) + ".temp";
    assert calls[3] == SetCall(name, Int(2, "mC"));
    forall k | 3 < k < |calls| ensures calls[k].name != name {
      if calls[k].name == name {
        assert name[|NameOf(b)|] == '.';
        CallsOfUpdate(devs, k);
      }
    }
    LastSetWins(calls, name, 3);
  }

  lemma {:induction false} TwoDevices(d: Device, e: Device, a: Item, b: Item)
    requires d.name != "" && e.name != "" && d.name != e.name && d.fans == e.fans == []
    requires TempItems(d) == [a] && TempItems(e) == [b]
    ensures Items(Kept([d, e])) == [a, b]
  {
    var devs := [d, e];
    assert devs[..1] == [d] && [d][..0] == [];
    assert Kept([d]) == [d];
    assert Names([d]) == {d.name};
    assert Kept(devs) == [d, e];
    assert Items([d]) == [a];
  }

  lemma {:induction false} TwoItems(a: Item, b: Item)
    ensures ItemsCalls([a, b]) == ItemCalls(a) + ItemCalls(b)
  {
    assert [a, b][..1] == [a] && [a][..0] == [];
    assert ItemsCalls([a]) == ItemCalls(a);
  }
}
