/** What a string record shows: the printer's text is copied over what the record held before, without a
    terminator of its own. */
module DurationRecord {
  import opened Decimal
  import opened Duration

  const SIZE: nat := 40
  const NUL: char := '\0'

  /** The record's value after text `s` has been copied over `was`. */
  function Stored(was: string, s: string): (v: string)
    requires |was| == SIZE && |s| < SIZE
    ensures |v| == SIZE
  {
    s + was[|s|..SIZE - 1] + [NUL]
  }

  /** What a reader makes of a buffer: everything before the first terminator. */
  function CString(v: string): (s: string)
    ensures s <= v && (forall i :: 0 <= i < |s| ==> s[i] != NUL) && (|s| < |v| ==> v[|s|] == NUL)
  {
    if v == "" || v[0] == NUL then "" else [v[0]] + CString(v[1..])
  }

  /** Only one prefix without a terminator ends at one. */
  lemma {:induction false} CStringIs(v: string, s: string)
    requires s <= v && |s| < |v| && v[|s|] == NUL && forall i :: 0 <= i < |s| ==> s[i] != NUL
    ensures CString(v) == s
  {
    if s != "" {
      CStringIs(v[1..], s[1..]);
      assert s == [s[0]] + s[1..];
    }
  }

  // ----- the text has no terminator in it

  predicate NoNul(s: string) { forall i :: 0 <= i < |s| ==> s[i] != NUL }

  lemma {:induction false} TermHasNoNul(count: nat, unit: string)
    requires unit == "D" || unit == "H" || unit == "M"
    ensures NoNul(Term(count, unit))
  {
    assert NoNul(Dec(count)) && NoNul(Unit(unit));
  }

  lemma {:induction false} TextHasNoNul(u: nat)
    ensures NoNul(Text(u))
  {
    TermHasNoNul(u / 86400, "D");
    TermHasNoNul(u % 86400 / 3600, "H");
    TermHasNoNul(u % 86400 % 3600 / 60, "M");
    assert NoNul(Dec(u % 86400 % 3600 % 60)) && NoNul(" S");
  }

  // ----- one processing

  /** The record shows the text if and only if the text fills it, or the value before ended where the text
      does. */
  lemma {:induction false} ShowsTextIff(was: string, s: string)
    requires |was| == SIZE && |s| < SIZE && NoNul(s)
    ensures CString(Stored(was, s)) == s <==> |s| == SIZE - 1 || was[|s|] == NUL
  {
    var v := Stored(was, s);
    assert v[..|s|] == s;
    assert v[|s|] == if |s| == SIZE - 1 then NUL else was[|s|];
    if v[|s|] == NUL {
      CStringIs(v, s);
    }
  }

  /** Copies a text in and terminates the last place. */
  method CopyInto(val: array<char>, s: string)
    requires val.Length == SIZE && |s| < SIZE
    modifies val
    ensures val[..] == Stored(old(val[..]), s)
  {
    for i := 0 to |s|
      invariant val[..i] == s[..i] && val[i..] == old(val[i..])
    {
      val[i] := s[i];
    }
    val[SIZE - 1] := NUL;
  }

  /** The processing: format, copy, terminate. */
  method Process(val: array<char>, seconds: Int32)
    requires val.Length == SIZE
    modifies val
    ensures Fits(Text(AsUint64(seconds))) && val[..] == Stored(old(val[..]), Text(AsUint64(seconds)))
  {
    var s := Format(seconds);
    EveryTextFits(seconds);
    CopyInto(val, s);
  }

  // ----- a record over its life

  predicate Fits(s: string) { |s| < SIZE && NoNul(s) }

  lemma {:induction false} EveryTextFits(x: Int32)
    ensures Fits(Text(AsUint64(x)))
  {
    TextFits(x);
    TextHasNoNul(AsUint64(x));
  }

  predicate AllFit(texts: seq<string>) { forall i :: 0 <= i < |texts| ==> Fits(texts[i]) }

  /** The value of a record, empty at first, after these texts. */
  function After(texts: seq<string>): (v: string)
    requires AllFit(texts)
    ensures |v| == SIZE
  {
    if texts == [] then seq(SIZE, _ => NUL)
    else Stored(After(texts[..|texts| - 1]), texts[|texts| - 1])
  }

  /** A place of the record is still empty exactly as long as no text has reached it. */
  lemma {:induction false} EmptyPlaces(texts: seq<string>, p: nat)
    requires AllFit(texts) && p < SIZE
    ensures After(texts)[p] == NUL <==> forall i :: 0 <= i < |texts| ==> |texts[i]| <= p
    decreases |texts|
  {
    if texts != [] {
      var n := |texts| - 1;
      EmptyPlaces(texts[..n], p);
      assert forall i :: 0 <= i < n ==> texts[..n][i] == texts[i];
      PlaceOf(After(texts[..n]), texts[n], p);
    }
  }

  lemma {:induction false} PlaceOf(was: string, s: string, p: nat)
    requires |was| == SIZE && |s| < SIZE && p < SIZE
    ensures Stored(was, s)[p] == if p < |s| then s[p] else if p < SIZE - 1 then was[p] else NUL
  {
  }

  /** What processing these numbers prints. */
  function Texts(xs: seq<Int32>): (texts: seq<string>)
    ensures |texts| == |xs|
  {
    seq(|xs|, i requires 0 <= i < |xs| => Text(AsUint64(xs[i])))
  }

  lemma {:induction false} AllTextsFit(xs: seq<Int32>)
    ensures AllFit(Texts(xs))
  {
    forall i | 0 <= i < |xs| ensures Fits(Texts(xs)[i]) {
      EveryTextFits(xs[i]);
    }
  }

  /** A record shows what it last printed if and only if it has never printed anything longer. */
  lemma {:induction false} ShowsLastIff(xs: seq<Int32>, x: Int32)
    ensures AllFit(Texts(xs)) && Fits(Text(AsUint64(x)))
    ensures CString(Stored(After(Texts(xs)), Text(AsUint64(x)))) == Text(AsUint64(x)) <==>
              forall i :: 0 <= i < |xs| ==> |Texts(xs)[i]| <= |Text(AsUint64(x))|
  {
    AllTextsFit(xs);
    EveryTextFits(x);
    ShownIff(Texts(xs), Text(AsUint64(x)));
  }

  lemma {:induction false} ShownIff(texts: seq<string>, s: string)
    requires AllFit(texts) && Fits(s)
    ensures CString(Stored(After(texts), s)) == s <==> forall i :: 0 <= i < |texts| ==> |texts[i]| <= |s|
  {
    ShowsTextIff(After(texts), s);
    EmptyPlaces(texts, |s|);
  }

  /** An hour after 59 minutes and 59 seconds. */
  lemma {:induction false} TailIsLeft()
    ensures Texts([3599]) == ["59 M 59 S"] && Text(3600) == "1 H 0 S" && AllFit(["59 M 59 S"])
    ensures CString(Stored(After(["59 M 59 S"]), "1 H 0 S")) == "1 H 0 S S"
  {
    TwoTexts();
    var texts := ["59 M 59 S"];
    assert texts[..0] == [];
    var v := Stored(After(texts), "1 H 0 S");
    assert v[..9] == "1 H 0 S S";
    CStringIs(v, "1 H 0 S S");
  }

  lemma {:induction false} TwoTexts()
    ensures Text(3599) == "59 M 59 S" && Text(3600) == "1 H 0 S"
  {
    MinutesAndSeconds();
    FullHour();
  }

  lemma {:induction false} MinutesAndSeconds()
    ensures Text(3599) == "59 M 59 S"
  {
    Digits();
    assert MinutesText(3599) == Term(59, "M") + SecondsText(59);
  }

  lemma {:induction false} FullHour()
    ensures Text(3600) == "1 H 0 S"
  {
    Digits();
    assert HoursText(3600) == Term(1, "H") + MinutesText(0);
    assert MinutesText(0) == "" + SecondsText(0);
  }

  lemma {:induction false} Digits()
    ensures Dec(59) == "59" && Dec(1) == "1" && Dec(0) == "0"
  {
  }
}
