/** The printer of durations: days, hours, minutes and seconds, leaving out leading units that are zero
    and any other unit but seconds that is. */
module Duration {
  import opened Sequences
  import opened Decimal
  import opened Options

  const TWO64: nat := 0x1_0000_0000_0000_0000

  type Int32 = x: int | -0x8000_0000 <= x < 0x8000_0000

  /** Conversion of a signed 32-bit number to an unsigned 64-bit one. */
  function AsUint64(x: Int32): (u: nat)
    ensures u < TWO64
  {
    if x < 0 then TWO64 + x else x
  }

  datatype Interval = Interval(period: nat, unit: string)

  const INTERVALS: seq<Interval> := [Interval(86400, "D"), Interval(3600, "H"), Interval(60, "M")]

  function Unit(unit: string): string { " " + unit + " " }

  function Term(count: nat, unit: string): string {
    if count == 0 then "" else Dec(count) + Unit(unit)
  }

  /** The text for `u` seconds. */
  function Text(u: nat): string { Term(u / 86400, "D") + HoursText(u % 86400) }

  function HoursText(u: nat): string { Term(u / 3600, "H") + MinutesText(u % 3600) }

  function MinutesText(u: nat): string { Term(u / 60, "M") + SecondsText(u % 60) }

  function SecondsText(u: nat): string { Dec(u) + " S" }

  /** The text from the `i`-th interval on. */
  function TextFrom(u: nat, i: nat): string {
    if i == 0 then Text(u) else if i == 1 then HoursText(u) else if i == 2 then MinutesText(u) else SecondsText(u)
  }

  /** What one interval contributes, by its entry in the table. */
  lemma {:induction false} IntervalText(u: nat, i: nat)
    requires i < 3 && u < TWO64
    ensures var ivl := INTERVALS[i];
            && TextFrom(u, i) == Term(u / ivl.period, ivl.unit) + TextFrom(u % ivl.period, i + 1)
            && 0 <= u % ivl.period < 86400
            && (u / ivl.period == 0 ==> u % ivl.period == u)
  {
  }

  lemma {:induction false} TermThenRest(msg: string, count: nat, unit: string, rest: string)
    ensures count != 0 ==> msg + Dec(count) + " " + unit + " " + rest == msg + (Term(count, unit) + rest)
    ensures count == 0 ==> msg + rest == msg + (Term(count, unit) + rest)
  {
    assert count == 0 ==> Term(count, unit) + rest == rest;
  }

  /** The record's loop over the intervals.  The first division is of the unsigned 64-bit conversion; what
      it leaves fits 32 bits and is not negative. */
  method Format(seconds: Int32) returns (msg: string)
    ensures msg == Text(AsUint64(seconds))
  {
    var uptime: Int32 := seconds;
    msg := "";
    assert "" + Text(AsUint64(seconds)) == Text(AsUint64(seconds));
    var i := 0;
    while i < |INTERVALS|
      invariant 0 <= i <= 3
      invariant msg + TextFrom(AsUint64(uptime), i) == Text(AsUint64(seconds))
    {
      msg, uptime := OneInterval(msg, uptime, i);
      i := i + 1;
    }
    assert msg + SecondsText(AsUint64(uptime)) == msg + Dec(AsUint64(uptime)) + " S";
    msg := msg + Dec(AsUint64(uptime)) + " S";
  }

  /** One round of the loop. */
  method OneInterval(msg: string, uptime: Int32, i: nat) returns (msg': string, uptime': Int32)
    requires i < 3
    ensures msg' + TextFrom(AsUint64(uptime'), i + 1) == msg + TextFrom(AsUint64(uptime), i)
  {
    var u, ivl := AsUint64(uptime), INTERVALS[i];
    IntervalText(u, i);
    var cnt, left: int := u / ivl.period, u % ivl.period;
    TermThenRest(msg, cnt, ivl.unit, TextFrom(left, i + 1));
    if cnt != 0 {
      msg', uptime' := msg + Dec(cnt) + " " + ivl.unit + " ", left;
    } else {
      msg', uptime' := msg, uptime;
    }
  }

  // ----- a reader for such texts

  /** Reading the text succeeds, with this number. */
  predicate Reads(s: string, u: nat) { Parse(s).Some? && Parse(s).value == u }

  /** `count` units in seconds. */
  function Seconds(count: nat, unit: char): Option<nat> {
    if unit == 'D' then Some(count * 86400)
    else if unit == 'H' then Some(count * 3600)
    else if unit == 'M' then Some(count * 60)
    else if unit == 'S' then Some(count)
    else None
  }

  /** Sum of terms "<number> <unit>", separated by blanks. */
  function Parse(s: string): Option<nat>
    decreases |s|
  {
    var n := Digits(s);
    if n == 0 || n + 2 > |s| || s[n] != ' ' then None
    else
      match Seconds(ValueOf(s[..n]), s[n + 1])
      case None => None
      case Some(here) =>
        if n + 2 == |s| then Some(here)
        else if s[n + 2] != ' ' then None
        else
          match Parse(s[n + 3..])
          case None => None
          case Some(more) => Some(here + more)
  }

  lemma {:induction false} ParseTerm(count: nat, unit: string, secs: nat, rest: string, more: nat)
    requires |unit| == 1 && Seconds(count, unit[0]) == Some(secs) && Reads(rest, more)
    ensures Reads(Term(count, unit) + rest, secs + more)
  {
    if count == 0 {
      assert Term(count, unit) + rest == rest;
    } else {
      Regroup(Dec(count), Unit(unit), rest);
      ParseWrittenTerm(count, unit, secs, rest, more);
    }
  }

  lemma {:induction false} ParseWrittenTerm(count: nat, unit: string, secs: nat, rest: string, more: nat)
    requires |unit| == 1 && Seconds(count, unit[0]) == Some(secs) && Reads(rest, more)
    ensures Reads(Dec(count) + (Unit(unit) + rest), secs + more)
  {
    var s, n := Dec(count) + (Unit(unit) + rest), |Dec(count)|;
    DigitsOf(count, Unit(unit) + rest);
    DecReads(count);
    TermLayout(s, n, unit, rest);
    ParseUnfolds(s, n, secs, rest, more);
  }

  lemma {:induction false} ParseUnfolds(s: string, n: nat, secs: nat, rest: string, more: nat)
    requires 0 < n == Digits(s) && n + 3 <= |s| && s[n] == ' ' && s[n + 2] == ' ' && s[n + 3..] == rest
    requires Seconds(ValueOf(s[..n]), s[n + 1]) == Some(secs) && Reads(rest, more)
    ensures Reads(s, secs + more)
  {
  }

  lemma {:induction false} TermLayout(s: string, n: nat, unit: string, rest: string)
    requires n <= |s| && |unit| == 1 && s[n..] == Unit(unit) + rest
    ensures |s| >= n + 3 && s[n] == ' ' && s[n + 1] == unit[0] && s[n + 2] == ' ' && s[n + 3..] == rest
  {
    var t := s[n..];
    assert t[0] == ' ' && t[1] == unit[0] && t[2] == ' ' && t[3..] == rest;
    assert s[n + 3..] == t[3..];
  }

  lemma {:induction false} ParseSeconds(u: nat)
    ensures Reads(SecondsText(u), u)
  {
    DigitsOf(u, " S");
    DecReads(u);
  }

  lemma {:induction false} ParseDayTerm(u: nat, rest: string)
    requires Reads(rest, u % 86400)
    ensures Reads(Term(u / 86400, "D") + rest, u)
  {
    ParseTerm(u / 86400, "D", u / 86400 * 86400, rest, u % 86400);
  }

  lemma {:induction false} ParseHourTerm(u: nat, rest: string)
    requires Reads(rest, u % 3600)
    ensures Reads(Term(u / 3600, "H") + rest, u)
  {
    ParseTerm(u / 3600, "H", u / 3600 * 3600, rest, u % 3600);
  }

  lemma {:induction false} ParseMinuteTerm(u: nat, rest: string)
    requires Reads(rest, u % 60)
    ensures Reads(Term(u / 60, "M") + rest, u)
  {
    ParseTerm(u / 60, "M", u / 60 * 60, rest, u % 60);
  }

  lemma {:induction false} ParseMinutes(u: nat)
    ensures Reads(MinutesText(u), u)
  {
    ParseSeconds(u % 60);
    ParseMinuteTerm(u, SecondsText(u % 60));
  }

  lemma {:induction false} ParseHours(u: nat)
    ensures Reads(HoursText(u), u)
  {
    ParseMinutes(u % 3600);
    ParseHourTerm(u, MinutesText(u % 3600));
  }

  /** For every number of seconds, reading the printed text gives the number back; for a negative input
      that is the number modulo 2^64. */
  lemma {:induction false} ParseText(x: Int32)
    ensures Reads(Text(AsUint64(x)), AsUint64(x)) && (AsUint64(x) == x || AsUint64(x) == x + TWO64)
  {
    var u := AsUint64(x);
    ParseHours(u % 86400);
    ParseDayTerm(u, HoursText(u % 86400));
  }

  /** No text is longer than the 39 characters the record has room for, so none is cut short; the hours
      printed are below 24, minutes and seconds below 60. */
  lemma {:induction false} TextFits(x: Int32)
    ensures |Text(AsUint64(x))| <= 39
    ensures var u := AsUint64(x); u % 86400 / 3600 < 24 && u % 86400 % 3600 / 60 < 60 && u % 86400 % 3600 % 60 < 60
  {
    var u := AsUint64(x);
    assert u / 86400 < Pow10(15) by {
      assert Pow10(5) == 100000;
      assert Pow10(10) == 10000000000;
      assert Pow10(15) == 1000000000000000;
    }
    assert Pow10(2) == 100;
    DecLength(u / 86400, 15);
    DecLength(u % 86400 / 3600, 2);
    DecLength(u % 86400 % 3600 / 60, 2);
    DecLength(u % 86400 % 3600 % 60, 2);
  }

  /** What stands for `count` units, if any. */
  function Shown(count: nat, unit: string): string { if count == 0 then "" else Dec(count) + " " + unit + " " }

  /** The text is of a number of days, one of hours below 24, one of minutes and one of seconds below 60, each
      left out when it is zero, but for the seconds; together they are the number printed. */
  lemma {:induction false} TextIsNormal(u: nat) returns (d: nat, h: nat, m: nat, s: nat)
    ensures h < 24 && m < 60 && s < 60 && d * 86400 + h * 3600 + m * 60 + s == u
    ensures Text(u) == Shown(d, "D") + (Shown(h, "H") + (Shown(m, "M") + (Dec(s) + " S")))
  {
    d, h, m, s := u / 86400, u % 86400 / 3600, u % 86400 % 3600 / 60, u % 86400 % 3600 % 60;
    ShownIsTerm(d, "D");
    ShownIsTerm(h, "H");
    ShownIsTerm(m, "M");
  }

  lemma {:induction false} ShownIsTerm(count: nat, unit: string)
    ensures Shown(count, unit) == Term(count, unit)
  {
    Regroup(Dec(count), " ", unit + " ");
    Regroup(Dec(count) + " ", unit, " ");
    Regroup(" ", unit, " ");
  }

  /** Different inputs print differently. */
  lemma {:induction false} TextInjective(x: Int32, y: Int32)
    requires x != y
    ensures Text(AsUint64(x)) != Text(AsUint64(y))
  {
    ParseText(x);
    ParseText(y);
  }
}
