/** The grammar of record links, `<factory>|<inst>|<param>` with an optional tail behind white space.
    The instance may hold escapes: a backslash and any character of the same line, `|` included. */
module Link {
  import opened Sequences
  import opened Options

  datatype Parts = Parts(factory: string, inst: string, param: string)

  // ----- the grammar, as the regular expression states it

  predicate IsLetter(c: char) { 'a' <= c <= 'z' || 'A' <= c <= 'Z' }

  predicate IsParamChar(c: char) { IsLetter(c) || '0' <= c <= '9' || c == ':' || c == '_' }

  predicate IsSpace(c: char) { c == ' ' || c == '\t' || c == '\n' || c == '\r' || c as int == 11 || c as int == 12 }

  /** What a dot matches: anything but a line end. */
  predicate IsDot(c: char) { c != '\n' && c != '\r' }

  predicate IsPlain(c: char) { c != '|' && c != '\\' }

  predicate All(s: string, p: char -> bool) { forall i :: 0 <= i < |s| ==> p(s[i]) }

  /** One round of the group that makes up the instance: a plain character or an escape. */
  predicate IsPiece(s: string) {
    (|s| == 1 && IsPlain(s[0])) || (|s| == 2 && s[0] == '\\' && IsDot(s[1]))
  }

  function Join(pieces: seq<string>): string {
    if pieces == [] then "" else pieces[0] + Join(pieces[1..])
  }

  /** The group repeated any number of times. */
  ghost predicate IsInst(s: string) {
    exists pieces: seq<string> :: Join(pieces) == s && forall i :: 0 <= i < |pieces| ==> IsPiece(pieces[i])
  }

  predicate IsTail(s: string) {
    s == "" || (IsSpace(s[0]) && All(s[1..], IsDot))
  }

  ghost predicate WellFormed(p: Parts) {
    && p.factory != "" && All(p.factory, IsLetter)
    && IsInst(p.inst)
    && p.param != "" && All(p.param, IsParamChar)
  }

  function Print(p: Parts, tail: string): string { p.factory + "|" + (p.inst + "|" + (p.param + tail)) }

  /** The whole string matches, with these parts captured. */
  ghost predicate Matches(s: string, p: Parts) {
    WellFormed(p) && exists tail: string :: IsTail(tail) && s == Print(p, tail)
  }

  // ----- a deterministic scanner, left to right

  /** Length of the longest prefix of characters satisfying `p`. */
  function Span(s: string, p: char -> bool): (n: nat)
    ensures n <= |s| && All(s[..n], p) && (n < |s| ==> !p(s[n]))
  {
    if s == "" || !p(s[0]) then 0 else 1 + Span(s[1..], p)
  }

  /** Length of the instance at the front of `s`: up to the first `|` that is not escaped, or to where no
      piece fits any more. */
  function SpanInst(s: string): (n: nat)
    ensures n <= |s|
  {
    if s == "" then 0
    else if IsPlain(s[0]) then 1 + SpanInst(s[1..])
    else if s[0] == '\\' && |s| >= 2 && IsDot(s[1]) then 2 + SpanInst(s[2..])
    else 0
  }

  /** A part taken off the front, and what is behind it (and behind its bar). */
  datatype Cut = Cut(part: string, rest: string)

  function CutFactory(s: string): Option<Cut> {
    var n := Span(s, IsLetter);
    if 0 < n < |s| && s[n] == '|' then Some(Cut(s[..n], s[n + 1..])) else None
  }

  function CutInst(s: string): Option<Cut> {
    var n := SpanInst(s);
    if n < |s| && s[n] == '|' then Some(Cut(s[..n], s[n + 1..])) else None
  }

  function CutParam(s: string): Option<Cut> {
    var n := Span(s, IsParamChar);
    if 0 < n && IsTail(s[n..]) then Some(Cut(s[..n], s[n..])) else None
  }

  function Scan(s: string): Option<Parts> {
    match CutFactory(s)
    case None => None
    case Some(f) =>
      match CutInst(f.rest)
      case None => None
      case Some(i) =>
        match CutParam(i.rest)
        case None => None
        case Some(p) => Some(Parts(f.part, i.part, p.part))
  }

  // ----- the scanner and the grammar agree

  lemma {:induction false} SpanOf(a: string, b: string, p: char -> bool)
    requires All(a, p) && (b != "" ==> !p(b[0]))
    ensures Span(a + b, p) == |a|
    decreases |a|
  {
    if a != "" {
      assert (a + b)[1..] == a[1..] + b;
      SpanOf(a[1..], b, p);
    } else {
      assert a + b == b;
    }
  }

  /** Behind any instance the scanner stops at a bar. */
  lemma {:induction false} SpanInstOf(pieces: seq<string>, b: string)
    requires (forall i :: 0 <= i < |pieces| ==> IsPiece(pieces[i])) && b != "" && b[0] == '|'
    ensures SpanInst(Join(pieces) + b) == |Join(pieces)|
    decreases |pieces|
  {
    var s := Join(pieces) + b;
    if pieces == [] {
      assert s == b;
    } else {
      var first := pieces[0];
      var rest := Join(pieces[1..]) + b;
      assert s == first + rest;
      assert s[|first|..] == rest;
      SpanInstOf(pieces[1..], b);
    }
  }

  /** And what the scanner takes for an instance is one. */
  lemma {:induction false} SpanInstIsInst(s: string) returns (pieces: seq<string>)
    ensures Join(pieces) == s[..SpanInst(s)]
    ensures forall i :: 0 <= i < |pieces| ==> IsPiece(pieces[i])
    decreases |s|
  {
    pieces := [];
    if s != "" && (IsPlain(s[0]) || (s[0] == '\\' && |s| >= 2 && IsDot(s[1]))) {
      var k := if IsPlain(s[0]) then 1 else 2;
      var rest := SpanInstIsInst(s[k..]);
      pieces := [s[..k]] + rest;
      assert pieces[1..] == rest;
      assert s[..SpanInst(s)] == s[..k] + s[k..][..SpanInst(s[k..])];
    }
  }

  lemma FactoryCut(f: string, rest: string)
    requires f != "" && All(f, IsLetter)
    ensures CutFactory(f + "|" + rest) == Some(Cut(f, rest))
  {
    var s := f + "|" + rest;
    assert s == f + ("|" + rest);
    SpanOf(f, "|" + rest, IsLetter);
    assert s[..|f|] == f && s[|f| + 1..] == rest;
  }

  lemma InstCut(i: string, rest: string)
    requires IsInst(i)
    ensures CutInst(i + "|" + rest) == Some(Cut(i, rest))
  {
    var pieces: seq<string> :| Join(pieces) == i && forall k :: 0 <= k < |pieces| ==> IsPiece(pieces[k]);
    var s := i + "|" + rest;
    assert s == i + ("|" + rest);
    SpanInstOf(pieces, "|" + rest);
    assert s[..|i|] == i && s[|i| + 1..] == rest;
  }

  lemma ParamCut(p: string, tail: string)
    requires p != "" && All(p, IsParamChar) && IsTail(tail)
    ensures CutParam(p + tail) == Some(Cut(p, tail))
  {
    SpanOf(p, tail, IsParamChar);
    assert (p + tail)[..|p|] == p && (p + tail)[|p|..] == tail;
  }

  /** Every match is found. */
  lemma ScanFinds(s: string, p: Parts)
    requires Matches(s, p)
    ensures Scan(s) == Some(p)
  {
    var tail: string :| IsTail(tail) && s == Print(p, tail);
    FactoryCut(p.factory, p.inst + "|" + (p.param + tail));
    InstCut(p.inst, p.param + tail);
    ParamCut(p.param, tail);
  }

  lemma CutIsSplit(s: string)
    ensures var f := CutFactory(s);
            f.Some? ==> s == f.value.part + "|" + f.value.rest && f.value.part != "" && All(f.value.part, IsLetter)
    ensures var p := CutParam(s);
            p.Some? ==> s == p.value.part + p.value.rest && p.value.part != ""
                        && All(p.value.part, IsParamChar) && IsTail(p.value.rest)
  {
  }

  lemma CutInstIsSplit(s: string)
    ensures var i := CutInst(s); i.Some? ==> s == i.value.part + "|" + i.value.rest && IsInst(i.value.part)
  {
    var pieces := SpanInstIsInst(s);
  }

  /** Everything found is a match. */
  lemma ScanSound(s: string)
    requires Scan(s).Some?
    ensures Matches(s, Scan(s).value)
  {
    var f := CutFactory(s).value;
    var i := CutInst(f.rest).value;
    var p := CutParam(i.rest).value;
    CutIsSplit(s);
    CutInstIsSplit(f.rest);
    CutIsSplit(i.rest);
    assert s == Print(Parts(f.part, i.part, p.part), p.rest);
  }

  /** The grammar is unambiguous and the scanner decides it: a string matches with given parts exactly when
      the scanner returns them. */
  lemma ScanDecides(s: string, p: Parts)
    ensures Matches(s, p) <==> Scan(s) == Some(p)
  {
    if Matches(s, p) {
      ScanFinds(s, p);
    }
    if Scan(s) == Some(p) {
      ScanSound(s);
    }
  }

  lemma OneDecomposition(s: string, p: Parts, q: Parts)
    requires Matches(s, p) && Matches(s, q)
    ensures p == q
  {
    ScanFinds(s, p);
    ScanFinds(s, q);
  }

  /** Printing well-formed parts, with any tail, and scanning gives them back. */
  lemma PrintThenScan(p: Parts, tail: string)
    requires WellFormed(p) && IsTail(tail)
    ensures Scan(Print(p, tail)) == Some(p)
  {
    assert Matches(Print(p, tail), p);
    ScanFinds(Print(p, tail), p);
  }

  // ----- escapes

  /** The name with a backslash before every bar and backslash, and before whatever else one likes. */
  function Escape(name: string, also: char -> bool): string {
    if name == "" then ""
    else
      (if !IsPlain(name[0]) || also(name[0]) then "\\" + name[..1] else name[..1]) + Escape(name[1..], also)
  }

  /** Without the backslashes that escape. */
  function Unescape(s: string): string {
    if |s| < 2 then s
    else if s[0] == '\\' then s[1..2] + Unescape(s[2..])
    else s[..1] + Unescape(s[1..])
  }

  lemma {:induction false} EscapedPieces(name: string, also: char -> bool) returns (pieces: seq<string>)
    requires forall i :: 0 <= i < |name| ==> also(name[i]) ==> IsDot(name[i])
    ensures Join(pieces) == Escape(name, also) && forall i :: 0 <= i < |pieces| ==> IsPiece(pieces[i])
    decreases |name|
  {
    pieces := [];
    if name != "" {
      var first := if !IsPlain(name[0]) || also(name[0]) then "\\" + name[..1] else name[..1];
      var rest := EscapedPieces(name[1..], also);
      pieces := [first] + rest;
      assert pieces[1..] == rest;
    }
  }

  lemma {:induction false} UnescapeEscape(name: string, also: char -> bool)
    ensures Unescape(Escape(name, also)) == name
    decreases |name|
  {
    if name != "" {
      var rest := Escape(name[1..], also);
      UnescapeEscape(name[1..], also);
      if !IsPlain(name[0]) || also(name[0]) {
        assert Escape(name, also)[1..2] == name[..1] && Escape(name, also)[2..] == rest;
      } else {
        assert Escape(name, also)[1..] == rest;
        assert rest == "" ==> name[1..] == "";
      }
    }
  }

  lemma PrintIs(factory: string, inst: string, param: string, tail: string)
    ensures Print(Parts(factory, inst, param), tail) == factory + "|" + inst + "|" + param + tail
  {
    Regroup(inst, "|", param + tail);
    Regroup(factory + "|", inst + "|", param + tail);
    Regroup(factory + "|", inst, "|");
    Regroup(factory + "|" + inst + "|", param, tail);
    Regroup(factory, "|", inst + ("|" + (param + tail)));
  }

  /** Every name can be linked to: escaped, it scans back to what was written, bars included, and tells the
      name. */
  lemma {:induction false} EscapedNameScans(factory: string, name: string, also: char -> bool,
                                            param: string, tail: string)
    requires factory != "" && All(factory, IsLetter) && param != "" && All(param, IsParamChar) && IsTail(tail)
    requires forall i :: 0 <= i < |name| ==> also(name[i]) ==> IsDot(name[i])
    ensures Scan(factory + "|" + Escape(name, also) + "|" + param + tail)
            == Some(Parts(factory, Escape(name, also), param))
    ensures Unescape(Escape(name, also)) == name
  {
    UnescapeEscape(name, also);
    EscapeIsInst(name, also);
    PrintThenScan(Parts(factory, Escape(name, also), param), tail);
    PrintIs(factory, Escape(name, also), param, tail);
  }

  lemma {:induction false} EscapeIsInst(name: string, also: char -> bool)
    requires forall i :: 0 <= i < |name| ==> also(name[i]) ==> IsDot(name[i])
    ensures IsInst(Escape(name, also))
  {
    var pieces := EscapedPieces(name, also);
  }

  const LOWER: string := "abcdefghijklmnopqrstuvwxyz"
  const UPPER: string := "ABCDEFGHIJKLMNOPQRSTUVWXYZ"
  const DIGITS: string := "0123456789"

  lemma LowerCase(c: char)
    ensures 'a' <= c <= 'z' <==> c in LOWER
  {
    assert forall i :: 0 <= i < 26 ==> LOWER[i] as int == 'a' as int + i;
    if 'a' <= c <= 'z' {
      assert LOWER[c as int - 'a' as int] == c;
    }
  }

  lemma UpperCase(c: char)
    ensures 'A' <= c <= 'Z' <==> c in UPPER
  {
    assert forall i :: 0 <= i < 26 ==> UPPER[i] as int == 'A' as int + i;
    if 'A' <= c <= 'Z' {
      assert UPPER[c as int - 'A' as int] == c;
    }
  }

  lemma Digit(c: char)
    ensures '0' <= c <= '9' <==> c in DIGITS
  {
    assert forall i :: 0 <= i < 10 ==> DIGITS[i] as int == '0' as int + i;
    if '0' <= c <= '9' {
      assert DIGITS[c as int - '0' as int] == c;
    }
  }

  /** The characters of a factory and of a parameter, one by one. */
  lemma Alphabets(c: char)
    ensures IsLetter(c) <==> c in LOWER || c in UPPER
    ensures IsParamChar(c) <==> c in LOWER || c in UPPER || c in DIGITS || c == ':' || c == '_'
  {
    LowerCase(c);
    UpperCase(c);
    Digit(c);
  }

  /** What may follow the parameter: nothing, or white space and then anything on the same line. */
  lemma {:induction false} TailIff(p: Parts, tail: string)
    requires WellFormed(p)
    ensures Scan(Print(p, tail)) == Some(p) <==>
              tail == "" || (tail[0] as int in {9, 10, 11, 12, 13, 32}
                             && forall i :: 0 < i < |tail| ==> tail[i] as int != 10 && tail[i] as int != 13)
  {
    assert IsTail(tail) <==> tail == "" || (IsSpace(tail[0]) && forall i :: 0 < i < |tail| ==> IsDot(tail[i])) by {
      assert forall i :: 0 < i < |tail| ==> tail[i] == tail[1..][i - 1];
    }
    if IsTail(tail) {
      PrintThenScan(p, tail);
    } else if Scan(Print(p, tail)) == Some(p) {
      ScanSound(Print(p, tail));
      var other: string :| IsTail(other) && Print(p, tail) == Print(p, other);
      SameTail(p, tail, other);
    }
  }

  lemma SameTail(p: Parts, s: string, t: string)
    requires Print(p, s) == Print(p, t)
    ensures s == t
  {
    var n := |p.factory| + 1 + |p.inst| + 1 + |p.param|;
    assert Print(p, s)[n..] == s && Print(p, t)[n..] == t;
  }

  /** What a backslash escapes: anything but a line end. */
  lemma {:induction false} EscapeIff(c: char)
    ensures IsInst(['\\', c]) <==> c as int != 10 && c as int != 13
  {
    var s := ['\\', c];
    if IsInst(s) {
      InstCut(s, "");
    }
    if IsDot(c) {
      assert Join([s]) == s + Join([]);
      assert IsPiece([s][0]);
    }
  }
}
