/** Finding and normalising the date and the time in cell A1. Both expressions have the same shape: a head,
    a separator, a field of two or one characters, the separator, and another such field. */
module Stamp {
  import opened Text
  import opened CDate

  datatype Kind = DateStamp | TimeStamp

  function Separator(k: Kind): char {
    if k.DateStamp? then '/' else ':'
  }

  function HeadLength(k: Kind): nat {
    if k.DateStamp? then 4 else 2
  }

  /** `(13)[1-9][1-9]` and `[0-2][1-9]`. */
  predicate Head(k: Kind, s: string) {
    |s| >= HeadLength(k) &&
    if k.DateStamp? then s[0] == '1' && s[1] == '3' && '1' <= s[2] <= '9' && '1' <= s[3] <= '9'
    else '0' <= s[0] <= '2' && '1' <= s[1] <= '9'
  }

  /** First alternative of the two fields: `0[1-9]|1[012]` and `0[1-9]|[12][0-9]|3[01]`, or `[0-9][0-9]`. */
  predicate TwoA(k: Kind, a: char, b: char) {
    if k.DateStamp? then (a == '0' && '1' <= b <= '9') || (a == '1' && '0' <= b <= '2')
    else IsDigit(a) && IsDigit(b)
  }

  predicate TwoB(k: Kind, a: char, b: char) {
    if k.DateStamp? then
      (a == '0' && '1' <= b <= '9') || ('1' <= a <= '2' && IsDigit(b)) || (a == '3' && '0' <= b <= '1')
    else IsDigit(a) && IsDigit(b)
  }

  /** Second alternative: `[1-9]`, or `[0-9]` in a time. */
  predicate One(k: Kind, a: char) {
    if k.DateStamp? then '1' <= a <= '9' else IsDigit(a)
  }

  /** The length of the last field at the front of `s`; two characters are tried before one. */
  function LastField(k: Kind, s: string): Option<nat> {
    if |s| >= 2 && TwoB(k, s[0], s[1]) then Some(2)
    else if |s| >= 1 && One(k, s[0]) then Some(1)
    else None
  }

  /** The length of what follows a middle field of `n` characters, that field included. */
  function FromMiddle(k: Kind, s: string, n: nat): Option<nat> {
    if n < |s| && s[n] == Separator(k) then
      match LastField(k, s[n + 1..])
      case None => None
      case Some(m) => Some(n + 1 + m)
    else None
  }

  /** The length of the match that starts at the front of `s`: the middle field is first tried with two
      characters and, should the rest not match, with one. */
  function MatchLength(k: Kind, s: string): (n: Option<nat>)
    ensures n.Some? ==> HeadLength(k) < n.value <= |s|
  {
    var h := HeadLength(k);
    if Head(k, s) && h < |s| && s[h] == Separator(k) then
      var t := s[h + 1..];
      var two := if |t| >= 2 && TwoA(k, t[0], t[1]) then FromMiddle(k, t, 2) else None;
      var one := if |t| >= 1 && One(k, t[0]) then FromMiddle(k, t, 1) else None;
      match (if two.Some? then two else one)
      case None => None
      case Some(m) => Some(h + 1 + m)
    else None
  }

  /** boost::regex_search: the leftmost match. */
  function Search(k: Kind, s: string): Option<string> {
    match MatchLength(k, s)
    case Some(n) => Some(s[..n])
    case None => if s == [] then None else Search(k, s[1..])
  }

  function PadField(part: string): string {
    if |part| == 2 then part else "0" + part
  }

  /** Both fields after the head are padded to two characters. */
  function Normalise(k: Kind, m: string): string {
    var vec := Split(m, Separator(k));
    if |vec| == 3
    then vec[0] + [Separator(k)] + PadField(vec[1]) + [Separator(k)] + PadField(vec[2])
    else m
  }

  /** The value the variable `date` (or `time`) has after cell text `v` was looked at. */
  function Stamped(k: Kind, v: string, previous: string): string {
    match Search(k, v)
    case None => previous
    case Some(m) => Normalise(k, m)
  }

  // ---------- The normal form ----------

  predicate IsNormal(k: Kind, s: string) {
    var h := HeadLength(k);
    |s| == h + 6 && Head(k, s) && s[h] == Separator(k) && TwoA(k, s[h + 1], s[h + 2]) &&
    s[h + 3] == Separator(k) && TwoB(k, s[h + 4], s[h + 5])
  }

  predicate IsMiddle(k: Kind, b: string) {
    (|b| == 2 && TwoA(k, b[0], b[1])) || (|b| == 1 && One(k, b[0]))
  }

  predicate IsLast(k: Kind, c: string) {
    (|c| == 2 && TwoB(k, c[0], c[1])) || (|c| == 1 && One(k, c[0]))
  }

  lemma LastParts(k: Kind, s: string, m: nat)
    requires LastField(k, s) == Some(m)
    ensures m <= |s| && IsLast(k, s[..m])
  {
  }

  lemma MiddleParts(k: Kind, t: string, w: nat, m: nat)
    requires FromMiddle(k, t, w) == Some(m)
    ensures w < m <= |t| && t[w] == Separator(k) && IsLast(k, t[w + 1..m])
  {
    hide LastField, IsLast;
    LastParts(k, t[w + 1..], m - w - 1);
    assert t[w + 1..][..m - w - 1] == t[w + 1..m];
  }

  /** How a match is made up. */
  lemma MatchParts(k: Kind, s: string, n: nat) returns (a: string, b: string, c: string)
    requires MatchLength(k, s) == Some(n)
    ensures s[..n] == a + [Separator(k)] + b + [Separator(k)] + c
    ensures |a| == HeadLength(k) && Head(k, a) && IsMiddle(k, b) && IsLast(k, c)
  {
    hide FromMiddle, IsLast, LastField;
    var h := HeadLength(k);
    var t := s[h + 1..];
    var w := if |t| >= 2 && TwoA(k, t[0], t[1]) && FromMiddle(k, t, 2).Some? then 2 else 1;
    var m := n - h - 1;
    MiddleParts(k, t, w, m);
    a, b, c := s[..h], t[..w], t[w + 1..m];
    assert t[..m] == b + [Separator(k)] + c;
    assert s[..n] == a + [Separator(k)] + t[..m];
  }

  lemma PartsAreNormalised(k: Kind, a: string, b: string, c: string)
    requires |a| == HeadLength(k) && Head(k, a) && IsMiddle(k, b) && IsLast(k, c)
    ensures var sep := [Separator(k)]; IsNormal(k, Normalise(k, a + sep + b + sep + c))
  {
    var sep := [Separator(k)];
    SplitThree(k, a, b, c);
    hide Split;
    assert Normalise(k, a + sep + b + sep + c) == a + sep + PadField(b) + sep + PadField(c);
  }

  /** Whatever is matched normalises to the fixed form: ten characters for a date, eight for a time. */
  lemma MatchIsNormalised(k: Kind, s: string, n: nat)
    requires MatchLength(k, s) == Some(n)
    ensures IsNormal(k, Normalise(k, s[..n]))
  {
    var a, b, c := MatchParts(k, s, n);
    PartsAreNormalised(k, a, b, c);
  }

  lemma {:induction false} SplitThree(k: Kind, a: string, b: string, c: string)
    requires var sep := Separator(k); sep !in a && sep !in b && sep !in c
    ensures var sep := Separator(k); Split(a + [sep] + b + [sep] + c, sep) == [a, b, c]
  {
    var sep := Separator(k);
    SplitFree(c, sep);
    SplitAtSeparator(b, c, sep);
    SplitAtSeparator(a, b + [sep] + c, sep);
    assert a + [sep] + (b + [sep] + c) == a + [sep] + b + [sep] + c;
  }

  lemma PadKeepsValue(part: string)
    requires |part| in {1, 2} && forall c <- part :: IsDigit(c)
    ensures StrToInt(PadField(part)) == StrToInt(part)
  {
    if |part| == 1 {
      var padded := "0" + part;
      assert forall c <- padded :: IsDigit(c);
      assert padded[..1] == "0" && "0"[..0] == "" && part[..0] == "";
      assert DigitsValue("0") == 0;
    }
  }

  /** Normalising keeps the meaning of what was matched: the same head and the same two numbers. */
  lemma NormaliseKeepsFields(k: Kind, s: string, n: nat)
    requires MatchLength(k, s) == Some(n)
    ensures var p, q := Split(s[..n], Separator(k)), Split(Normalise(k, s[..n]), Separator(k));
            |p| == 3 && |q| == 3 && q[0] == p[0] && StrToInt(q[1]) == StrToInt(p[1]) && StrToInt(q[2]) == StrToInt(p[2])
  {
    hide MatchLength, Split, StrToInt, PadField;
    var a, b, c := MatchParts(k, s, n);
    SplitThree(k, a, b, c);
    PadKeepsValue(b);
    PadKeepsValue(c);
    assert Separator(k) !in PadField(b) && Separator(k) !in PadField(c) by { PadKeepsDigits(b); PadKeepsDigits(c); }
    SplitThree(k, a, PadField(b), PadField(c));
    var sep := [Separator(k)];
    assert Normalise(k, s[..n]) == a + sep + PadField(b) + sep + PadField(c);
  }

  lemma PadKeepsDigits(part: string)
    requires |part| in {1, 2} && forall c <- part :: IsDigit(c)
    ensures forall c <- PadField(part) :: IsDigit(c)
  {
  }

  lemma {:induction false} StampIsNormal(k: Kind, v: string, previous: string)
    requires previous == "" || IsNormal(k, previous)
    ensures Stamped(k, v, previous) == "" || IsNormal(k, Stamped(k, v, previous))
  {
    match MatchLength(k, v)
    case Some(n) => MatchIsNormalised(k, v, n);
    case None => if v != [] { StampIsNormal(k, v[1..], previous); }
  }

  /** Matching and normalising a normal form again changes nothing. */
  lemma {:induction false} NormalIsFixed(k: Kind, s: string, previous: string)
    requires IsNormal(k, s)
    ensures Search(k, s) == Some(s) && Normalise(k, s) == s && Stamped(k, s, previous) == s
  {
    var h, sep := HeadLength(k), Separator(k);
    var a, b, c := s[..h], s[h + 1..h + 3], s[h + 4..];
    assert s == a + [sep] + b + [sep] + c;
    SplitThree(k, a, b, c);
    var t := s[h + 1..];
    assert t[3..] == c && FromMiddle(k, t, 2) == Some(5);
    assert MatchLength(k, s) == Some(h + 6) && s[..h + 6] == s;
  }

  /** A normal form inside a longer text is what is found there, unless a match starts before it. */
  lemma {:induction false} EmbeddedStampIsFound(k: Kind, before: string, s: string, after: string, previous: string)
    requires IsNormal(k, s)
    requires forall i :: 0 <= i < |before| ==> MatchLength(k, (before + s + after)[i..]).None?
    ensures Stamped(k, before + s + after, previous) == s
  {
    var text := before + s + after;
    if before == [] {
      NormalIsFixed(k, s, previous);
      MatchIgnoresRest(k, s, after);
      assert text == s + after;
    } else {
      assert text[0..] == text && text[1..] == before[1..] + s + after;
      assert forall i :: 0 <= i < |before| - 1 ==> text[1..][i..] == text[i + 1..];
      EmbeddedStampIsFound(k, before[1..], s, after, previous);
    }
  }

  lemma MatchIgnoresRest(k: Kind, s: string, after: string)
    requires IsNormal(k, s)
    ensures MatchLength(k, s + after) == Some(|s|) && (s + after)[..|s|] == s
  {
    var h := HeadLength(k);
    var text := s + after;
    assert forall i :: 0 <= i < |s| ==> text[i] == s[i];
    var t := text[h + 1..];
    assert LastField(k, t[3..]) == Some(2);
    assert FromMiddle(k, t, 2) == Some(5);
  }

  // ---------- Order of dates as strings ----------

  function TwoDigits(a: char, b: char): nat
    requires IsDigit(a) && IsDigit(b)
  {
    10 * DigitValue(a) + DigitValue(b)
  }

  function DateOf(s: string): Date
    requires IsNormal(DateStamp, s)
  {
    Date(1300 + TwoDigits(s[2], s[3]), TwoDigits(s[5], s[6]), TwoDigits(s[8], s[9]))
  }

  lemma {:induction false} LessAtDifference(a: string, b: string, i: nat)
    requires i < |a| && i < |b| && a[i] != b[i]
    requires forall j :: 0 <= j < i ==> a[j] == b[j]
    ensures Less(a, b) <==> a[i] < b[i]
  {
    if i > 0 { LessAtDifference(a[1..], b[1..], i - 1); }
  }

  function FirstDifference(a: string, b: string, i: nat): (d: nat)
    requires |a| == |b| && i <= |a|
    requires forall j :: 0 <= j < i ==> a[j] == b[j]
    ensures d <= |a| && (forall j :: 0 <= j < d ==> a[j] == b[j]) && (d < |a| ==> a[d] != b[d])
    decreases |a| - i
  {
    if i == |a| || a[i] != b[i] then i else FirstDifference(a, b, i + 1)
  }

  /** The string order of normalised dates is the order of (year, month, day). */
  lemma {:induction false} DateOrder(a: string, b: string)
    requires IsNormal(DateStamp, a) && IsNormal(DateStamp, b)
    ensures Less(a, b) <==> Before(DateOf(a), DateOf(b))
    ensures a == b <==> DateOf(a) == DateOf(b)
  {
    var i := FirstDifference(a, b, 0);
    if i == |a| {
      assert a == b;
      LessIsStrict(a, b);
    } else {
      LessAtDifference(a, b, i);
    }
  }
}
