/** Which dates and times are found in a cell text, and as what they are stored: in terms of the numbers in them,
    independently of how the search goes about it. */
module StampText {
  import opened Text
  import opened Stamp

  // ---------- Spellings ----------

  /** A stamp by its numbers: 13xy/m/d, or hour xy, minute m and second d. */
  datatype Moment = Moment(x: nat, y: nat, m: nat, d: nat)

  /** The years 1311 to 1399 without those that end in 0, months 1 to 12 and days 1 to 31; the hours whose first
      figure is at most 2 and whose second is not 0, with any two-figure minutes and seconds. */
  predicate InRange(k: Kind, t: Moment) {
    match k
    case DateStamp => 1 <= t.x <= 9 && 1 <= t.y <= 9 && 1 <= t.m <= 12 && 1 <= t.d <= 31
    case TimeStamp => t.x <= 2 && 1 <= t.y <= 9 && t.m <= 99 && t.d <= 99
  }

  function Two(n: nat): string
    requires n < 100
  {
    [Digit(n / 10), Digit(n % 10)]
  }

  /** A number below ten may be spelled with one figure. */
  function Figures(n: nat, short: bool): string
    requires n < 100
  {
    if short && n < 10 then [Digit(n)] else Two(n)
  }

  function Front(k: Kind, t: Moment): string
    requires InRange(k, t)
  {
    (if k.DateStamp? then "13" else "") + [Digit(t.x), Digit(t.y)]
  }

  function Spelled(k: Kind, t: Moment, shortM: bool, shortD: bool): string
    requires InRange(k, t)
  {
    var sep := if k.DateStamp? then "/" else ":";
    Front(k, t) + sep + Figures(t.m, shortM) + sep + Figures(t.d, shortD)
  }

  /** The spelling in which a stamp is stored: all numbers with two figures. */
  function Full(k: Kind, t: Moment): string
    requires InRange(k, t)
  {
    Spelled(k, t, false, false)
  }

  ghost predicate IsSpelled(k: Kind, t: Moment, s: string) {
    InRange(k, t) && exists shortM: bool, shortD: bool :: s == Spelled(k, t, shortM, shortD)
  }

  lemma FigureParts(k: Kind, t: Moment, short: bool)
    requires InRange(k, t)
    ensures IsMiddle(k, Figures(t.m, short)) && IsLast(k, Figures(t.d, short))
    ensures forall c <- Figures(t.m, short) :: IsDigit(c)
    ensures forall c <- Figures(t.d, short) :: IsDigit(c)
  {
  }

  lemma FrontIsHead(k: Kind, t: Moment)
    requires InRange(k, t)
    ensures |Front(k, t)| == HeadLength(k) && Head(k, Front(k, t))
    ensures forall c <- Front(k, t) :: IsDigit(c)
  {
  }

  // ---------- The search finds the spellings ----------

  /** A last field followed by anything: it is found, and with its own length if it has two figures or no figure
      follows. */
  lemma LastIsFound(k: Kind, c: string, after: string)
    requires IsLast(k, c) && forall e <- c :: IsDigit(e)
    ensures LastField(k, c + after).Some?
    ensures |c| == 2 || after == [] || !IsDigit(after[0]) ==> LastField(k, c + after) == Some(|c|)
  {
    var s := c + after;
    assert s[0] == c[0] && (|c| == 2 ==> s[1] == c[1]) && (|c| == 1 && |s| > 1 ==> s[1] == after[0]);
  }

  lemma RestIsFound(k: Kind, b: string, c: string, after: string)
    requires IsMiddle(k, b) && (forall e <- b :: IsDigit(e)) && IsLast(k, c) && (forall e <- c :: IsDigit(e))
    ensures var t := b + [Separator(k)] + c + after; FromMiddle(k, t, |b|).Some?
    ensures var t := b + [Separator(k)] + c + after;
            |c| == 2 || after == [] || !IsDigit(after[0]) ==> FromMiddle(k, t, |b|) == Some(|b| + 1 + |c|)
  {
    var t := b + [Separator(k)] + c + after;
    assert t[|b|] == Separator(k) && t[|b| + 1..] == c + after;
    LastIsFound(k, c, after);
    hide LastField;
  }

  lemma PartsAreFound(k: Kind, a: string, b: string, c: string, after: string)
    requires |a| == HeadLength(k) && Head(k, a) && IsMiddle(k, b) && IsLast(k, c)
    requires (forall e <- b :: IsDigit(e)) && forall e <- c :: IsDigit(e)
    ensures var sep := [Separator(k)]; MatchLength(k, a + sep + b + sep + c + after).Some?
    ensures var sep := [Separator(k)];
            |c| == 2 || after == [] || !IsDigit(after[0]) ==>
              MatchLength(k, a + sep + b + sep + c + after) == Some(|a + sep + b + sep + c|)
  {
    var sep := [Separator(k)];
    var s, t := a + sep + b + sep + c + after, b + sep + c + after;
    var h := HeadLength(k);
    assert s[h] == Separator(k) && s[h + 1..] == t && s[..h] == a;
    assert Head(k, s);
    RestIsFound(k, b, c, after);
    assert t[0] == b[0] && (if |b| == 2 then t[1] == b[1] else t[1] == Separator(k));
    hide FromMiddle, LastField, Head;
  }

  /** Wherever a spelling begins there is a match, and it is the whole spelling when its last number has two
      figures or no figure follows. */
  lemma SpellingMatches(k: Kind, t: Moment, shortM: bool, shortD: bool, after: string)
    requires InRange(k, t)
    ensures MatchLength(k, Spelled(k, t, shortM, shortD) + after).Some?
    ensures (!shortD || t.d >= 10 || after == [] || !IsDigit(after[0])) ==>
              MatchLength(k, Spelled(k, t, shortM, shortD) + after) == Some(|Spelled(k, t, shortM, shortD)|)
  {
    FrontIsHead(k, t);
    FigureParts(k, t, shortM);
    FigureParts(k, t, shortD);
    PartsAreFound(k, Front(k, t), Figures(t.m, shortM), Figures(t.d, shortD), after);
    hide MatchLength, Head, IsMiddle, IsLast, Front, InRange;
  }

  /** Stored, a spelling has all numbers with two figures. */
  lemma SpellingNormalises(k: Kind, t: Moment, shortM: bool, shortD: bool)
    requires InRange(k, t)
    ensures Normalise(k, Spelled(k, t, shortM, shortD)) == Full(k, t)
  {
    FrontIsHead(k, t);
    FigureParts(k, t, shortM);
    FigureParts(k, t, shortD);
    PadFigures(t.m, shortM);
    PadFigures(t.d, shortD);
    hide Head, IsMiddle, IsLast, Front, InRange, Figures, PadField, Split;
    SplitThree(k, Front(k, t), Figures(t.m, shortM), Figures(t.d, shortD));
  }

  lemma PadFigures(n: nat, short: bool)
    requires n < 100
    ensures PadField(Figures(n, short)) == Figures(n, false)
  {
  }

  // ---------- Every match is a spelling ----------

  function ValueOf(s: string): nat
    requires 1 <= |s| <= 2 && forall c <- s :: IsDigit(c)
  {
    if |s| == 1 then DigitValue(s[0]) else 10 * DigitValue(s[0]) + DigitValue(s[1])
  }

  lemma DigitOfValue(c: char)
    requires IsDigit(c)
    ensures DigitValue(c) <= 9 && Digit(DigitValue(c)) == c
  {
    assert c as int - '0' as int <= 9;
  }

  lemma FieldIsFigures(s: string)
    requires 1 <= |s| <= 2 && forall c <- s :: IsDigit(c)
    ensures ValueOf(s) < 100 && s == Figures(ValueOf(s), |s| == 1)
  {
    DigitOfValue(s[0]);
    if |s| == 2 {
      DigitOfValue(s[1]);
      assert ValueOf(s) / 10 == DigitValue(s[0]) && ValueOf(s) % 10 == DigitValue(s[1]);
    }
  }

  lemma MatchIsSpelled(k: Kind, s: string, n: nat) returns (t: Moment, shortM: bool, shortD: bool)
    requires MatchLength(k, s) == Some(n)
    ensures InRange(k, t) && s[..n] == Spelled(k, t, shortM, shortD)
  {
    var a, b, c := MatchParts(k, s, n);
    PartsAreDigits(k, b, c);
    t, shortM, shortD := MomentOf(k, a, ValueOf(b), ValueOf(c)), |b| == 1, |c| == 1;
    FieldIsFigures(b);
    FieldIsFigures(c);
    PartsAreInRange(k, a, b, c);
    hide MatchLength, Head, IsMiddle, IsLast, ValueOf, MomentOf;
  }

  lemma PartsAreDigits(k: Kind, b: string, c: string)
    requires IsMiddle(k, b) && IsLast(k, c)
    ensures 1 <= |b| <= 2 && 1 <= |c| <= 2 && (forall e <- b :: IsDigit(e)) && forall e <- c :: IsDigit(e)
  {
  }

  function MomentOf(k: Kind, a: string, m: nat, d: nat): Moment
    requires |a| == HeadLength(k) && Head(k, a)
  {
    Moment(DigitValue(a[|a| - 2]), DigitValue(a[|a| - 1]), m, d)
  }

  lemma PartsAreInRange(k: Kind, a: string, b: string, c: string)
    requires |a| == HeadLength(k) && Head(k, a) && IsMiddle(k, b) && IsLast(k, c)
    requires 1 <= |b| <= 2 && 1 <= |c| <= 2 && (forall e <- b :: IsDigit(e)) && forall e <- c :: IsDigit(e)
    ensures var t := MomentOf(k, a, ValueOf(b), ValueOf(c)); InRange(k, t) && Front(k, t) == a
  {
  }

  ghost predicate StartsStamp(k: Kind, s: string) {
    exists t: Moment, shortM: bool, shortD: bool :: InRange(k, t) && Spelled(k, t, shortM, shortD) <= s
  }

  /** A match begins exactly where a spelling does. */
  lemma MatchesExactly(k: Kind, s: string)
    ensures MatchLength(k, s).Some? <==> StartsStamp(k, s)
  {
    hide MatchLength, InRange, Spelled;
    if MatchLength(k, s).Some? {
      var t, shortM, shortD := MatchIsSpelled(k, s, MatchLength(k, s).value);
    }
    if StartsStamp(k, s) {
      var t: Moment, shortM: bool, shortD: bool :| InRange(k, t) && Spelled(k, t, shortM, shortD) <= s;
      var text := Spelled(k, t, shortM, shortD);
      SpellingMatches(k, t, shortM, shortD, s[|text|..]);
      assert text + s[|text|..] == s;
    }
  }

  /** The normal forms are exactly the full spellings. */
  lemma NormalIsFull(k: Kind, s: string)
    ensures IsNormal(k, s) <==> exists t: Moment :: InRange(k, t) && s == Full(k, t)
  {
    if IsNormal(k, s) {
      NormalIsFixed(k, s, "");
      NormalMatches(k, s);
      var t, shortM, shortD := MatchIsSpelled(k, s, |s|);
      assert s[..|s|] == s;
      SpellingNormalises(k, t, shortM, shortD);
      assert s == Full(k, t);
    }
    if t: Moment :| InRange(k, t) && s == Full(k, t) { FullIsNormal(k, t); }
  }

  lemma NormalMatches(k: Kind, s: string)
    requires IsNormal(k, s)
    ensures MatchLength(k, s) == Some(|s|)
  {
    MatchIgnoresRest(k, s, "");
    assert s + "" == s;
  }

  lemma FullIsNormal(k: Kind, t: Moment)
    requires InRange(k, t)
    ensures IsNormal(k, Full(k, t))
  {
    SpellingMatches(k, t, false, false, "");
    SpellingNormalises(k, t, false, false);
    var s := Full(k, t);
    assert s + "" == s && s[..|s|] == s;
    hide MatchLength, IsNormal, InRange, Spelled, Normalise;
    MatchIsNormalised(k, s, |s|);
  }

  // ---------- What is stored ----------

  /** A spelling anywhere in the text is what is stored, with two figures each, unless a match starts before it;
      one figure at the end must not be followed by another. */
  lemma {:induction false} SpellingIsStored(k: Kind, before: string, t: Moment, shortM: bool, shortD: bool, after: string,
                                            previous: string)
    requires InRange(k, t) && (shortD && t.d < 10 && after != [] ==> !IsDigit(after[0]))
    requires var text := before + Spelled(k, t, shortM, shortD) + after;
             forall i :: 0 <= i < |before| ==> !StartsStamp(k, text[i..])
    ensures Stamped(k, before + Spelled(k, t, shortM, shortD) + after, previous) == Full(k, t)
  {
    hide MatchLength, InRange, Spelled, Normalise, StartsStamp;
    var s := Spelled(k, t, shortM, shortD);
    var text := before + s + after;
    if before == [] {
      SpellingMatches(k, t, shortM, shortD, after);
      SpellingNormalises(k, t, shortM, shortD);
      assert text == s + after && text[..|s|] == s;
    } else {
      assert text[0..] == text && text[1..] == before[1..] + s + after;
      assert forall i :: 0 <= i < |before| - 1 ==> text[1..][i..] == text[i + 1..];
      SpellingIsStored(k, before[1..], t, shortM, shortD, after, previous);
      MatchesExactly(k, text);
    }
  }

  /** In particular when no character stands before it with which a stamp could begin. */
  lemma FirstSpellingIsStored(k: Kind, before: string, t: Moment, shortM: bool, shortD: bool, after: string, previous: string)
    requires InRange(k, t) && (shortD && t.d < 10 && after != [] ==> !IsDigit(after[0]))
    requires forall c <- before :: if k.DateStamp? then c != '1' else !('0' <= c <= '2')
    ensures Stamped(k, before + Spelled(k, t, shortM, shortD) + after, previous) == Full(k, t)
  {
    var text := before + Spelled(k, t, shortM, shortD) + after;
    forall i | 0 <= i < |before|
      ensures !StartsStamp(k, text[i..])
    {
      assert text[i..][0] == before[i] && before[i] in before;
      NoStampStartsWith(k, text[i..]);
    }
    hide StartsStamp, Spelled, InRange, Stamped;
    SpellingIsStored(k, before, t, shortM, shortD, after, previous);
  }

  lemma NoStampStartsWith(k: Kind, s: string)
    requires s != [] && if k.DateStamp? then s[0] != '1' else !('0' <= s[0] <= '2')
    ensures !StartsStamp(k, s)
  {
    MatchesExactly(k, s);
    hide StartsStamp;
  }

  /** The exact result for any text: the leftmost spelling, stored in full, or else what was there before. */
  lemma {:induction false} StoredExactly(k: Kind, v: string, previous: string)
    ensures (forall i :: 0 <= i < |v| ==> !StartsStamp(k, v[i..])) ==> Stamped(k, v, previous) == previous
    ensures forall i :: 0 <= i < |v| && StartsStamp(k, v[i..]) && (forall j :: 0 <= j < i ==> !StartsStamp(k, v[j..])) ==>
              exists t: Moment, shortM: bool, shortD: bool ::
                InRange(k, t) && Spelled(k, t, shortM, shortD) <= v[i..] && Stamped(k, v, previous) == Full(k, t)
  {
    hide MatchLength, InRange, Spelled, Normalise, StartsStamp;
    MatchesExactly(k, v);
    assert v[0..] == v;
    if v == [] {
      NothingStarts(k);
    } else if MatchLength(k, v).Some? {
      var t, shortM, shortD := MatchIsSpelled(k, v, MatchLength(k, v).value);
      SpellingNormalises(k, t, shortM, shortD);
      assert Stamped(k, v, previous) == Full(k, t) && Spelled(k, t, shortM, shortD) <= v[0..];
      assert StartsStamp(k, v[0..]);
    } else {
      assert forall i :: 0 <= i < |v| - 1 ==> v[1..][i..] == v[i + 1..];
      StoredExactly(k, v[1..], previous);
      forall i | 0 <= i < |v| && StartsStamp(k, v[i..]) && (forall j :: 0 <= j < i ==> !StartsStamp(k, v[j..]))
        ensures exists t: Moment, shortM: bool, shortD: bool ::
                  InRange(k, t) && Spelled(k, t, shortM, shortD) <= v[i..] && Stamped(k, v, previous) == Full(k, t)
      {
        assert i > 0 && v[1..][i - 1..] == v[i..];
        assert forall j :: 0 <= j < i - 1 ==> v[1..][j..] == v[j + 1..];
      }
    }
  }

  lemma NothingStarts(k: Kind)
    ensures MatchLength(k, "").None?
  {
  }
}
