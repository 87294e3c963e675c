/**
 * Date comparison as the search code performs it: `DateEgale` compares the
 * formatted creation date as text, `DateSup` reads six integer fields at
 * fixed offsets and compares them year first, and `IsDate` is the regular
 * expression that guards every date typed by the user.
 */
module Dates {
  import opened Text
  import opened Fichier

  /** A text from which all six fields parse, so that `DateSup` does not throw. */
  predicate DateText(s: string)
  {
    |s| >= 10 && ParseInt(s[6..10]).Some? && PairParses(s, 0) && PairParses(s, 3)
    && PairParses(s, 11) && PairParses(s, 14) && PairParses(s, 17)
  }

  /** The fields in the order `DateSup` weighs them. */
  function Fields(s: string): (f: seq<int>)
    requires DateText(s)
    ensures |f| == 6
  {
    [Annee(s), Mois(s), Jour(s), Heure(s), Minute(s), Seconde(s)]
  }

  /** `DateEgale`: textual equality of the creation date and the reference. */
  predicate DateEgale(created: string, date1: string)
  {
    created == date1
  }

  /**
   * `DateSup`: is `date` strictly later than `date1`, field by field. The
   * year decides first: a later year is always later, an earlier one never.
   */
  predicate DateSup(date: string, date1: string)
    requires DateText(date) && DateText(date1)
    ensures Annee(date) > Annee(date1) ==> DateSup(date, date1)
    ensures DateSup(date, date1) ==> Annee(date) >= Annee(date1)
  {
    var annee1, jour1, mois1 := Annee(date1), Jour(date1), Mois(date1);
    var heure1, minute1, seconde1 := Heure(date1), Minute(date1), Seconde(date1);
    var annee, jour, mois := Annee(date), Jour(date), Mois(date);
    var heure, minute, seconde := Heure(date), Minute(date), Seconde(date);
    if annee > annee1 then true
    else if annee == annee1 then
      if mois > mois1 then true
      else if mois == mois1 then
        if jour > jour1 then true
        else if jour == jour1 then
          if heure > heure1 then true
          else if heure == heure1 then
            if minute > minute1 then true
            else if minute == minute1 then seconde > seconde1
            else false
          else false
        else false
      else false
    else false
  }

  /** Strict lexicographic order on equally long integer sequences. */
  predicate LexGreater(a: seq<int>, b: seq<int>)
    requires |a| == |b|
    decreases |a|
  {
    |a| > 0 && (a[0] > b[0] || (a[0] == b[0] && LexGreater(a[1..], b[1..])))
  }

  /** `DateSup` is the lexicographic order on (year, month, day, hour, minute, second). */
  lemma DateSupIsLexGreater(date: string, date1: string)
    requires DateText(date) && DateText(date1)
    ensures DateSup(date, date1) == LexGreater(Fields(date), Fields(date1))
  {
    var a, b := Fields(date), Fields(date1);
    var a1, b1 := a[1..], b[1..];
    var a2, b2 := a1[1..], b1[1..];
    var a3, b3 := a2[1..], b2[1..];
    var a4, b4 := a3[1..], b3[1..];
    var a5, b5 := a4[1..], b4[1..];
    assert a5[1..] == [] == b5[1..];
    assert LexGreater(a5, b5) == (a[5] > b[5]);
    assert LexGreater(a4, b4) == (a[4] > b[4] || (a[4] == b[4] && a[5] > b[5]));
    assert LexGreater(a3, b3) == (a[3] > b[3] || (a[3] == b[3] && LexGreater(a4, b4)));
    assert LexGreater(a2, b2) == (a[2] > b[2] || (a[2] == b[2] && LexGreater(a3, b3)));
    assert LexGreater(a1, b1) == (a[1] > b[1] || (a[1] == b[1] && LexGreater(a2, b2)));
  }

  lemma {:induction false} LexIrreflexive(a: seq<int>)
    ensures !LexGreater(a, a)
    decreases |a|
  {
    if |a| > 0 {
      LexIrreflexive(a[1..]);
    }
  }

  lemma {:induction false} LexTransitive(a: seq<int>, b: seq<int>, c: seq<int>)
    requires |a| == |b| == |c|
    requires LexGreater(a, b) && LexGreater(b, c)
    ensures LexGreater(a, c)
    decreases |a|
  {
    if a[0] == b[0] == c[0] {
      LexTransitive(a[1..], b[1..], c[1..]);
    }
  }

  /** Two different sequences are ordered one way or the other, never both. */
  lemma {:induction false} LexTotal(a: seq<int>, b: seq<int>)
    requires |a| == |b|
    ensures a != b <==> LexGreater(a, b) || LexGreater(b, a)
    ensures !(LexGreater(a, b) && LexGreater(b, a))
    decreases |a|
  {
    if |a| > 0 {
      LexTotal(a[1..], b[1..]);
      if a[0] == b[0] && a[1..] == b[1..] {
        assert a == [a[0]] + a[1..] && b == [b[0]] + b[1..];
      }
    }
  }

  lemma DateSupIrreflexive(date: string)
    requires DateText(date)
    ensures !DateSup(date, date)
  {
    DateSupIsLexGreater(date, date);
    LexIrreflexive(Fields(date));
  }

  lemma DateSupTransitive(d1: string, d2: string, d3: string)
    requires DateText(d1) && DateText(d2) && DateText(d3)
    requires DateSup(d1, d2) && DateSup(d2, d3)
    ensures DateSup(d1, d3)
  {
    DateSupIsLexGreater(d1, d2);
    DateSupIsLexGreater(d2, d3);
    DateSupIsLexGreater(d1, d3);
    LexTransitive(Fields(d1), Fields(d2), Fields(d3));
  }

  lemma DateSupAsymmetric(d1: string, d2: string)
    requires DateText(d1) && DateText(d2)
    ensures !(DateSup(d1, d2) && DateSup(d2, d1))
  {
    DateSupIsLexGreater(d1, d2);
    DateSupIsLexGreater(d2, d1);
    LexTotal(Fields(d1), Fields(d2));
  }

  predicate DayPair(a: char, b: char)
  {
    (a == '0' && '1' <= b <= '9') || ((a == '1' || a == '2') && IsDigit(b)) || (a == '3' && (b == '0' || b == '1'))
  }

  predicate MonthPair(a: char, b: char)
  {
    (a == '0' && '1' <= b <= '9') || (a == '1' && '0' <= b <= '2')
  }

  predicate HourPair(a: char, b: char)
  {
    ((a == '0' || a == '1') && IsDigit(b)) || (a == '2' && '0' <= b <= '3')
  }

  predicate SixtyPair(a: char, b: char)
  {
    '0' <= a <= '5' && IsDigit(b)
  }

  /**
   * `IsDate`: the whole text matches
   * `(0[1-9]|[12][0-9]|3[01])/(0[1-9]|1[0-2])/\d{4} (0[0-9]|1[0-9]|2[0-3]):([0-5][0-9]):([0-5][0-9])`.
   */
  predicate IsDate(d: string)
    ensures IsDate(d) ==> DateText(d)
  {
    |d| == 19
    && DayPair(d[0], d[1]) && d[2] == '/'
    && MonthPair(d[3], d[4]) && d[5] == '/'
    && IsDigit(d[6]) && IsDigit(d[7]) && IsDigit(d[8]) && IsDigit(d[9]) && d[10] == ' '
    && HourPair(d[11], d[12]) && d[13] == ':'
    && SixtyPair(d[14], d[15]) && d[16] == ':'
    && SixtyPair(d[17], d[18])
  }

  /** The positions of a `dd/MM/yyyy HH:mm:ss` text that hold separators. */
  predicate IsSeparatorPosition(k: int)
  {
    k == 2 || k == 5 || k == 10 || k == 13 || k == 16
  }

  /** The shape of `dd/MM/yyyy HH:mm:ss` with any digits. */
  predicate DateLayout(d: string)
  {
    |d| == 19 && d[2] == '/' && d[5] == '/' && d[10] == ' ' && d[13] == ':' && d[16] == ':'
    && forall k :: 0 <= k < 19 && !IsSeparatorPosition(k) ==> IsDigit(d[k])
  }

  function DigitOf(c: char): int
  {
    c as int - '0' as int
  }

  /** Two ASCII digits parse to their two-digit value. */
  lemma PairValue(d: string, lo: nat)
    requires lo + 2 <= |d| && IsDigit(d[lo]) && IsDigit(d[lo + 1])
    ensures PairParses(d, lo)
    ensures Pair(d, lo) == 10 * DigitOf(d[lo]) + DigitOf(d[lo + 1])
  {
    var t := d[lo..lo + 2];
    assert t[..1][..0] == [] && t[..1] == [d[lo]];
    assert DigitsValue(t) == 10 * DigitOf(d[lo]) + DigitOf(d[lo + 1]);
  }

  /** Four ASCII digits parse to their value, which is never negative. */
  lemma YearValue(d: string)
    requires |d| >= 10 && AllDigits(d[6..10])
    ensures ParseInt(d[6..10]) == Some(DigitsValue(d[6..10]) as int)
  {
    assert IsDigit(d[6..10][0]);
    assert Pow10(4) == 10000;
  }

  /** Every field of a text laid out as `dd/MM/yyyy HH:mm:ss` parses, each pair to its two digits. */
  lemma LayoutFields(d: string)
    requires DateLayout(d)
    ensures DateText(d)
    ensures Jour(d) == 10 * DigitOf(d[0]) + DigitOf(d[1])
    ensures Mois(d) == 10 * DigitOf(d[3]) + DigitOf(d[4])
    ensures Heure(d) == 10 * DigitOf(d[11]) + DigitOf(d[12])
    ensures Minute(d) == 10 * DigitOf(d[14]) + DigitOf(d[15])
    ensures Seconde(d) == 10 * DigitOf(d[17]) + DigitOf(d[18])
  {
    assert !IsSeparatorPosition(0) && !IsSeparatorPosition(1);
    assert !IsSeparatorPosition(3) && !IsSeparatorPosition(4);
    assert !IsSeparatorPosition(11) && !IsSeparatorPosition(12);
    assert !IsSeparatorPosition(14) && !IsSeparatorPosition(15);
    assert !IsSeparatorPosition(17) && !IsSeparatorPosition(18);
    PairValue(d, 0);
    PairValue(d, 3);
    PairValue(d, 11);
    PairValue(d, 14);
    PairValue(d, 17);
    assert AllDigits(d[6..10]) by {
      forall k | 0 <= k < 4 ensures IsDigit(d[6..10][k]) {
        assert !IsSeparatorPosition(6 + k);
      }
    }
    YearValue(d);
  }

  /** Each pair pattern accepts exactly the two-digit values in its range. */
  lemma PairPatterns(a: char, b: char)
    requires IsDigit(a) && IsDigit(b)
    ensures DayPair(a, b) <==> 1 <= 10 * DigitOf(a) + DigitOf(b) <= 31
    ensures MonthPair(a, b) <==> 1 <= 10 * DigitOf(a) + DigitOf(b) <= 12
    ensures HourPair(a, b) <==> 0 <= 10 * DigitOf(a) + DigitOf(b) <= 23
    ensures SixtyPair(a, b) <==> 0 <= 10 * DigitOf(a) + DigitOf(b) <= 59
  {
  }

  /**
   * What the pattern means numerically: the layout, a day in 1..31, a month
   * in 1..12, an hour in 0..23, minutes and seconds in 0..59; the year is any
   * four digits.
   */
  lemma IsDateMeans(d: string)
    ensures IsDate(d) <==>
      DateLayout(d) && DateText(d)
      && 1 <= Jour(d) <= 31 && 1 <= Mois(d) <= 12 && 0 <= Heure(d) <= 23
      && 0 <= Minute(d) <= 59 && 0 <= Seconde(d) <= 59
  {
    if IsDate(d) {
      assert DateLayout(d);
    }
    if DateLayout(d) {
      LayoutFields(d);
      assert !IsSeparatorPosition(0) && !IsSeparatorPosition(1);
      assert !IsSeparatorPosition(3) && !IsSeparatorPosition(4);
      assert !IsSeparatorPosition(11) && !IsSeparatorPosition(12);
      assert !IsSeparatorPosition(14) && !IsSeparatorPosition(15);
      assert !IsSeparatorPosition(17) && !IsSeparatorPosition(18);
      assert !IsSeparatorPosition(6) && !IsSeparatorPosition(7);
      assert !IsSeparatorPosition(8) && !IsSeparatorPosition(9);
      PairPatterns(d[0], d[1]);
      PairPatterns(d[3], d[4]);
      PairPatterns(d[11], d[12]);
      PairPatterns(d[14], d[15]);
      PairPatterns(d[17], d[18]);
    }
  }

  lemma IsDateIsDateText(d: string)
    requires IsDate(d)
    ensures DateText(d)
  {
    IsDateMeans(d);
  }

  /** The pattern checks each field's range alone: 31 February is accepted. */
  lemma IsDateAcceptsImpossibleDay()
    ensures IsDate("31/02/2024 00:00:00")
  {
  }

  /** The creation-date sentinel is neither a valid date nor a parsable one. */
  lemma SentinelIsNoDate()
    ensures !IsDate("00/00/0000") && !DateText("00/00/0000")
  {
  }

  /** Equal values of equally long digit runs come from the same text. */
  lemma {:induction false} DigitsValueInjective(s: string, t: string)
    requires |s| == |t| && AllDigits(s) && AllDigits(t)
    requires DigitsValue(s) == DigitsValue(t)
    ensures s == t
    decreases |s|
  {
    if |s| > 0 {
      var n := |s| - 1;
      LastDigitSplits(DigitsValue(s[..n]), DigitsValue(t[..n]), s[n] as int - '0' as int, t[n] as int - '0' as int);
      DigitsValueInjective(s[..n], t[..n]);
      assert s == s[..n] + [s[n]] && t == t[..n] + [t[n]];
    }
  }

  /** A value times ten plus a digit determines both the value and the digit. */
  lemma LastDigitSplits(a: nat, b: nat, x: int, y: int)
    requires 0 <= x < 10 && 0 <= y < 10 && a * 10 + x == b * 10 + y
    ensures a == b && x == y
  {
  }

  lemma PairInjective(a: string, b: string, lo: nat)
    requires lo + 2 <= |a| && IsDigit(a[lo]) && IsDigit(a[lo + 1])
    requires lo + 2 <= |b| && IsDigit(b[lo]) && IsDigit(b[lo + 1])
    requires PairParses(a, lo) && PairParses(b, lo) && Pair(a, lo) == Pair(b, lo)
    ensures a[lo] == b[lo] && a[lo + 1] == b[lo + 1]
  {
    PairValue(a, lo);
    PairValue(b, lo);
  }

  lemma YearInjective(a: string, b: string)
    requires DateLayout(a) && DateLayout(b)
    requires ParseInt(a[6..10]).Some? && ParseInt(a[6..10]) == ParseInt(b[6..10])
    ensures a[6..10] == b[6..10]
  {
    assert AllDigits(a[6..10]) && AllDigits(b[6..10]) by {
      forall k | 0 <= k < 4 ensures IsDigit(a[6..10][k]) && IsDigit(b[6..10][k]) {
        assert !IsSeparatorPosition(6 + k);
      }
    }
    YearValue(a);
    YearValue(b);
    DigitsValueInjective(a[6..10], b[6..10]);
  }

  lemma IsDateLayout(d: string)
    requires IsDate(d)
    ensures DateLayout(d)
  {
  }

  /** Two valid dates with the same fields are the same text. */
  lemma {:induction false} FieldsInjective(a: string, b: string)
    requires IsDate(a) && IsDate(b)
    requires DateText(a) && DateText(b) && Fields(a) == Fields(b)
    ensures a == b
  {
    IsDateLayout(a);
    IsDateLayout(b);
    var fa, fb := Fields(a), Fields(b);
    assert fa[0] == fb[0] && fa[1] == fb[1] && fa[2] == fb[2];
    assert fa[3] == fb[3] && fa[4] == fb[4] && fa[5] == fb[5];
    SameFieldsSameDate(a, b);
  }

  /** Two layouts whose six fields read the same are the same text. */
  lemma SameFieldsSameDate(a: string, b: string)
    requires DateLayout(a) && DateLayout(b) && DateText(a) && DateText(b)
    requires Annee(a) == Annee(b) && Mois(a) == Mois(b) && Jour(a) == Jour(b)
    requires Heure(a) == Heure(b) && Minute(a) == Minute(b) && Seconde(a) == Seconde(b)
    ensures a == b
  {
    PairInjective(a, b, 0);
    PairInjective(a, b, 3);
    PairInjective(a, b, 11);
    PairInjective(a, b, 14);
    PairInjective(a, b, 17);
    YearInjective(a, b);
    SameDigitsSameDate(a, b);
  }

  /** Two layouts that agree on every digit are the same text. */
  lemma SameDigitsSameDate(a: string, b: string)
    requires DateLayout(a) && DateLayout(b)
    requires a[0] == b[0] && a[1] == b[1] && a[3] == b[3] && a[4] == b[4] && a[6..10] == b[6..10]
    requires a[11] == b[11] && a[12] == b[12] && a[14] == b[14] && a[15] == b[15]
    requires a[17] == b[17] && a[18] == b[18]
    ensures a == b
  {
    forall k | 0 <= k < 19 ensures a[k] == b[k] {
      if 6 <= k < 10 {
        assert a[k] == a[6..10][k - 6];
        assert b[k] == b[6..10][k - 6];
      }
    }
  }

  /** Between valid dates exactly one holds: later, equal, or earlier. */
  lemma DateTrichotomy(a: string, b: string)
    requires IsDate(a) && IsDate(b)
    ensures DateText(a) && DateText(b)
    ensures DateSup(a, b) || DateEgale(a, b) || DateSup(b, a)
    ensures !(DateSup(a, b) && DateEgale(a, b))
    ensures !(DateSup(b, a) && DateEgale(a, b))
    ensures !(DateSup(a, b) && DateSup(b, a))
  {
    IsDateIsDateText(a);
    IsDateIsDateText(b);
    DateSupIsLexGreater(a, b);
    DateSupIsLexGreater(b, a);
    LexTotal(Fields(a), Fields(b));
    if Fields(a) == Fields(b) {
      FieldsInjective(a, b);
    }
    if a == b {
      DateSupIrreflexive(a);
    }
  }
}
