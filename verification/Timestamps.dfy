/** Stored timestamps are strings, and the store compares them as strings. How far that
    stands in for comparing times: RFC3339Nano in UTC (section 5.6 of RFC 3339, with
    trailing zeros of the fraction dropped) and SQLite's CURRENT_TIMESTAMP. */
module Timestamps {

  datatype Time = Time(year: nat, month: nat, day: nat, hour: nat, minute: nat, second: nat, nanos: nat)

  predicate InRange(t: Time) {
    t.year < 10000 && t.month < 100 && t.day < 100 && t.hour < 100 && t.minute < 100 && t.second < 100
      && t.nanos < 1000000000
  }

  // ---------------------------------------------------------------- strings

  /** Bytewise order, a proper prefix first. */
  predicate StrLess(a: string, b: string) {
    b != "" && (a == "" || a[0] < b[0] || (a[0] == b[0] && StrLess(a[1..], b[1..])))
  }

  function Digit(d: nat): char
    requires d < 10
  {
    '0' + d as char
  }

  function Pow10(w: nat): nat { if w == 0 then 1 else 10 * Pow10(w - 1) }

  /** n in w digits. */
  function Pad(n: nat, w: nat): (s: string)
    ensures |s| == w && forall i :: 0 <= i < w ==> '0' <= s[i] <= '9'
  {
    if w == 0 then "" else Pad(n / 10, w - 1) + [Digit(n % 10)]
  }

  function DateStr(t: Time, rest: string): string {
    Pad(t.year, 4) + ("-" + (Pad(t.month, 2) + ("-" + (Pad(t.day, 2) + rest))))
  }

  function ClockStr(t: Time, rest: string): string {
    Pad(t.hour, 2) + (":" + (Pad(t.minute, 2) + (":" + (Pad(t.second, 2) + rest))))
  }

  function Trim(s: string): string {
    if s != "" && s[|s| - 1] == '0' then Trim(s[..|s| - 1]) else s
  }

  /** The digits of the fraction that RFC3339Nano prints. */
  function Fraction(nanos: nat): string {
    Trim(Pad(nanos, 9))
  }

  function Suffix(nanos: nat): string {
    (if Fraction(nanos) == "" then "" else "." + Fraction(nanos)) + "Z"
  }

  /** time.RFC3339Nano of a UTC time. */
  function Rfc3339Nano(t: Time): string {
    DateStr(t, "T" + ClockStr(t, Suffix(t.nanos)))
  }

  /** CURRENT_TIMESTAMP. */
  function CurrentTimestamp(t: Time): string {
    DateStr(t, " " + ClockStr(t, ""))
  }

  /** The printed digits of a number. */
  lemma PadExamples()
    ensures Pad(2024, 4) == "2024" && Pad(1, 2) == "01" && Pad(2, 2) == "02" && Pad(3, 2) == "03"
    ensures Pad(4, 2) == "04" && Pad(5, 2) == "05"
  {
    assert Pad(2, 1) == Pad(0, 0) + [Digit(2)] == "2";
    assert Pad(20, 2) == Pad(2, 1) + [Digit(0)] == "20";
    assert Pad(202, 3) == Pad(20, 2) + [Digit(2)] == "202";
  }

  /** A number ten times as big has one more zero, which trimming takes away. */
  lemma TenTimes(n: nat, w: nat)
    ensures Trim(Pad(10 * n, w + 1)) == Trim(Pad(n, w))
  {
    assert Pad(10 * n, w + 1) == Pad(n, w) + ['0'];
  }

  /** Trailing zeros of the fraction are not printed, and neither is an empty fraction. */
  lemma SuffixExamples()
    ensures Suffix(0) == "Z" && Suffix(120000000) == ".12Z"
  {
    hide Pad, Trim;
    TenTimes(0, 0); TenTimes(0, 1); TenTimes(0, 2); TenTimes(0, 3); TenTimes(0, 4);
    TenTimes(0, 5); TenTimes(0, 6); TenTimes(0, 7); TenTimes(0, 8);
    TenTimes(12, 2); TenTimes(120, 3); TenTimes(1200, 4); TenTimes(12000, 5);
    TenTimes(120000, 6); TenTimes(1200000, 7); TenTimes(12000000, 8);
    Twelve();
  }

  lemma Twelve()
    ensures Trim(Pad(12, 2)) == "12" && Trim(Pad(0, 0)) == ""
  {
    assert Pad(1, 1) == Pad(0, 0) + [Digit(1)] == "1";
    assert Pad(12, 2) == "12";
  }

  lemma DateExample(t: Time, rest: string)
    requires t.year == 2024 && t.month == 1 && t.day == 2
    ensures DateStr(t, rest) == "2024-01-02" + rest
  {
    hide Pad;
    PadExamples();
    assert "2024" + ("-" + ("01" + ("-" + ("02" + rest)))) == "2024-01-02" + rest;
  }

  lemma ClockExample(t: Time, rest: string)
    requires t.hour == 3 && t.minute == 4 && t.second == 5
    ensures ClockStr(t, rest) == "03:04:05" + rest
  {
    hide Pad;
    PadExamples();
    assert "03" + (":" + ("04" + (":" + ("05" + rest)))) == "03:04:05" + rest;
  }

  /** The two formats, by example. */
  lemma FormatExamples(t: Time)
    requires t == Time(2024, 1, 2, 3, 4, 5, 120000000)
    ensures Rfc3339Nano(t) == "2024-01-02" + ("T" + ("03:04:05" + ".12Z"))
    ensures Rfc3339Nano(t.(nanos := 0)) == "2024-01-02" + ("T" + ("03:04:05" + "Z"))
    ensures CurrentTimestamp(t) == "2024-01-02" + (" " + ("03:04:05" + ""))
  {
    hide Suffix, DateStr, ClockStr;
    SuffixExamples();
    ClockExample(t, ".12Z");
    ClockExample(t.(nanos := 0), "Z");
    ClockExample(t, "");
    DateExample(t, "T" + ClockStr(t, ".12Z"));
    DateExample(t.(nanos := 0), "T" + ClockStr(t.(nanos := 0), "Z"));
    DateExample(t, " " + ClockStr(t, ""));
  }

  // ---------------------------------------------------------------- times

  predicate SameDate(t: Time, u: Time) {
    t.year == u.year && t.month == u.month && t.day == u.day
  }

  predicate DateBefore(t: Time, u: Time) {
    t.year < u.year || (t.year == u.year && (t.month < u.month || (t.month == u.month && t.day < u.day)))
  }

  predicate SameClock(t: Time, u: Time) {
    t.hour == u.hour && t.minute == u.minute && t.second == u.second
  }

  predicate ClockBefore(t: Time, u: Time) {
    t.hour < u.hour || (t.hour == u.hour && (t.minute < u.minute || (t.minute == u.minute && t.second < u.second)))
  }

  /** t lies in an earlier whole second than u. */
  predicate SecondBefore(t: Time, u: Time) {
    DateBefore(t, u) || (SameDate(t, u) && ClockBefore(t, u))
  }

  // ---------------------------------------------------------------- order of the parts

  lemma {:induction false} LessConcat(a: string, b: string, x: string, y: string)
    requires |a| == |b|
    ensures StrLess(a + x, b + y) <==> StrLess(a, b) || (a == b && StrLess(x, y))
  {
    if a == "" {
      assert a + x == x && b + y == y;
    } else {
      LessConcat(a[1..], b[1..], x, y);
      assert (a + x)[1..] == a[1..] + x && (b + y)[1..] == b[1..] + y;
      assert a == b <==> a[0] == b[0] && a[1..] == b[1..];
    }
  }

  lemma {:induction false} PadOrder(n: nat, m: nat, w: nat)
    requires n < Pow10(w) && m < Pow10(w)
    ensures StrLess(Pad(n, w), Pad(m, w)) <==> n < m
    ensures Pad(n, w) == Pad(m, w) <==> n == m
  {
    if w > 0 {
      PadOrder(n / 10, m / 10, w - 1);
      var p, q, c, d := Pad(n / 10, w - 1), Pad(m / 10, w - 1), [Digit(n % 10)], [Digit(m % 10)];
      LessConcat(p, q, c, d);
      assert StrLess(c, d) <==> n % 10 < m % 10;
      assert p + c == q + d <==> p == q && c == d by {
        assert (p + c)[..w - 1] == p && (q + d)[..w - 1] == q;
        assert (p + c)[w - 1] == c[0] && (q + d)[w - 1] == d[0];
      }
    }
  }

  lemma FieldOrder(n: nat, m: nat, w: nat, x: string, y: string)
    requires n < Pow10(w) && m < Pow10(w)
    ensures StrLess(Pad(n, w) + x, Pad(m, w) + y) <==> n < m || (n == m && StrLess(x, y))
  {
    PadOrder(n, m, w);
    LessConcat(Pad(n, w), Pad(m, w), x, y);
  }

  lemma SameHead(c: char, x: string, y: string)
    ensures StrLess([c] + x, [c] + y) <==> StrLess(x, y)
  {
    assert ([c] + x)[1..] == x && ([c] + y)[1..] == y;
  }

  lemma Tens()
    ensures Pow10(2) == 100 && Pow10(4) == 10000 && Pow10(9) == 1000000000
  {
    assert Pow10(5) == 100000 && Pow10(7) == 10000000;
  }

  /** Two separated two-digit fields after a first field. */
  lemma ThreeFields(w: nat, c: char, a: nat, b: nat, d: nat, a': nat, b': nat, d': nat, x: string, y: string)
    requires a < Pow10(w) && a' < Pow10(w) && b < 100 && b' < 100 && d < 100 && d' < 100
    ensures StrLess(Pad(a, w) + ([c] + (Pad(b, 2) + ([c] + (Pad(d, 2) + x)))),
                    Pad(a', w) + ([c] + (Pad(b', 2) + ([c] + (Pad(d', 2) + y)))))
       <==> a < a' || (a == a' && (b < b' || (b == b' && (d < d' || (d == d' && StrLess(x, y))))))
  {
    Tens();
    var x1, y1 := Pad(d, 2) + x, Pad(d', 2) + y;
    var x2, y2 := Pad(b, 2) + ([c] + x1), Pad(b', 2) + ([c] + y1);
    FieldOrder(d, d', 2, x, y);
    SameHead(c, x1, y1);
    FieldOrder(b, b', 2, [c] + x1, [c] + y1);
    SameHead(c, x2, y2);
    FieldOrder(a, a', w, [c] + x2, [c] + y2);
  }

  lemma DateOrder(t: Time, u: Time, x: string, y: string)
    requires InRange(t) && InRange(u)
    ensures StrLess(DateStr(t, x), DateStr(u, y)) <==> DateBefore(t, u) || (SameDate(t, u) && StrLess(x, y))
  {
    Tens();
    ThreeFields(4, '-', t.year, t.month, t.day, u.year, u.month, u.day, x, y);
  }

  lemma ClockOrder(t: Time, u: Time, x: string, y: string)
    requires InRange(t) && InRange(u)
    ensures StrLess(ClockStr(t, x), ClockStr(u, y)) <==> ClockBefore(t, u) || (SameClock(t, u) && StrLess(x, y))
  {
    Tens();
    ThreeFields(2, ':', t.hour, t.minute, t.second, u.hour, u.minute, u.second, x, y);
  }

  // ---------------------------------------------------------------- what the store may rely on

  /** Two stored times order by whole second, and within one second by their printed fractions. */
  lemma NanoOrder(t: Time, u: Time)
    requires InRange(t) && InRange(u)
    ensures StrLess(Rfc3339Nano(t), Rfc3339Nano(u)) <==>
      SecondBefore(t, u) || (SameDate(t, u) && SameClock(t, u) && StrLess(Suffix(t.nanos), Suffix(u.nanos)))
  {
    var x, y := ClockStr(t, Suffix(t.nanos)), ClockStr(u, Suffix(u.nanos));
    DateOrder(t, u, "T" + x, "T" + y);
    SameHead('T', x, y);
    ClockOrder(t, u, Suffix(t.nanos), Suffix(u.nanos));
  }

  /** DeleteOlderThan is exact up to a second: what lies in an earlier second than the
      cutoff goes, what lies in a later one stays. */
  lemma AgeCutoffExactToTheSecond(row: Time, cutoff: Time)
    requires InRange(row) && InRange(cutoff)
    ensures SecondBefore(row, cutoff) ==> StrLess(Rfc3339Nano(row), Rfc3339Nano(cutoff))
    ensures SecondBefore(cutoff, row) ==> !StrLess(Rfc3339Nano(row), Rfc3339Nano(cutoff))
  {
    NanoOrder(row, cutoff);
  }

  /** Pruning the recall log removes exactly the rows dated on or before the cutoff day. */
  lemma RecallLogCutoffIsDayGranular(row: Time, cutoff: Time)
    requires InRange(row) && InRange(cutoff)
    ensures StrLess(CurrentTimestamp(row), Rfc3339Nano(cutoff)) <==> DateBefore(row, cutoff) || SameDate(row, cutoff)
  {
    var x, y := " " + ClockStr(row, ""), "T" + ClockStr(cutoff, Suffix(cutoff.nanos));
    DateOrder(row, cutoff, x, y);
    assert x[0] == ' ' && y[0] == 'T';
  }

  // ---------------------------------------------------------------- within one second

  function Zeros(n: nat): string { seq(n, i => '0') }

  predicate IsPrefix(a: string, b: string) { |a| <= |b| && b[..|a|] == a }

  lemma {:induction false} TrimZeros(s: string)
    ensures |Trim(s)| <= |s| && s == Trim(s) + Zeros(|s| - |Trim(s)|)
    ensures Trim(s) != "" ==> Trim(s)[|Trim(s)| - 1] != '0'
    ensures forall i :: 0 <= i < |Trim(s)| ==> Trim(s)[i] == s[i]
  {
    if s != "" && s[|s| - 1] == '0' {
      var t := s[..|s| - 1];
      TrimZeros(t);
      assert s == t + ['0'];
      assert Zeros(|t| - |Trim(t)|) + ['0'] == Zeros(|s| - |Trim(s)|);
    }
  }

  lemma PrefixCons(a: string, b: string)
    requires a != "" && b != "" && a[0] == b[0]
    ensures IsPrefix(a, b) <==> IsPrefix(a[1..], b[1..])
  {
    if |a| <= |b| {
      assert b[..|a|] == [b[0]] + b[1..][..|a| - 1];
      assert a == [a[0]] + a[1..];
    }
  }

  lemma FirstDifference(a: string, b: string) returns (k: nat)
    requires !IsPrefix(a, b) && !IsPrefix(b, a)
    ensures k < |a| && k < |b| && a[k] != b[k] && a[..k] == b[..k]
  {
    if a[0] != b[0] {
      k := 0;
    } else {
      PrefixCons(a, b);
      PrefixCons(b, a);
      k := FirstDifference(a[1..], b[1..]);
      assert a[..k + 1] == [a[0]] + a[1..][..k] && b[..k + 1] == [b[0]] + b[1..][..k];
      k := k + 1;
    }
  }

  /** The first difference decides. */
  lemma DecidedAt(a: string, b: string, k: nat)
    requires k < |a| && k < |b| && a[k] != b[k] && a[..k] == b[..k]
    ensures StrLess(a, b) <==> a[k] < b[k]
  {
    assert a == a[..k] + a[k..] && b == b[..k] + b[k..];
    LessConcat(a[..k], b[..k], a[k..], b[k..]);
    assert !StrLess(a[..k], b[..k]) by { Irreflexive(a[..k]); }
  }

  lemma Irreflexive(a: string)
    ensures !StrLess(a, a)
  {
  }

  /** The digits that Fraction drops are zeros. */
  lemma FractionDigits(n: nat)
    ensures var p, a := Pad(n, 9), Fraction(n);
            && |a| <= 9 && p[..|a|] == a && (forall i :: |a| <= i < 9 ==> p[i] == '0')
            && (a != "" ==> a[|a| - 1] != '0') && forall i :: 0 <= i < |a| ==> '0' <= a[i] <= '9'
  {
    hide Pad, Trim;
    TrimZeros(Pad(n, 9));
  }

  lemma ExtensionIsLater(n: nat, m: nat)
    requires n < 1000000000 && m < 1000000000
    requires IsPrefix(Fraction(n), Fraction(m)) && Fraction(n) != Fraction(m)
    ensures n < m
  {
    var a, b := Fraction(n), Fraction(m);
    Tens();
    FractionDigits(n);
    FractionDigits(m);
    PadOrder(n, m, 9);
    hide Pad, Fraction, StrLess, Pow10;
    var k := FirstNonZero(b, |a|);
    var p, q := Pad(n, 9), Pad(m, 9);
    assert forall i :: 0 <= i < |b| ==> q[i] == b[i] by { assert forall i :: 0 <= i < |b| ==> q[..|b|][i] == b[i]; }
    assert forall i :: 0 <= i < |a| ==> p[i] == a[i] by { assert forall i :: 0 <= i < |a| ==> p[..|a|][i] == a[i]; }
    assert forall i :: 0 <= i < |a| ==> b[i] == a[i] by { assert forall i :: 0 <= i < |a| ==> b[..|a|][i] == a[i]; }
    assert p[..k] == q[..k];
    DecidedAt(p, q, k);
  }

  lemma ExtensionIsSmaller(n: nat, m: nat)
    requires IsPrefix(Fraction(n), Fraction(m)) && Fraction(n) != Fraction(m)
    ensures !StrLess(Suffix(n), Suffix(m)) && StrLess(Suffix(m), Suffix(n))
  {
    var a, b := Fraction(n), Fraction(m);
    FractionDigits(m);
    hide Fraction, StrLess;
    var x, y := Suffix(n), Suffix(m);
    var j := if a == "" then 0 else |a| + 1;
    if a != "" {
      assert x[..j] == "." + a && y[..j] == "." + b[..|a|];
    }
    assert x[j] == 'Z' && y[j] < 'Z';
    assert x[..j] == y[..j];
    DecidedAt(x, y, j);
    DecidedAt(y, x, j);
  }

  /** A fraction that extends another is the later time but the smaller string. */
  lemma ExtensionInverts(n: nat, m: nat)
    requires n < 1000000000 && m < 1000000000
    requires IsPrefix(Fraction(n), Fraction(m)) && Fraction(n) != Fraction(m)
    ensures n < m && !StrLess(Suffix(n), Suffix(m)) && StrLess(Suffix(m), Suffix(n))
  {
    ExtensionIsLater(n, m);
    ExtensionIsSmaller(n, m);
  }

  lemma FirstNonZero(b: string, from: nat) returns (k: nat)
    requires from < |b| && b[|b| - 1] != '0'
    ensures from <= k < |b| && b[k] != '0' && forall i :: from <= i < k ==> b[i] == '0'
    decreases |b| - from
  {
    if b[from] != '0' { k := from; } else { k := FirstNonZero(b, from + 1); }
  }

  lemma FractionInjective(n: nat, m: nat)
    requires n < 1000000000 && m < 1000000000 && Fraction(n) == Fraction(m)
    ensures n == m
  {
    Tens();
    FractionDigits(n);
    FractionDigits(m);
    PadOrder(n, m, 9);
    hide Pad, Fraction, StrLess, Pow10;
    var p, q, a := Pad(n, 9), Pad(m, 9), Fraction(n);
    assert p[..|a|] + p[|a|..] == p && q[..|a|] + q[|a|..] == q;
    assert p[|a|..] == q[|a|..];
  }

  lemma UnrelatedFractionsAgree(n: nat, m: nat)
    requires n < 1000000000 && m < 1000000000
    requires !IsPrefix(Fraction(n), Fraction(m)) && !IsPrefix(Fraction(m), Fraction(n))
    ensures StrLess(Suffix(n), Suffix(m)) <==> n < m
  {
    var a, b := Fraction(n), Fraction(m);
    var p, q, x, y := Pad(n, 9), Pad(m, 9), Suffix(n), Suffix(m);
    Tens();
    FractionDigits(n);
    FractionDigits(m);
    PadOrder(n, m, 9);
    hide Pad, Fraction, StrLess, Pow10;
    var k := FirstDifference(a, b);
    assert p[..k] == p[..|a|][..k] && q[..k] == q[..|b|][..k];
    assert p[k] == p[..|a|][k] && q[k] == q[..|b|][k];
    DecidedAt(p, q, k);
    assert x[..k + 1] == "." + a[..k] && y[..k + 1] == "." + b[..k];
    DecidedAt(x, y, k + 1);
  }

  /** Within one second string order is time order exactly when neither printed fraction
      is a prefix of the other. */
  lemma SubSecondExactly(n: nat, m: nat)
    requires n < 1000000000 && m < 1000000000 && n != m
    ensures (StrLess(Suffix(n), Suffix(m)) <==> n < m)
       <==> !IsPrefix(Fraction(n), Fraction(m)) && !IsPrefix(Fraction(m), Fraction(n))
  {
    hide Pad, Fraction, StrLess, Suffix, IsPrefix;
    if Fraction(n) == Fraction(m) { FractionInjective(n, m); }
    if IsPrefix(Fraction(n), Fraction(m)) {
      ExtensionInverts(n, m);
    } else if IsPrefix(Fraction(m), Fraction(n)) {
      ExtensionInverts(m, n);
    } else {
      UnrelatedFractionsAgree(n, m);
    }
  }

  /** In particular a time on the whole second sorts after every other time of that second. */
  lemma WholeSecondSortsLast(m: nat)
    requires 0 < m < 1000000000
    ensures StrLess(Suffix(m), Suffix(0))
  {
    FractionDigits(0);
    assert Fraction(0) == "" by {
      PadZero(9);
      hide Pad;
    }
    if Fraction(m) == "" { FractionInjective(0, m); }
    ExtensionInverts(0, m);
  }

  lemma {:induction false} PadZero(w: nat)
    ensures forall i :: 0 <= i < w ==> Pad(0, w)[i] == '0'
  {
    if w > 0 { PadZero(w - 1); }
  }
}
