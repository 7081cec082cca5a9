/** Instants as the tables store them: RFC 3339 in UTC with a nanosecond fraction whose trailing zeros are dropped, and
    when the order of such texts is the order of time. */
module Timestamps {
  import opened Conditions
  import opened Text

  // ----- decimal fields --------------------------------------------------------------------------

  function Power(w: nat): nat {
    if w == 0 then 1 else 10 * Power(w - 1)
  }

  function DigitOf(d: nat): char
    requires d < 10
  {
    ('0' as int + d) as char
  }

  /** The last `w` decimal digits, padded with zeros. */
  function Fixed(x: nat, w: nat): (s: string)
    ensures |s| == w
    ensures forall i :: 0 <= i < w ==> '0' <= s[i] <= '9'
  {
    if w == 0 then [] else Fixed(x / 10, w - 1) + [DigitOf(x % 10)]
  }

  lemma HeadOrder(c: char, s: string, d: char, t: string)
    ensures TextLess([c] + s, [d] + t) <==> c < d || (c == d && TextLess(s, t))
  {
    assert ([c] + s)[1..] == s && ([d] + t)[1..] == t;
  }

  /** Fields of equal width sort by number, and ties by what follows. */
  lemma {:induction false} FieldOrder(x: nat, y: nat, w: nat, s: string, t: string)
    requires x < Power(w) && y < Power(w)
    ensures TextLess(Fixed(x, w) + s, Fixed(y, w) + t) <==> x < y || (x == y && TextLess(s, t))
    decreases w
  {
    if w == 0 {
      assert Fixed(x, w) + s == s && Fixed(y, w) + t == t;
    } else {
      var c, d := DigitOf(x % 10), DigitOf(y % 10);
      assert Fixed(x, w) + s == Fixed(x / 10, w - 1) + ([c] + s);
      assert Fixed(y, w) + t == Fixed(y / 10, w - 1) + ([d] + t);
      FieldOrder(x / 10, y / 10, w - 1, [c] + s, [d] + t);
      HeadOrder(c, s, d, t);
    }
  }

  /** The same with a separator after the field. */
  lemma SeparatedOrder(x: nat, y: nat, w: nat, separator: char, s: string, t: string)
    requires x < Power(w) && y < Power(w)
    ensures TextLess(Fixed(x, w) + ([separator] + s), Fixed(y, w) + ([separator] + t)) <==> x < y || (x == y && TextLess(s, t))
  {
    FieldOrder(x, y, w, [separator] + s, [separator] + t);
    HeadOrder(separator, s, separator, t);
  }

  // ----- the fraction ----------------------------------------------------------------------------

  /** The digits of a fraction without trailing zeros. */
  function Trimmed(x: nat, w: nat): string {
    if w == 0 then [] else if x % 10 == 0 then Trimmed(x / 10, w - 1) else Fixed(x, w)
  }

  lemma {:induction false} TrimmedIsPrefix(x: nat, w: nat)
    ensures |Trimmed(x, w)| <= w && Trimmed(x, w) == Fixed(x, w)[..|Trimmed(x, w)|]
    ensures forall i :: |Trimmed(x, w)| <= i < w ==> Fixed(x, w)[i] == '0'
  {
    if w > 0 && x % 10 == 0 {
      TrimmedIsPrefix(x / 10, w - 1);
      assert Fixed(x, w)[..w - 1] == Fixed(x / 10, w - 1);
    }
  }

  /** The texts first differ at `k`, where `s` has the smaller character. */
  predicate DivergeAt(s: string, t: string, k: nat) {
    k < |s| && k < |t| && s[..k] == t[..k] && s[k] < t[k]
  }

  lemma {:induction false} FixedDiverge(x: nat, y: nat, w: nat) returns (k: nat)
    requires x < y < Power(w)
    ensures DivergeAt(Fixed(x, w), Fixed(y, w), k)
    decreases w
  {
    var a, b := Fixed(x, w), Fixed(y, w);
    if x / 10 < y / 10 {
      k := FixedDiverge(x / 10, y / 10, w - 1);
      assert a[..k] == Fixed(x / 10, w - 1)[..k] && b[..k] == Fixed(y / 10, w - 1)[..k];
    } else {
      k := w - 1;
      assert a[..k] == Fixed(x / 10, w - 1) && b[..k] == Fixed(y / 10, w - 1);
    }
  }

  /** Of two fractions, the smaller one's digits are a proper prefix of the other's, or they diverge downwards. */
  lemma TrimmedDiverge(x: nat, y: nat, w: nat)
    requires x < y < Power(w)
    ensures Trimmed(x, w) < Trimmed(y, w) || exists k :: DivergeAt(Trimmed(x, w), Trimmed(y, w), k)
  {
    var k := FixedDiverge(x, y, w);
    var a, b, p, q := Fixed(x, w), Fixed(y, w), Trimmed(x, w), Trimmed(y, w);
    TrimmedIsPrefix(x, w);
    TrimmedIsPrefix(y, w);
    assert k < |q|;
    assert q[..k] == b[..k] == a[..k];
    if k < |p| {
      assert p[..k] == a[..k];
      assert DivergeAt(p, q, k);
    } else {
      assert p == a[..k][..|p|] == q[..|p|];
    }
  }

  lemma {:induction false} DivergentOrder(s: string, t: string, k: nat, u: string, v: string)
    requires DivergeAt(s, t, k)
    ensures TextLess(s + u, t + v) && !TextLess(t + v, s + u)
    decreases k
  {
    assert s == [s[0]] + s[1..] && t == [t[0]] + t[1..];
    assert s + u == [s[0]] + (s[1..] + u) && t + v == [t[0]] + (t[1..] + v);
    HeadOrder(s[0], s[1..] + u, t[0], t[1..] + v);
    HeadOrder(t[0], t[1..] + v, s[0], s[1..] + u);
    if k > 0 {
      assert s[..k][0] == t[..k][0];
      assert s[1..][..k - 1] == s[..k][1..] && t[1..][..k - 1] == t[..k][1..];
      DivergentOrder(s[1..], t[1..], k - 1, u, v);
    }
  }

  lemma DivergentAreNoPrefixes(s: string, t: string, k: nat)
    requires DivergeAt(s, t, k)
    ensures !(s < t) && !(t < s)
  {
  }

  lemma {:induction false} CommonPrefix(p: string, a: string, b: string)
    ensures TextLess(p + a, p + b) == TextLess(a, b)
  {
    if p == [] {
      assert p + a == a && p + b == b;
    } else {
      assert p + a == [p[0]] + (p[1..] + a) && p + b == [p[0]] + (p[1..] + b);
      HeadOrder(p[0], p[1..] + a, p[0], p[1..] + b);
      CommonPrefix(p[1..], a, b);
    }
  }

  /** What follows the seconds: the fraction, if any, and the zone. */
  function Tail(nano: nat): string {
    (if Trimmed(nano, 9) == [] then [] else "." + Trimmed(nano, 9)) + "Z"
  }

  /** The zone letter sorts above every digit and the point, so a fraction sorts after its own extensions. */
  lemma ExtensionsSortFirst(x: nat, y: nat)
    requires Trimmed(x, 9) < Trimmed(y, 9)
    ensures TextLess(Tail(y), Tail(x)) && !TextLess(Tail(x), Tail(y))
  {
    TrimmedIsPrefix(y, 9);
    var p, q := Trimmed(x, 9), Trimmed(y, 9);
    var rest := q[|p|..];
    assert q == p + rest && rest[0] == Fixed(y, 9)[|p|];
    hide Trimmed, Fixed;
    if p == [] {
      LaterHead([], 'Z', [], '.', q + "Z");
      assert Tail(x) == [] + (['Z'] + []) && Tail(y) == [] + (['.'] + (q + "Z"));
    } else {
      LaterHead("." + p, 'Z', [], rest[0], rest[1..] + "Z");
      assert Tail(x) == ("." + p) + (['Z'] + []);
      assert Tail(y) == ("." + p) + ([rest[0]] + (rest[1..] + "Z"));
    }
  }

  lemma LaterHead(p: string, c: char, s: string, d: char, t: string)
    requires d < c
    ensures TextLess(p + ([d] + t), p + ([c] + s)) && !TextLess(p + ([c] + s), p + ([d] + t))
  {
    CommonPrefix(p, [c] + s, [d] + t);
    CommonPrefix(p, [d] + t, [c] + s);
    HeadOrder(c, s, d, t);
    HeadOrder(d, t, c, s);
  }

  lemma DivergentTails(x: nat, y: nat, k: nat)
    requires DivergeAt(Trimmed(x, 9), Trimmed(y, 9), k)
    ensures TextLess(Tail(x), Tail(y)) && !TextLess(Tail(y), Tail(x))
  {
    var p, q := Trimmed(x, 9), Trimmed(y, 9);
    hide Trimmed;
    DivergentOrder(p, q, k, "Z", "Z");
    assert Tail(x) == "." + (p + "Z") && Tail(y) == "." + (q + "Z");
    CommonPrefix(".", p + "Z", q + "Z");
    CommonPrefix(".", q + "Z", p + "Z");
  }

  lemma TailOrder(x: nat, y: nat)
    requires x < y < 1_000_000_000
    ensures if Trimmed(x, 9) < Trimmed(y, 9) then TextLess(Tail(y), Tail(x)) && !TextLess(Tail(x), Tail(y))
            else TextLess(Tail(x), Tail(y)) && !TextLess(Tail(y), Tail(x)) && !(Trimmed(y, 9) < Trimmed(x, 9))
  {
    NanosecondsFit();
    TrimmedDiverge(x, y, 9);
    hide Trimmed, Tail, TextLess;
    if Trimmed(x, 9) < Trimmed(y, 9) {
      ExtensionsSortFirst(x, y);
    } else {
      var k :| DivergeAt(Trimmed(x, 9), Trimmed(y, 9), k);
      DivergentAreNoPrefixes(Trimmed(x, 9), Trimmed(y, 9), k);
      DivergentTails(x, y, k);
    }
  }

  lemma NanosecondsFit()
    ensures Power(9) == 1_000_000_000 && Power(2) == 100
  {
    assert Power(3) == 1000 && Power(6) == 1_000_000;
  }

  // ----- the calendar ----------------------------------------------------------------------------

  datatype Civil = Civil(year: nat, month: nat, day: nat, hour: nat, minute: nat, second: nat)

  predicate IsLeap(year: nat) {
    year % 4 == 0 && (year % 100 != 0 || year % 400 == 0)
  }

  function YearLength(year: nat): nat {
    if IsLeap(year) then 366 else 365
  }

  function MonthLength(year: nat, month: nat): nat {
    if month == 2 then (if IsLeap(year) then 29 else 28)
    else if month in {4, 6, 9, 11} then 30 else 31
  }

  predicate ValidCivil(c: Civil) {
    && 1 <= c.month <= 12 && 1 <= c.day <= MonthLength(c.year, c.month)
    && c.hour < 24 && c.minute < 60 && c.second < 60
  }

  function DaysBeforeYear(year: nat): nat {
    if year == 0 then 0 else DaysBeforeYear(year - 1) + YearLength(year - 1)
  }

  function DaysBeforeMonth(year: nat, month: nat): nat
    requires month >= 1
  {
    if month == 1 then 0 else DaysBeforeMonth(year, month - 1) + MonthLength(year, month - 1)
  }

  /** The days before a year, in closed form: every fourth year is longer by a day, except the centuries that are not
      divisible by 400. */
  lemma {:induction false} GregorianYears(year: nat)
    ensures DaysBeforeYear(year) == 365 * year + (year + 3) / 4 - (year + 99) / 100 + (year + 399) / 400
  {
    if year > 0 {
      GregorianYears(year - 1);
      CenturiesDivide(year - 1);
      Fourth(year - 1);
      Hundredth(year - 1);
      FourHundredth(year - 1);
    }
  }

  lemma CenturiesDivide(year: nat)
    ensures year % 400 == 0 ==> year % 100 == 0
    ensures year % 100 == 0 ==> year % 4 == 0
  {
    if year % 400 == 0 { assert year == 100 * (4 * (year / 400)); }
    if year % 100 == 0 { assert year == 4 * (25 * (year / 100)); }
  }

  lemma Fourth(year: nat)
    ensures (year + 4) / 4 == (year + 3) / 4 + (if year % 4 == 0 then 1 else 0)
  {
  }

  lemma Hundredth(year: nat)
    ensures (year + 100) / 100 == (year + 99) / 100 + (if year % 100 == 0 then 1 else 0)
  {
  }

  lemma FourHundredth(year: nat)
    ensures (year + 400) / 400 == (year + 399) / 400 + (if year % 400 == 0 then 1 else 0)
  {
  }

  /** February aside, months alternate between 31 and 30 days, once in July and August without a change; a year is its
      twelve months. */
  lemma GregorianMonths(year: nat, month: nat)
    requires 1 <= month <= 12
    ensures month != 2 ==> MonthLength(year, month) == 30 + (month + month / 8) % 2
    ensures MonthLength(year, 2) == YearLength(year) - 337
  {
  }

  function DayNumber(c: Civil): nat
    requires ValidCivil(c)
  {
    DaysBeforeYear(c.year) + DaysBeforeMonth(c.year, c.month) + c.day - 1
  }

  function SecondOfDay(c: Civil): nat {
    c.hour * 3600 + c.minute * 60 + c.second
  }

  /** Seconds since the beginning of the year 0, without leap seconds. */
  function SecondOf(c: Civil): nat
    requires ValidCivil(c)
  {
    DayNumber(c) * 86400 + SecondOfDay(c)
  }

  /** The next second. */
  function Ticked(c: Civil): Civil {
    if c.second < 59 then c.(second := c.second + 1)
    else if c.minute < 59 then c.(second := 0, minute := c.minute + 1)
    else if c.hour < 23 then c.(second := 0, minute := 0, hour := c.hour + 1)
    else if c.day < MonthLength(c.year, c.month) then c.(second := 0, minute := 0, hour := 0, day := c.day + 1)
    else if c.month < 12 then Civil(c.year, c.month + 1, 1, 0, 0, 0)
    else Civil(c.year + 1, 1, 1, 0, 0, 0)
  }

  lemma YearIsItsMonths(year: nat)
    ensures DaysBeforeMonth(year, 12) + 31 == YearLength(year)
  {
    assert DaysBeforeMonth(year, 2) == 31;
    assert DaysBeforeMonth(year, 3) == 31 + MonthLength(year, 2);
    assert DaysBeforeMonth(year, 5) == DaysBeforeMonth(year, 3) + 61;
    assert DaysBeforeMonth(year, 7) == DaysBeforeMonth(year, 5) + 61;
    assert DaysBeforeMonth(year, 9) == DaysBeforeMonth(year, 7) + 62;
    assert DaysBeforeMonth(year, 11) == DaysBeforeMonth(year, 9) + 61;
    assert DaysBeforeMonth(year, 12) == DaysBeforeMonth(year, 11) + 30;
  }

  /** The date after this one. */
  function NextDate(c: Civil): Civil {
    if c.day < MonthLength(c.year, c.month) then c.(day := c.day + 1)
    else if c.month < 12 then c.(month := c.month + 1, day := 1)
    else c.(year := c.year + 1, month := 1, day := 1)
  }

  lemma NextDateIsNext(c: Civil)
    requires ValidCivil(c)
    ensures ValidCivil(NextDate(c)) && DayNumber(NextDate(c)) == DayNumber(c) + 1
  {
    YearIsItsMonths(c.year);
    hide YearLength, IsLeap;
  }

  lemma TickIsNext(c: Civil)
    requires ValidCivil(c)
    ensures ValidCivil(Ticked(c)) && SecondOf(Ticked(c)) == SecondOf(c) + 1
  {
    if c.second == 59 && c.minute == 59 && c.hour == 23 {
      NextDateIsNext(c);
      assert Ticked(c) == NextDate(c).(hour := 0, minute := 0, second := 0);
      SameDay(Ticked(c), NextDate(c));
      hide NextDate, DayNumber, MonthLength;
    } else {
      SameDay(Ticked(c), c);
      hide DayNumber, MonthLength;
    }
  }

  lemma SameDay(c: Civil, d: Civil)
    requires c.year == d.year && c.month == d.month && c.day == d.day && ValidCivil(c) && ValidCivil(d)
    ensures DayNumber(c) == DayNumber(d)
  {
  }

  /** The date and time of day that a count of seconds denotes. */
  function CivilAt(second: nat): Civil {
    if second == 0 then Civil(0, 1, 1, 0, 0, 0) else Ticked(CivilAt(second - 1))
  }

  lemma {:induction false} CivilAtDenotes(second: nat)
    ensures ValidCivil(CivilAt(second)) && SecondOf(CivilAt(second)) == second
  {
    hide Ticked, ValidCivil, SecondOf;
    if second > 0 {
      CivilAtDenotes(second - 1);
      TickIsNext(CivilAt(second - 1));
    } else {
      Beginning();
    }
  }

  lemma Beginning()
    ensures ValidCivil(Civil(0, 1, 1, 0, 0, 0)) && SecondOf(Civil(0, 1, 1, 0, 0, 0)) == 0
  {
  }

  predicate DateLess(c: Civil, d: Civil) {
    c.year < d.year || (c.year == d.year && (c.month < d.month || (c.month == d.month && c.day < d.day)))
  }

  predicate TimeLess(c: Civil, d: Civil) {
    c.hour < d.hour || (c.hour == d.hour && (c.minute < d.minute || (c.minute == d.minute && c.second < d.second)))
  }

  predicate SameDate(c: Civil, d: Civil) {
    c.year == d.year && c.month == d.month && c.day == d.day
  }

  predicate FieldsLess(c: Civil, d: Civil) {
    DateLess(c, d) || (SameDate(c, d) && TimeLess(c, d))
  }

  lemma {:induction false} MonthsAscend(year: nat, a: nat, b: nat)
    requires 1 <= a < b
    ensures DaysBeforeMonth(year, a) + MonthLength(year, a) <= DaysBeforeMonth(year, b)
    decreases b
  {
    if a < b - 1 { MonthsAscend(year, a, b - 1); }
  }

  lemma {:induction false} YearsAscend(a: nat, b: nat)
    requires a < b
    ensures DaysBeforeYear(a) + YearLength(a) <= DaysBeforeYear(b)
    decreases b
  {
    if a < b - 1 { YearsAscend(a, b - 1); }
  }

  lemma DateOrder(c: Civil, d: Civil)
    requires ValidCivil(c) && ValidCivil(d) && DateLess(c, d)
    ensures DayNumber(c) < DayNumber(d)
  {
    if c.year < d.year {
      YearsAscend(c.year, d.year);
      YearIsItsMonths(c.year);
      if c.month < 12 { MonthsAscend(c.year, c.month, 12); }
    } else if c.month < d.month {
      MonthsAscend(c.year, c.month, d.month);
    }
  }

  /** Comparing field by field is comparing seconds. */
  lemma FieldsOrder(c: Civil, d: Civil)
    requires ValidCivil(c) && ValidCivil(d)
    ensures FieldsLess(c, d) <==> SecondOf(c) < SecondOf(d)
    ensures c == d <==> SecondOf(c) == SecondOf(d)
  {
    if DateLess(c, d) { DateOrder(c, d); }
    if DateLess(d, c) { DateOrder(d, c); }
    hide DayNumber, IsLeap, MonthLength;
    assert SecondOfDay(c) < 86400 && SecondOfDay(d) < 86400;
    if SameDate(c, d) {
      assert DayNumber(c) == DayNumber(d) by { SameDayNumber(c, d); }
      assert TimeLess(c, d) <==> SecondOfDay(c) < SecondOfDay(d);
    }
  }

  lemma SameDayNumber(c: Civil, d: Civil)
    requires ValidCivil(c) && ValidCivil(d) && SameDate(c, d)
    ensures DayNumber(c) == DayNumber(d)
  {
  }

  // ----- instants and their texts ----------------------------------------------------------------

  type Nanos = n: nat | n < 1_000_000_000

  datatype Instant = Instant(second: nat, nano: Nanos)

  predicate Before(a: Instant, b: Instant) {
    a.second < b.second || (a.second == b.second && a.nano < b.nano)
  }

  /** Years are written with at least four digits. */
  function YearWidth(year: nat): (w: nat)
    ensures year < Power(w)
  {
    if year < 10000 then FourDigits(); 4 else 1 + YearWidth(year / 10)
  }

  lemma FourDigits()
    ensures Power(4) == 10000
  {
    assert Power(2) == 100;
  }

  function TimeText(c: Civil): string {
    Fixed(c.hour, 2) + (":" + (Fixed(c.minute, 2) + (":" + Fixed(c.second, 2))))
  }

  function DateText(c: Civil): string {
    Fixed(c.year, YearWidth(c.year)) + ("-" + (Fixed(c.month, 2) + ("-" + (Fixed(c.day, 2) + "T"))))
  }

  /** RFC 3339 with nanoseconds, in UTC. */
  function Format(i: Instant): string {
    DateText(CivilAt(i.second)) + (TimeText(CivilAt(i.second)) + Tail(i.nano))
  }

  function Width(i: Instant): nat {
    YearWidth(CivilAt(i.second).year)
  }

  // ----- reading a text back ---------------------------------------------------------------------

  /** The number that these digits write. */
  function Number(s: string): nat {
    if s == [] then 0
    else 10 * Number(s[..|s| - 1]) + if '0' <= s[|s| - 1] <= '9' then s[|s| - 1] as int - '0' as int else 0
  }

  lemma {:induction false} FixedReads(x: nat, w: nat)
    requires x < Power(w)
    ensures Number(Fixed(x, w)) == x
    decreases w
  {
    if w > 0 {
      FixedReads(x / 10, w - 1);
      assert Fixed(x, w)[..w - 1] == Fixed(x / 10, w - 1);
    }
  }

  lemma {:induction false} TrimmedReads(x: nat, w: nat)
    requires x < Power(w)
    ensures |Trimmed(x, w)| <= w && Number(Trimmed(x, w)) * Power(w - |Trimmed(x, w)|) == x
    ensures Trimmed(x, w) == [] <==> x == 0
    decreases w
  {
    if w > 0 {
      if x % 10 == 0 {
        TrimmedReads(x / 10, w - 1);
        var t := Trimmed(x / 10, w - 1);
        TenTimes(Number(t), Power(w - 1 - |t|));
      } else {
        FixedReads(x, w);
      }
    }
  }

  lemma TenTimes(n: nat, p: nat)
    ensures n * (10 * p) == 10 * (n * p)
  {
  }

  /** Three fields with separators between them, and what follows. */
  lemma Pieces(a: string, x: char, b: string, y: char, d: string, z: string)
    ensures var t := a + ([x] + (b + ([y] + (d + z))));
      && |t| == |a| + |b| + |d| + |z| + 2 && t[|a|] == x && t[|a| + |b| + 1] == y
      && t[..|a|] == a && t[|a| + 1..|a| + |b| + 1] == b && t[|a| + |b| + 2..|a| + |b| + |d| + 2] == d
      && t[|a| + |b| + |d| + 2..] == z
  {
  }

  lemma DateReads(c: Civil)
    requires ValidCivil(c)
    ensures var t, w := DateText(c), YearWidth(c.year);
      && |t| == w + 7 && t[w] == '-' && t[w + 3] == '-' && t[w + 6] == 'T'
      && Number(t[..w]) == c.year && Number(t[w + 1..w + 3]) == c.month && Number(t[w + 4..w + 6]) == c.day
  {
    NanosecondsFit();
    FixedReads(c.year, YearWidth(c.year));
    FixedReads(c.month, 2);
    FixedReads(c.day, 2);
    hide Fixed, Power, YearWidth, Number, MonthLength;
    Pieces(Fixed(c.year, YearWidth(c.year)), '-', Fixed(c.month, 2), '-', Fixed(c.day, 2), "T");
    assert DateText(c)[YearWidth(c.year) + 6..] == "T" && DateText(c)[YearWidth(c.year) + 6] == "T"[0];
  }

  lemma TimeReads(c: Civil)
    requires ValidCivil(c)
    ensures var t := TimeText(c);
      && |t| == 8 && t[2] == ':' && t[5] == ':'
      && Number(t[..2]) == c.hour && Number(t[3..5]) == c.minute && Number(t[6..8]) == c.second
  {
    NanosecondsFit();
    FixedReads(c.hour, 2);
    FixedReads(c.minute, 2);
    FixedReads(c.second, 2);
    hide Fixed, Power, Number, MonthLength;
    Pieces(Fixed(c.hour, 2), ':', Fixed(c.minute, 2), ':', Fixed(c.second, 2), "");
    assert Fixed(c.second, 2) + "" == Fixed(c.second, 2);
  }

  lemma TextParts(date: string, time: string, tail: string)
    ensures var t := date + (time + tail);
      && |t| == |date| + |time| + |tail| && t[..|date|] == date && t[|date|..|date| + |time|] == time
      && t[|date| + |time|..] == tail
  {
  }

  lemma PartOfPart(t: string, a: nat, b: nat, p: string)
    requires a <= b <= |t| && t[a..b] == p
    ensures forall i, j :: 0 <= i <= j <= |p| ==> t[a + i..a + j] == p[i..j]
    ensures forall i :: 0 <= i < |p| ==> t[a + i] == p[i]
  {
    forall i, j | 0 <= i <= j <= |p| ensures t[a + i..a + j] == p[i..j] { SliceOfSlice(t, a, b, i, j); }
  }

  lemma SliceOfSlice(t: string, a: nat, b: nat, i: nat, j: nat)
    requires a <= b <= |t| && i <= j <= b - a
    ensures t[a + i..a + j] == t[a..b][i..j]
  {
    var p, q := t[a + i..a + j], t[a..b][i..j];
    forall k | 0 <= k < j - i ensures p[k] == q[k] { assert q[k] == t[a..b][i + k]; }
    assert p == q;
  }

  /** The fields of a text whose year takes the first `w` characters. */
  function ReadCivil(t: string, w: nat): Civil
    requires |t| >= w + 15
  {
    Civil(Number(t[..w]), Number(t[w + 1..w + 3]), Number(t[w + 4..w + 6]),
          Number(t[w + 7..w + 9]), Number(t[w + 10..w + 12]), Number(t[w + 13..w + 15]))
  }

  /** Every text reads back as the instant it was made from: its fields are the valid date and time of day of the second,
      and what follows them is the fraction, without a trailing zero, or nothing, before the final Z. */
  lemma FormatReadsBack(i: Instant)
    ensures var t, w := Format(i), Width(i);
      && |t| >= w + 16 && ValidCivil(ReadCivil(t, w)) && SecondOf(ReadCivil(t, w)) == i.second
      && t[w] == '-' && t[w + 3] == '-' && t[w + 6] == 'T' && t[w + 9] == ':' && t[w + 12] == ':' && t[|t| - 1] == 'Z'
      && (i.nano == 0 ==> |t| == w + 16)
      && (i.nano != 0 ==> w + 17 < |t| <= w + 26 && t[w + 15] == '.')
      && (i.nano != 0 ==> Number(t[w + 16..|t| - 1]) * Power(w + 26 - |t|) == i.nano)
  {
    var c, t, w := CivilAt(i.second), Format(i), Width(i);
    CivilAtDenotes(i.second);
    FieldsRead(i);
    TailReads(i.nano);
    var tail := Tail(i.nano);
    TailEnds(t, w + 15, tail);
    hide *;
    assert ReadCivil(t, w) == c;
  }

  lemma TailEnds(t: string, a: nat, tail: string)
    requires a + |tail| == |t| && t[a..] == tail && tail != []
    ensures t[|t| - 1] == tail[|tail| - 1] && t[a] == tail[0]
    ensures |tail| >= 2 ==> t[a + 1..|t| - 1] == tail[1..|tail| - 1]
  {
    assert t[a..|t|] == tail;
    if |tail| >= 2 { SliceOfSlice(t, a, |t|, 1, |tail| - 1); }
  }

  lemma FieldsRead(i: Instant)
    requires ValidCivil(CivilAt(i.second))
    ensures var t, w := Format(i), Width(i);
      && |t| == w + 15 + |Tail(i.nano)| && ReadCivil(t, w) == CivilAt(i.second) && t[w + 15..] == Tail(i.nano)
      && t[w] == '-' && t[w + 3] == '-' && t[w + 6] == 'T' && t[w + 9] == ':' && t[w + 12] == ':'
  {
    var c, w := CivilAt(i.second), Width(i);
    DateReads(c);
    TimeReads(c);
    hide CivilAt, DateText, TimeText, Tail, Number, ValidCivil, YearWidth;
    TextParts(DateText(c), TimeText(c), Tail(i.nano));
    PartOfPart(Format(i), 0, w + 7, DateText(c));
    PartOfPart(Format(i), w + 7, w + 15, TimeText(c));
    assert Format(i)[w + 7 + 0..w + 7 + 2] == TimeText(c)[0..2] && Format(i)[w + 7 + 3..w + 7 + 5] == TimeText(c)[3..5];
    assert Format(i)[w + 7 + 6..w + 7 + 8] == TimeText(c)[6..8];
    assert Format(i)[0 + 0..0 + w] == DateText(c)[0..w] && Format(i)[0 + (w + 1)..0 + (w + 3)] == DateText(c)[w + 1..w + 3];
    assert Format(i)[0 + (w + 4)..0 + (w + 6)] == DateText(c)[w + 4..w + 6];
    assert Format(i)[w + 7 + 2] == TimeText(c)[2] && Format(i)[w + 7 + 5] == TimeText(c)[5];
  }

  lemma TailReads(nano: Nanos)
    ensures var t := Tail(nano);
      && |t| >= 1 && t[|t| - 1] == 'Z' && (nano == 0 ==> |t| == 1)
      && (nano != 0 ==> 2 < |t| <= 11 && t[0] == '.' && Number(t[1..|t| - 1]) * Power(11 - |t|) == nano)
  {
    NanosecondsFit();
    TrimmedReads(nano, 9);
    hide Trimmed, Number, Power;
    if nano != 0 { assert Tail(nano)[1..|Tail(nano)| - 1] == Trimmed(nano, 9); }
  }

  lemma TimeTextOrder(c: Civil, d: Civil, s: string, t: string)
    requires ValidCivil(c) && ValidCivil(d)
    ensures TextLess(TimeText(c) + s, TimeText(d) + t) <==>
      TimeLess(c, d) || (c.hour == d.hour && c.minute == d.minute && c.second == d.second && TextLess(s, t))
  {
    NanosecondsFit();
    hide Fixed, Power, MonthLength;
    var u, v := Fixed(c.second, 2) + s, Fixed(d.second, 2) + t;
    FieldOrder(c.second, d.second, 2, s, t);
    SeparatedOrder(c.minute, d.minute, 2, ':', u, v);
    SeparatedOrder(c.hour, d.hour, 2, ':', Fixed(c.minute, 2) + ([':'] + u), Fixed(d.minute, 2) + ([':'] + v));
    assert TimeText(c) + s == Fixed(c.hour, 2) + ([':'] + (Fixed(c.minute, 2) + ([':'] + u)));
    assert TimeText(d) + t == Fixed(d.hour, 2) + ([':'] + (Fixed(d.minute, 2) + ([':'] + v)));
  }

  lemma DateTextOrder(c: Civil, d: Civil, s: string, t: string)
    requires ValidCivil(c) && ValidCivil(d) && YearWidth(c.year) == YearWidth(d.year)
    ensures TextLess(DateText(c) + s, DateText(d) + t) <==> DateLess(c, d) || (SameDate(c, d) && TextLess(s, t))
  {
    NanosecondsFit();
    var w := YearWidth(c.year);
    hide Fixed, Power, YearWidth;
    SeparatedOrder(c.day, d.day, 2, 'T', s, t);
    var u, v := Fixed(c.day, 2) + (['T'] + s), Fixed(d.day, 2) + (['T'] + t);
    SeparatedOrder(c.month, d.month, 2, '-', u, v);
    SeparatedOrder(c.year, d.year, w, '-', Fixed(c.month, 2) + (['-'] + u), Fixed(d.month, 2) + (['-'] + v));
    assert DateText(c) + s == Fixed(c.year, w) + (['-'] + (Fixed(c.month, 2) + (['-'] + u)));
    assert DateText(d) + t == Fixed(d.year, w) + (['-'] + (Fixed(d.month, 2) + (['-'] + v)));
  }

  lemma FormatOrder(a: Instant, b: Instant)
    requires Width(a) == Width(b)
    ensures TextLess(Format(a), Format(b)) <==> a.second < b.second || (a.second == b.second && TextLess(Tail(a.nano), Tail(b.nano)))
  {
    var c, d := CivilAt(a.second), CivilAt(b.second);
    CivilAtDenotes(a.second);
    CivilAtDenotes(b.second);
    hide CivilAt;
    DateTextOrder(c, d, TimeText(c) + Tail(a.nano), TimeText(d) + Tail(b.nano));
    TimeTextOrder(c, d, Tail(a.nano), Tail(b.nano));
    FieldsOrder(c, d);
  }

  /** Within one second, the digits of one fraction are a proper prefix of the other's. */
  predicate Inverted(a: Instant, b: Instant) {
    a.second == b.second && (Trimmed(a.nano, 9) < Trimmed(b.nano, 9) || Trimmed(b.nano, 9) < Trimmed(a.nano, 9))
  }

  /** For years of equal width, text order is time order exactly for the pairs that are not inverted; an inverted pair
      sorts the wrong way round. */
  lemma TextOrderIsTimeOrder(a: Instant, b: Instant)
    requires Width(a) == Width(b) && a != b
    ensures (TextLess(Format(a), Format(b)) <==> Before(a, b)) <==> !Inverted(a, b)
    ensures Inverted(a, b) ==> (TextLess(Format(b), Format(a)) <==> Before(a, b))
    ensures Format(a) != Format(b)
  {
    FormatOrder(a, b);
    FormatOrder(b, a);
    if a.second == b.second {
      if a.nano < b.nano { TailOrder(a.nano, b.nano); } else { TailOrder(b.nano, a.nano); }
    }
    TextLessIsIrreflexive(Format(a));
  }

  /** In every second, the whole second sorts after its first tenth. */
  lemma WholeSecondSortsLate(second: nat)
    ensures var whole, tenth := Instant(second, 0), Instant(second, 100_000_000);
      Before(whole, tenth) && Inverted(whole, tenth) && TextLess(Format(tenth), Format(whole))
  {
    var whole, tenth := Instant(second, 0), Instant(second, 100_000_000);
    ZeroFraction(9);
    TenthFraction();
    TextOrderIsTimeOrder(whole, tenth);
  }

  lemma {:induction false} ZeroFraction(w: nat)
    ensures Trimmed(0, w) == []
  {
    if w > 0 { ZeroFraction(w - 1); }
  }

  lemma TenthFraction()
    ensures Trimmed(100_000_000, 9) == "1"
  {
    assert Trimmed(100_000_000, 9) == Trimmed(10_000_000, 8) == Trimmed(1_000_000, 7) == Trimmed(100_000, 6);
    assert Trimmed(100_000, 6) == Trimmed(10_000, 5) == Trimmed(1000, 4) == Trimmed(100, 3) == Trimmed(10, 2) == Trimmed(1, 1);
    assert Trimmed(1, 1) == Fixed(1, 1) == Fixed(0, 0) + [DigitOf(1)];
  }
}
