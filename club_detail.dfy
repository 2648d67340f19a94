/**
 * The event lists of the club page (src/pages/ClubDetailPage.tsx): today's
 * date as a `Y-MM-DD` string, the split of the club's events into upcoming
 * and past by comparing the first ten characters of each event's date with
 * it, and the sorts of the two lists by date. The clock is a parameter: the
 * caller supplies the local year, month index (0 for January) and day of the
 * month that `Date` reports.
 */
module ClubDetail {
  import opened Text

  // ---------------------------------------------------------------- decimal digits

  predicate IsDigit(c: char) {
    '0' <= c <= '9'
  }

  predicate AllDigits(s: string) {
    forall i :: 0 <= i < |s| ==> IsDigit(s[i])
  }

  function DigitChar(d: nat): (c: char)
    requires d < 10
    ensures IsDigit(c)
  {
    ('0' as int + d) as char
  }

  function DigitValue(c: char): (d: nat)
    requires IsDigit(c)
    ensures d < 10
  {
    c as int - '0' as int
  }

  function Pow10(k: nat): (p: nat)
    ensures p >= 1
  {
    if k == 0 then 1 else 10 * Pow10(k - 1)
  }

  /** The number a string of decimal digits denotes, most significant digit first. */
  function Value(s: string): nat
    requires AllDigits(s)
  {
    if s == [] then 0 else DigitValue(s[0]) * Pow10(|s| - 1) + Value(s[1..])
  }

  /** `String(n)` for a non-negative integer: its decimal digits, without leading zeros. */
  function DecimalString(n: nat): (r: string)
    ensures r != [] && AllDigits(r)
    ensures |r| > 1 ==> r[0] != '0'
  {
    if n < 10 then [DigitChar(n)] else DecimalString(n / 10) + [DigitChar(n % 10)]
  }

  /** `s.padStart(width, fill)` for a one-character `fill`. */
  function PadStart(s: string, width: nat, fill: char): (r: string)
    ensures |r| == if |s| >= width then |s| else width
    ensures r[|r| - |s|..] == s
    ensures forall i :: 0 <= i < |r| - |s| ==> r[i] == fill
  {
    if |s| >= width then s else seq(width - |s|, _ => fill) + s
  }

  /** `String(n).padStart(2, '0')`. */
  function TwoDigits(n: nat): string {
    PadStart(DecimalString(n), 2, '0')
  }

  /** `getTodayDateString`: `${y}-${m}-${d}` with month and day padded to two digits. */
  function TodayDateString(year: nat, monthIndex: nat, day: nat): string {
    DecimalString(year) + "-" + TwoDigits(monthIndex + 1) + "-" + TwoDigits(day)
  }

  lemma ValueBound(s: string)
    requires AllDigits(s)
    ensures Value(s) < Pow10(|s|)
    decreases |s|
  {
    if s != [] {
      ValueBound(s[1..]);
      DigitBelow(DigitValue(s[0]), Value(s[1..]), Pow10(|s| - 1));
    }
  }

  /** `d * p + x < 10 * p` for a digit `d` and `x < p`. */
  lemma DigitBelow(d: nat, x: nat, p: nat)
    requires d < 10 && x < p
    ensures d * p + x < 10 * p
  {
    assert d * p + x < d * p + p == (d + 1) * p;
    assert (d + 1) * p <= 10 * p;
  }

  /** Appending a digit multiplies the value by ten and adds the digit. */
  lemma {:induction false} ValueAppend(s: string, c: char)
    requires AllDigits(s) && IsDigit(c)
    ensures AllDigits(s + [c]) && Value(s + [c]) == 10 * Value(s) + DigitValue(c)
  {
    if s != [] {
      ValueAppend(s[1..], c);
      assert (s + [c])[1..] == s[1..] + [c];
      ShiftDigit(DigitValue(s[0]), Pow10(|s| - 1), Value(s[1..]), DigitValue(c));
    }
  }

  lemma ShiftDigit(d: nat, p: nat, v: nat, c: nat)
    ensures d * (10 * p) + (10 * v + c) == 10 * (d * p + v) + c
  {
  }

  /** A leading zero does not change the value. */
  lemma LeadingZero(s: string)
    requires AllDigits(s)
    ensures AllDigits("0" + s) && Value("0" + s) == Value(s)
  {
    assert ("0" + s)[1..] == s;
  }

  /** Round trip: the digits `String(n)` produces denote `n`. */
  lemma {:induction false} DecimalRoundTrip(n: nat)
    ensures Value(DecimalString(n)) == n
  {
    if n >= 10 {
      DecimalRoundTrip(n / 10);
      ValueAppend(DecimalString(n / 10), DigitChar(n % 10));
    }
  }

  lemma DecimalInjective(m: nat, n: nat)
    ensures DecimalString(m) == DecimalString(n) <==> m == n
  {
    DecimalRoundTrip(m);
    DecimalRoundTrip(n);
  }

  /** Four-digit years print as four characters. */
  lemma FourDigitYear(y: nat)
    requires 1000 <= y < 10000
    ensures |DecimalString(y)| == 4
  {
    assert |DecimalString(y / 1000)| == 1;
    assert |DecimalString(y / 100)| == 2;
    assert |DecimalString(y / 10)| == 3;
  }

  /** Below 100, the padded form is two digits denoting the number. */
  lemma TwoDigitsValue(n: nat)
    requires n < 100
    ensures |TwoDigits(n)| == 2 && AllDigits(TwoDigits(n)) && Value(TwoDigits(n)) == n
  {
    DecimalRoundTrip(n);
    if n < 10 {
      assert TwoDigits(n) == "0" + DecimalString(n);
      LeadingZero(DecimalString(n));
    } else {
      assert |DecimalString(n / 10)| == 1;
    }
  }

  /** Where the pieces of `y-m-d` sit, for any strings with two-character `m` and `d`. */
  lemma DashedSlices(y: string, m: string, d: string)
    requires |m| == 2 && |d| == 2
    ensures var r, k := y + "-" + m + "-" + d, |y|;
      && |r| == k + 6 && r[k] == '-' && r[k + 3] == '-'
      && r[..k] == y && r[k + 1..k + 3] == m && r[k + 4..] == d
  {
  }

  /**
   * The shape of the date string: the year's digits, `-`, two month digits
   * denoting `monthIndex + 1`, `-`, two day digits denoting `day`.
   */
  lemma TodayShape(year: nat, monthIndex: nat, day: nat)
    requires monthIndex < 12 && 1 <= day <= 31
    ensures var r, k := TodayDateString(year, monthIndex, day), |DecimalString(year)|;
      && |r| == k + 6 && r[k] == '-' && r[k + 3] == '-'
      && r[..k] == DecimalString(year) && Value(r[..k]) == year
      && AllDigits(r[k + 1..k + 3]) && Value(r[k + 1..k + 3]) == monthIndex + 1
      && AllDigits(r[k + 4..]) && Value(r[k + 4..]) == day
  {
    TwoDigitsValue(monthIndex + 1);
    TwoDigitsValue(day);
    DecimalRoundTrip(year);
    DashedSlices(DecimalString(year), TwoDigits(monthIndex + 1), TwoDigits(day));
  }

  // ---------------------------------------------------------------- string order is date order

  /** On digit strings of one length, ordinal order is numeric order. */
  lemma {:induction false} DigitOrder(s: string, t: string)
    requires AllDigits(s) && AllDigits(t) && |s| == |t|
    ensures StrLe(s, t) <==> Value(s) <= Value(t)
  {
    if s != [] {
      var p := Pow10(|s| - 1);
      ValueBound(s[1..]);
      ValueBound(t[1..]);
      if s[0] < t[0] {
        HeadDominates(DigitValue(s[0]), DigitValue(t[0]), Value(s[1..]), Value(t[1..]), p);
      } else if t[0] < s[0] {
        HeadDominates(DigitValue(t[0]), DigitValue(s[0]), Value(t[1..]), Value(s[1..]), p);
      } else {
        DigitOrder(s[1..], t[1..]);
      }
    }
  }

  /** A smaller leading digit outweighs whatever follows it. */
  lemma HeadDominates(a: nat, b: nat, x: nat, y: nat, p: nat)
    requires a < b && x < p
    ensures a * p + x < b * p + y
  {
    assert a * p + x < (a + 1) * p;
    assert (a + 1) * p <= b * p;
  }

  /** Comparing two concatenations whose first parts have one length compares the first parts, then the rest. */
  lemma {:induction false} StrLeConcat(a: string, b: string, c: string, d: string)
    requires |a| == |c|
    ensures StrLe(a + b, c + d) <==> (a != c && StrLe(a, c)) || (a == c && StrLe(b, d))
  {
    if a != [] {
      assert (a + b)[1..] == a[1..] + b && (c + d)[1..] == c[1..] + d;
      StrLeConcat(a[1..], b, c[1..], d);
      if a[0] == c[0] {
        assert a != c <==> a[1..] != c[1..] by {
          if a[1..] == c[1..] {
            assert a == [a[0]] + a[1..] && c == [c[0]] + c[1..];
          }
        }
      }
    } else {
      assert a + b == b && c + d == d;
    }
  }

  /** Padded numbers below 100 compare as strings as they compare as numbers. */
  lemma TwoDigitsOrder(a: nat, b: nat)
    requires a < 100 && b < 100
    ensures StrLe(TwoDigits(a), TwoDigits(b)) <==> a <= b
    ensures TwoDigits(a) == TwoDigits(b) <==> a == b
  {
    TwoDigitsValue(a);
    TwoDigitsValue(b);
    DigitOrder(TwoDigits(a), TwoDigits(b));
  }

  /** `-m-d` with two-character `m` and `d`, regrouped for comparison. */
  lemma DashedRegroup(y: string, m: string, d: string)
    ensures y + "-" + m + "-" + d == y + ("-" + (m + ("-" + d)))
  {
  }

  /** `-m-d` strings compare by `m`, then by `d`. */
  lemma DashedOrder(m1: string, d1: string, m2: string, d2: string)
    requires |m1| == |m2|
    ensures StrLe("-" + (m1 + ("-" + d1)), "-" + (m2 + ("-" + d2))) <==>
      (m1 != m2 && StrLe(m1, m2)) || (m1 == m2 && StrLe(d1, d2))
  {
    StrLeConcat("-", m1 + ("-" + d1), "-", m2 + ("-" + d2));
    StrLeConcat(m1, "-" + d1, m2, "-" + d2);
    StrLeConcat("-", d1, "-", d2);
  }

  /** The month-and-day tail of two date strings orders them by month, then day. */
  lemma MonthDayOrder(m1: nat, d1: nat, m2: nat, d2: nat)
    requires m1 < 12 && d1 < 100 && m2 < 12 && d2 < 100
    ensures var t1, t2 := "-" + (TwoDigits(m1 + 1) + ("-" + TwoDigits(d1))), "-" + (TwoDigits(m2 + 1) + ("-" + TwoDigits(d2)));
      StrLe(t1, t2) <==> m1 < m2 || (m1 == m2 && d1 <= d2)
  {
    TwoDigitsValue(m1 + 1);
    TwoDigitsValue(m2 + 1);
    TwoDigitsOrder(m1 + 1, m2 + 1);
    TwoDigitsOrder(d1, d2);
    DashedOrder(TwoDigits(m1 + 1), TwoDigits(d1), TwoDigits(m2 + 1), TwoDigits(d2));
  }

  /** Four-digit years compare as strings as they compare as numbers. */
  lemma YearOrder(y1: nat, y2: nat)
    requires 1000 <= y1 < 10000 && 1000 <= y2 < 10000
    ensures |DecimalString(y1)| == |DecimalString(y2)|
    ensures (DecimalString(y1) != DecimalString(y2) && StrLe(DecimalString(y1), DecimalString(y2))) <==> y1 < y2
    ensures DecimalString(y1) == DecimalString(y2) <==> y1 == y2
  {
    FourDigitYear(y1);
    FourDigitYear(y2);
    DecimalRoundTrip(y1);
    DecimalRoundTrip(y2);
    DecimalInjective(y1, y2);
    DigitOrder(DecimalString(y1), DecimalString(y2));
  }

  /**
   * Ordinal comparison of two date strings of four-digit years is
   * chronological comparison: this is what lets the page compare dates as
   * strings.
   */
  lemma DateOrder(y1: nat, m1: nat, d1: nat, y2: nat, m2: nat, d2: nat)
    requires 1000 <= y1 < 10000 && m1 < 12 && 1 <= d1 <= 31
    requires 1000 <= y2 < 10000 && m2 < 12 && 1 <= d2 <= 31
    ensures StrLe(TodayDateString(y1, m1, d1), TodayDateString(y2, m2, d2)) <==>
      y1 < y2 || (y1 == y2 && (m1 < m2 || (m1 == m2 && d1 <= d2)))
  {
    var ya, yb := DecimalString(y1), DecimalString(y2);
    var t1 := "-" + (TwoDigits(m1 + 1) + ("-" + TwoDigits(d1)));
    var t2 := "-" + (TwoDigits(m2 + 1) + ("-" + TwoDigits(d2)));
    DashedRegroup(ya, TwoDigits(m1 + 1), TwoDigits(d1));
    DashedRegroup(yb, TwoDigits(m2 + 1), TwoDigits(d2));
    YearOrder(y1, y2);
    StrLeConcat(ya, t1, yb, t2);
    MonthDayOrder(m1, d1, m2, d2);
  }

  // ---------------------------------------------------------------- upcoming and past

  /** The fields of an event the lists look at; `date` is an ISO date-time string. */
  datatype Event = Event(id: string, title: string, date: string)

  /** `e.date.substring(0, 10) >= todayStr`. */
  predicate IsUpcoming(e: Event, today: string) {
    StrLe(today, Take(e.date, 10))
  }

  /** `e.date.substring(0, 10) < todayStr`. */
  predicate IsPast(e: Event, today: string) {
    StrLt(Take(e.date, 10), today)
  }

  /** Every event is upcoming or past, and never both. */
  lemma ExactlyOneList(e: Event, today: string)
    ensures IsUpcoming(e, today) <==> !IsPast(e, today)
  {
    StrLtIffNotLe(Take(e.date, 10), today);
  }

  /** The comparator's order: by date, ascending or (when `desc`) descending. */
  predicate Before(a: Event, b: Event, desc: bool) {
    if desc then StrLe(b.date, a.date) else StrLe(a.date, b.date)
  }

  /** The comparator reports `a` strictly first. */
  predicate Less(a: Event, b: Event, desc: bool) {
    if desc then StrLt(b.date, a.date) else StrLt(a.date, b.date)
  }

  predicate SortedBy(s: seq<Event>, desc: bool) {
    forall i, j :: 0 <= i < j < |s| ==> Before(s[i], s[j], desc)
  }

  /** `x` placed after every element it is not strictly before, as a stable sort places it. */
  function Insert(x: Event, s: seq<Event>, desc: bool): (r: seq<Event>)
    requires SortedBy(s, desc)
    ensures SortedBy(r, desc)
    ensures multiset(r) == multiset(s) + multiset{x}
  {
    if s == [] then [x]
    else if Less(x, s[0], desc) then
      InsertFront(x, s, desc);
      [x] + s
    else
      SortedTail(s, desc);
      var rest := Insert(x, s[1..], desc);
      InsertAfterHead(x, s, rest, desc);
      [s[0]] + rest
  }

  lemma SortedTail(s: seq<Event>, desc: bool)
    requires SortedBy(s, desc) && s != []
    ensures SortedBy(s[1..], desc) && multiset(s) == multiset{s[0]} + multiset(s[1..])
  {
    forall i, j | 0 <= i < j < |s| - 1 ensures Before(s[1..][i], s[1..][j], desc) {
      assert s[1..][i] == s[i + 1] && s[1..][j] == s[j + 1];
    }
    assert s == [s[0]] + s[1..];
  }

  lemma InsertFront(x: Event, s: seq<Event>, desc: bool)
    requires SortedBy(s, desc) && s != [] && Less(x, s[0], desc)
    ensures SortedBy([x] + s, desc)
  {
    StrLeTotal(x.date, s[0].date);
    if desc { StrLtIffNotLe(s[0].date, x.date); } else { StrLtIffNotLe(x.date, s[0].date); }
    assert Before(x, s[0], desc);
    forall j | 0 < j < |s| ensures Before(x, s[j], desc) {
      assert Before(s[0], s[j], desc);
      if desc {
        StrLeTrans(s[j].date, s[0].date, x.date);
      } else {
        StrLeTrans(x.date, s[0].date, s[j].date);
      }
    }
    var r := [x] + s;
    forall i, j | 0 <= i < j < |r| ensures Before(r[i], r[j], desc) {
      if i > 0 {
        assert r[i] == s[i - 1] && r[j] == s[j - 1];
      }
    }
  }

  lemma InsertAfterHead(x: Event, s: seq<Event>, rest: seq<Event>, desc: bool)
    requires SortedBy(s, desc) && s != [] && !Less(x, s[0], desc)
    requires SortedBy(rest, desc) && multiset(rest) == multiset(s[1..]) + multiset{x}
    ensures SortedBy([s[0]] + rest, desc)
  {
    StrLeTotal(x.date, s[0].date);
    if desc { StrLtIffNotLe(s[0].date, x.date); } else { StrLtIffNotLe(x.date, s[0].date); }
    assert Before(s[0], x, desc);
    forall y | y in rest ensures Before(s[0], y, desc) {
      assert y in multiset(rest);
      if y != x {
        assert y in multiset(s[1..]);
        var k :| 0 <= k < |s[1..]| && s[1..][k] == y;
        assert s[k + 1] == y;
      }
    }
    var r := [s[0]] + rest;
    forall i, j | 0 <= i < j < |r| ensures Before(r[i], r[j], desc) {
      if i == 0 {
        assert r[j] in rest;
      } else {
        assert r[i] == rest[i - 1] && r[j] == rest[j - 1];
      }
    }
  }

  /** `.sort(comparator)` on a fresh array: insertion of each element in turn, stable. */
  function SortByDate(s: seq<Event>, desc: bool): (r: seq<Event>)
    ensures SortedBy(r, desc)
    ensures multiset(r) == multiset(s)
  {
    if s == [] then []
    else
      assert s == s[..|s| - 1] + [s[|s| - 1]];
      Insert(s[|s| - 1], SortByDate(s[..|s| - 1], desc), desc)
  }

  /** `upcomingEvents`: the upcoming events, earliest first. */
  function UpcomingEvents(events: seq<Event>, today: string): (r: seq<Event>)
    ensures SortedBy(r, false)
    ensures forall e :: multiset(r)[e] == if IsUpcoming(e, today) then multiset(events)[e] else 0
  {
    var kept := Filter(events, e => IsUpcoming(e, today));
    forall e ensures multiset(kept)[e] == if IsUpcoming(e, today) then multiset(events)[e] else 0 {
      FilterCounts(events, e => IsUpcoming(e, today), e);
    }
    SortByDate(kept, false)
  }

  /** `pastEvents`: the past events, latest first. */
  function PastEvents(events: seq<Event>, today: string): (r: seq<Event>)
    ensures SortedBy(r, true)
    ensures forall e :: multiset(r)[e] == if IsPast(e, today) then multiset(events)[e] else 0
  {
    var kept := Filter(events, e => IsPast(e, today));
    forall e ensures multiset(kept)[e] == if IsPast(e, today) then multiset(events)[e] else 0 {
      FilterCounts(events, e => IsPast(e, today), e);
    }
    SortByDate(kept, true)
  }

  /** Together the two lists hold every event exactly once, so their lengths add up. */
  lemma ListsPartitionEvents(events: seq<Event>, today: string)
    ensures multiset(UpcomingEvents(events, today)) + multiset(PastEvents(events, today)) == multiset(events)
    ensures |UpcomingEvents(events, today)| + |PastEvents(events, today)| == |events|
  {
    var u, p := UpcomingEvents(events, today), PastEvents(events, today);
    forall e ensures (multiset(u) + multiset(p))[e] == multiset(events)[e] {
      ExactlyOneList(e, today);
    }
    assert multiset(u) + multiset(p) == multiset(events);
    assert |multiset(u) + multiset(p)| == |u| + |p|;
  }
}
