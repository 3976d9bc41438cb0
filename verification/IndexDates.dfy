/**
 The order of the printed index in calendar terms: rows are sorted by the text
 of their date cell, which the program prints as an ISO 8601 calendar date
 (src/output/decision_md.py:95, 202-210).
 */
module IndexDates {
  import opened Characters
  import opened DecisionIndex

  // ----- code-point order without recursion

  /** The first difference is at `k`, and there `a` is smaller. */
  predicate SmallerAt(a: string, b: string, k: int) {
    0 <= k < |a| && k < |b| && a[..k] == b[..k] && a[k] < b[k]
  }

  /** A first part of the other, or smaller where the two first differ. */
  ghost predicate Before(a: string, b: string) {
    a <= b || exists k :: SmallerAt(a, b, k)
  }

  lemma PrefixCons(c: char, a: string, b: string)
    ensures [c] + a <= [c] + b <==> a <= b
  {
    var x, y := [c] + a, [c] + b;
    assert x[1..] == a && y[1..] == b;
    if a <= b {
      assert y == [c] + a + b[|a|..];
    }
    if x <= y {
      assert y[..|x|] == x;
      assert b[..|a|] == y[1..|x|] == a;
    }
  }

  lemma SmallerUp(c: char, a: string, b: string, k: int)
    requires SmallerAt(a, b, k)
    ensures SmallerAt([c] + a, [c] + b, k + 1)
  {
    assert ([c] + a)[..k + 1] == [c] + a[..k] && ([c] + b)[..k + 1] == [c] + b[..k];
  }

  lemma SmallerDown(c: char, a: string, b: string, k: int)
    requires SmallerAt([c] + a, [c] + b, k)
    ensures SmallerAt(a, b, k - 1)
  {
    assert k > 0;
    assert a[..k - 1] == ([c] + a)[..k][1..] && b[..k - 1] == ([c] + b)[..k][1..];
  }

  /** A common first character does not matter. */
  lemma BeforeCons(c: char, a: string, b: string)
    ensures Before([c] + a, [c] + b) <==> Before(a, b)
  {
    hide SmallerAt;
    PrefixCons(c, a, b);
    if k :| SmallerAt(a, b, k) {
      SmallerUp(c, a, b, k);
    }
    if k :| SmallerAt([c] + a, [c] + b, k) {
      SmallerDown(c, a, b, k);
    }
  }

  /** Different first characters, or an end, decide. */
  lemma BeforeHeads(a: string, b: string)
    requires a == "" || b == "" || a[0] != b[0]
    ensures Before(a, b) <==> a == "" || (b != "" && a[0] < b[0])
  {
    if a != "" && b != "" && a[0] < b[0] {
      assert SmallerAt(a, b, 0);
    }
  }

  lemma {:induction false} AtMostIff(a: string, b: string)
    ensures AtMost(a, b) <==> Before(a, b)
  {
    hide Before;
    if a != "" && b != "" && a[0] == b[0] {
      AtMostIff(a[1..], b[1..]);
      BeforeCons(a[0], a[1..], b[1..]);
      assert a == [a[0]] + a[1..] && b == [a[0]] + b[1..];
    } else {
      BeforeHeads(a, b);
    }
  }

  // ----- calendar dates

  datatype Day = Day(year: int, month: int, day: int)

  predicate Valid(d: Day) {
    1 <= d.year <= 9999 && 1 <= d.month <= 12 && 1 <= d.day <= 31
  }

  predicate NotLater(a: Day, b: Day) {
    || a.year < b.year
    || (a.year == b.year && (a.month < b.month || (a.month == b.month && a.day <= b.day)))
  }

  function Digit(n: int): char
    requires 0 <= n <= 9
  {
    '0' + n as char
  }

  function Two(n: int): string
    requires 0 <= n <= 99
  {
    [Digit(n / 10), Digit(n % 10)]
  }

  /** YYYY-MM-DD. */
  function Iso(d: Day): string
    requires Valid(d)
  {
    Two(d.year / 100) + Two(d.year % 100) + "-" + Two(d.month) + "-" + Two(d.day)
  }

  /** Texts of one length decide the order before what follows them. */
  lemma {:induction false} AtMostJoined(x: string, y: string, s: string, t: string)
    requires |x| == |y|
    ensures AtMost(x + s, y + t) <==> if x == y then AtMost(s, t) else AtMost(x, y)
  {
    if x == "" {
      assert x + s == s && y + t == t;
    } else {
      assert (x + s)[1..] == x[1..] + s && (y + t)[1..] == y[1..] + t;
      AtMostJoined(x[1..], y[1..], s, t);
      assert x == [x[0]] + x[1..] && y == [y[0]] + y[1..];
    }
  }

  lemma TwoOrder(m: int, n: int)
    requires 0 <= m <= 99 && 0 <= n <= 99
    ensures AtMost(Two(m), Two(n)) <==> m <= n
    ensures Two(m) == Two(n) <==> m == n
  {
    assert Two(m)[0] == Digit(m / 10) && Two(m)[1] == Digit(m % 10);
    assert Two(n)[0] == Digit(n / 10) && Two(n)[1] == Digit(n % 10);
    assert Two(m)[1..] == [Digit(m % 10)] && Two(n)[1..] == [Digit(n % 10)];
    OneOrder(Digit(m % 10), Digit(n % 10));
  }

  lemma OneOrder(a: char, b: char)
    ensures AtMost([a], [b]) <==> a <= b
  {
    assert [a][1..] == "" && [b][1..] == "";
  }

  lemma TwoThen(m: int, n: int, s: string, t: string)
    requires 0 <= m <= 99 && 0 <= n <= 99
    ensures AtMost(Two(m) + s, Two(n) + t) <==> m < n || (m == n && AtMost(s, t))
  {
    TwoOrder(m, n);
    AtMostJoined(Two(m), Two(n), s, t);
  }

  lemma DashThen(s: string, t: string)
    ensures AtMost("-" + s, "-" + t) <==> AtMost(s, t)
  {
    AtMostJoined("-", "-", s, t);
  }

  /** On printed dates the text order is the calendar's. */
  lemma IsoOrder(a: Day, b: Day)
    requires Valid(a) && Valid(b)
    ensures AtMost(Iso(a), Iso(b)) <==> NotLater(a, b)
  {
    hide AtMost, Two;
    var day, day' := "-" + Two(a.day), "-" + Two(b.day);
    var month, month' := "-" + (Two(a.month) + day), "-" + (Two(b.month) + day');
    var rest, rest' := Two(a.year % 100) + month, Two(b.year % 100) + month';
    assert Iso(a) == Two(a.year / 100) + rest && Iso(b) == Two(b.year / 100) + rest';
    TwoThen(a.year / 100, b.year / 100, rest, rest');
    TwoThen(a.year % 100, b.year % 100, month, month');
    DashThen(Two(a.month) + day, Two(b.month) + day');
    TwoThen(a.month, b.month, day, day');
    DashThen(Two(a.day), Two(b.day));
    TwoOrder(a.day, b.day);
  }

  // ----- the printed rows

  /** In any printed index no row is followed, at any distance, by one of a later date. */
  lemma PrintedNewestFirst(entries: seq<Entry>, i: nat, j: nat, a: Day, b: Day)
    requires i < j < |NewestFirst(entries)| && Valid(a) && Valid(b)
    requires RowDate(NewestFirst(entries)[i].row) == Iso(a) && RowDate(NewestFirst(entries)[j].row) == Iso(b)
    ensures NotLater(b, a)
  {
    hide AtMost, Iso, NewestFirst, RowDate, NotLater;
    NewestFirstDescending(entries);
    DescendingPairs(NewestFirst(entries), i, j);
    IsoOrder(b, a);
  }

  /** Nor in an index that has been read, updated and printed. */
  lemma UpdatedNewestFirst(text: string, e: Entry, i: nat, j: nat, a: Day, b: Day)
    requires Good(e) && Valid(a) && Valid(b) && i < j < |Parse(Updated(text, e))|
    requires RowDate(Parse(Updated(text, e))[i].row) == Iso(a) && RowDate(Parse(Updated(text, e))[j].row) == Iso(b)
    ensures NotLater(b, a)
  {
    hide AtMost, Iso, Parse, Updated, RowDate, NotLater, Good, Descending;
    UpdateFacts(text, e);
    DescendingPairs(Parse(Updated(text, e)), i, j);
    IsoOrder(b, a);
  }

  /** The rows the program writes carry such dates. */
  lemma WrittenDate(day: Day, middle: seq<string>, name: string)
    requires Valid(day) && PlainName(name) && |middle| == 7
    requires forall i :: 0 <= i < |middle| ==> OneLine(middle[i])
    ensures RowDate(IndexRow(Iso(day), middle, name)) == Iso(day)
  {
    hide RowDate, IndexRow, OneLine;
    IsoIsPlain(day);
    WrittenRowIsGood(Iso(day), middle, name);
  }

  lemma IsoIsPlain(day: Day)
    requires Valid(day)
    ensures PlainDate(Iso(day))
  {
    var iso := Iso(day);
    assert |iso| == 10 && iso[4] == '-';
    forall i | 0 <= i < |iso| ensures iso[i] == '-' || '0' <= iso[i] <= '9' {
    }
  }

  // ----- rows of one date

  function OnDate(entries: seq<Entry>, date: string): seq<Entry> {
    if entries == [] then []
    else
      var front, last := OnDate(entries[..|entries| - 1], date), entries[|entries| - 1];
      if RowDate(last.row) == date then front + [last] else front
  }

  lemma OnDateSnoc(entries: seq<Entry>, last: Entry, date: string)
    ensures OnDate(entries + [last], date) == OnDate(entries, date) + if RowDate(last.row) == date then [last] else []
  {
    hide RowDate;
    assert (entries + [last])[..|entries|] == entries;
  }

  lemma SameDateNotOlder(a: Entry, b: Entry)
    requires RowDate(a.row) == RowDate(b.row)
    ensures NotOlder(a, b)
  {
    hide RowDate;
    AtMostIff(RowDate(b.row), RowDate(a.row));
  }

  lemma {:induction false} InsertKeepsDates(sorted: seq<Entry>, e: Entry, date: string)
    ensures OnDate(InsertByDate(sorted, e), date) == OnDate(sorted, date) + if RowDate(e.row) == date then [e] else []
  {
    hide RowDate, NotOlder, OnDate, InsertByDate;
    InsertStep(sorted, e);
    if sorted == [] || NotOlder(sorted[|sorted| - 1], e) {
      OnDateSnoc(sorted, e, date);
    } else {
      var front, last := sorted[..|sorted| - 1], sorted[|sorted| - 1];
      assert sorted == front + [last];
      InsertKeepsDates(front, e, date);
      OnDateSnoc(InsertByDate(front, e), last, date);
      OnDateSnoc(front, last, date);
      if RowDate(last.row) == RowDate(e.row) {
        SameDateNotOlder(last, e);
      }
    }
  }

  /** Rows of one date keep the order of the dictionary. */
  lemma {:induction false} SameDateKeepsOrder(entries: seq<Entry>, date: string)
    ensures OnDate(NewestFirst(entries), date) == OnDate(entries, date)
  {
    hide RowDate, InsertByDate, OnDate;
    if entries != [] {
      var front, e := entries[..|entries| - 1], entries[|entries| - 1];
      assert entries == front + [e];
      SameDateKeepsOrder(front, date);
      InsertKeepsDates(NewestFirst(front), e, date);
      OnDateSnoc(front, e, date);
    }
  }
}
