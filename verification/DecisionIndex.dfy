/**
 The cumulative Markdown index of decisions: its rows, its printer, its parser,
 and the upsert of one decision (src/output/decision_md.py).
 */
module DecisionIndex {
  import opened Characters
  import opened Common

  const TITLE := "# Décisions EDE — index"
  const INDEX_HEADER := "| Date | Cible | Jur. | Ticker IBKR " + "| Entry € | Stop € | Score " + "| Premium | Fichier |"
  const INDEX_SEP := "|---|---|---|---|---:|---:|---:|---:|---|"
  const INDEX_MIN_CELLS := 9

  // ----- text

  predicate OneLine(s: string) {
    forall i :: 0 <= i < |s| ==> !IsLineBreak(s[i])
  }

  function FirstBreak(s: string): (k: nat)
    ensures k <= |s| && OneLine(s[..k]) && (k < |s| ==> IsLineBreak(s[k]))
  {
    if s == "" || IsLineBreak(s[0]) then 0 else 1 + FirstBreak(s[1..])
  }

  /** A carriage return and a line feed end one line, not two. */
  function BreakLength(s: string, k: nat): (n: nat)
    requires k < |s|
    ensures 1 <= n && k + n <= |s|
  {
    if s[k] == '\r' && k + 1 < |s| && s[k + 1] == '\n' then 2 else 1
  }

  function SplitLines(s: string): (lines: seq<string>)
    ensures forall i :: 0 <= i < |lines| ==> OneLine(lines[i])
    decreases |s|
  {
    if s == "" then []
    else
      var k := FirstBreak(s);
      if k == |s| then [s] else [s[..k]] + SplitLines(s[k + BreakLength(s, k)..])
  }

  /** The lines, each ended by a line feed. */
  function Document(lines: seq<string>): string {
    if lines == [] then "" else lines[0] + "\n" + Document(lines[1..])
  }

  function LeftStrip(s: string): string {
    if s != "" && IsSpace(s[0]) then LeftStrip(s[1..]) else s
  }

  function RightStrip(s: string): string {
    if s != "" && IsSpace(s[|s| - 1]) then RightStrip(s[..|s| - 1]) else s
  }

  function Strip(s: string): string {
    RightStrip(LeftStrip(s))
  }

  function LeftStripPipes(s: string): string {
    if s != "" && s[0] == '|' then LeftStripPipes(s[1..]) else s
  }

  function RightStripPipes(s: string): string {
    if s != "" && s[|s| - 1] == '|' then RightStripPipes(s[..|s| - 1]) else s
  }

  /** `s.split("|")`. */
  function SplitPipes(s: string): (parts: seq<string>)
    ensures parts != []
  {
    if s == "" then [""]
    else
      var parts, c := SplitPipes(s[..|s| - 1]), s[|s| - 1];
      if c == '|' then parts + [""] else parts[..|parts| - 1] + [parts[|parts| - 1] + [c]]
  }

  function RawCells(line: string): (cells: seq<string>)
    ensures cells != []
  {
    SplitPipes(RightStripPipes(LeftStripPipes(Strip(line))))
  }

  function FindClose(s: string, from: nat): (q: Option<nat>)
    ensures q.Some? ==> from <= q.value < |s|
    decreases |s| - from
  {
    if from >= |s| then None else if s[from] == ')' then Some(from) else FindClose(s, from + 1)
  }

  /** The leftmost nonempty text in parentheses. */
  function FindLink(s: string, from: nat): Option<string>
    decreases |s| - from
  {
    if from >= |s| then None
    else
      var close := if s[from] == '(' then FindClose(s, from + 1) else None;
      if close.Some? && close.value >= from + 2 then Some(s[from + 1..close.value]) else FindLink(s, from + 1)
  }

  // ----- rows

  /** The key of a data row: the file its last cell links to. None for any other line. */
  function RowKey(line: string): Option<string> {
    if line == "" || line[0] != '|' || line == INDEX_HEADER || line == INDEX_SEP then None
    else
      var cells := RawCells(line);
      if |cells| < INDEX_MIN_CELLS || Strip(cells[0]) == "Date" then None
      else
        var last := Strip(cells[|cells| - 1]);
        var link := FindLink(last, 0);
        Some(if link.Some? then link.value else last)
  }

  function RowDate(row: string): string {
    Strip(RawCells(row)[0])
  }

  /** A row under its file name; the sequence is the dictionary in insertion order. */
  datatype Entry = Entry(file: string, row: string)

  function Upsert(entries: seq<Entry>, e: Entry): seq<Entry> {
    if entries == [] then [e]
    else if entries[0].file == e.file then [e] + entries[1..]
    else [entries[0]] + Upsert(entries[1..], e)
  }

  function ParseLines(lines: seq<string>): seq<Entry> {
    if lines == [] then []
    else
      var earlier, line := ParseLines(lines[..|lines| - 1]), lines[|lines| - 1];
      if RowKey(line).Some? then Upsert(earlier, Entry(RowKey(line).value, line)) else earlier
  }

  function Parse(text: string): seq<Entry> {
    ParseLines(SplitLines(text))
  }

  /** Code-point order. */
  predicate AtMost(a: string, b: string) {
    a == "" || (b != "" && (a[0] < b[0] || (a[0] == b[0] && AtMost(a[1..], b[1..]))))
  }

  predicate NotOlder(a: Entry, b: Entry) {
    AtMost(RowDate(b.row), RowDate(a.row))
  }

  /** After every row that is not older: equal dates keep their order. */
  function InsertByDate(sorted: seq<Entry>, e: Entry): seq<Entry> {
    if sorted == [] || NotOlder(sorted[|sorted| - 1], e) then sorted + [e]
    else InsertByDate(sorted[..|sorted| - 1], e) + [sorted[|sorted| - 1]]
  }

  function NewestFirst(entries: seq<Entry>): seq<Entry> {
    if entries == [] then [] else InsertByDate(NewestFirst(entries[..|entries| - 1]), entries[|entries| - 1])
  }

  function Rows(entries: seq<Entry>): seq<string> {
    seq(|entries|, i requires 0 <= i < |entries| => entries[i].row)
  }

  function Render(entries: seq<Entry>): string {
    Document([TITLE, "", INDEX_HEADER, INDEX_SEP] + Rows(NewestFirst(entries)))
  }

  /** The index with one decision put in. */
  function Updated(text: string, e: Entry): string {
    Render(Upsert(Parse(text), e))
  }

  // ----- dictionaries

  ghost predicate DistinctFiles(entries: seq<Entry>) {
    forall i, j :: 0 <= i < j < |entries| ==> entries[i].file != entries[j].file
  }

  function AsMap(entries: seq<Entry>): map<string, string> {
    if entries == [] then map[]
    else AsMap(entries[..|entries| - 1])[entries[|entries| - 1].file := entries[|entries| - 1].row]
  }

  lemma {:induction false} MapHas(entries: seq<Entry>, f: string)
    requires DistinctFiles(entries)
    ensures f in AsMap(entries) <==> exists i :: 0 <= i < |entries| && entries[i].file == f
    ensures forall i :: 0 <= i < |entries| && entries[i].file == f ==> AsMap(entries)[f] == entries[i].row
  {
    if entries != [] {
      var front := entries[..|entries| - 1];
      MapHas(front, f);
      assert forall i :: 0 <= i < |front| ==> front[i] == entries[i];
      if f in AsMap(entries) && f != entries[|entries| - 1].file {
        var i :| 0 <= i < |front| && front[i].file == f;
        assert entries[i].file == f;
      }
    }
  }

  lemma {:induction false} UpsertFacts(entries: seq<Entry>, e: Entry)
    requires DistinctFiles(entries)
    ensures DistinctFiles(Upsert(entries, e))
    ensures forall x :: x in Upsert(entries, e) <==> x == e || (x in entries && x.file != e.file)
  {
    if entries != [] {
      var rest := entries[1..];
      UpsertFacts(rest, e);
      assert forall x :: x in entries <==> x == entries[0] || x in rest;
      assert forall x :: x in rest ==> x.file != entries[0].file;
      if entries[0].file != e.file {
        var all := Upsert(entries, e);
        forall i, j | 0 <= i < j < |all| ensures all[i].file != all[j].file {
          assert all[j] in Upsert(rest, e);
        }
      }
    }
  }

  /** With distinct files a dictionary is the set of its entries. */
  lemma SameMap(a: seq<Entry>, b: seq<Entry>)
    requires DistinctFiles(a) && DistinctFiles(b) && forall x :: x in a <==> x in b
    ensures AsMap(a) == AsMap(b)
  {
    forall f ensures (f in AsMap(a) <==> f in AsMap(b)) && (f in AsMap(a) ==> AsMap(a)[f] == AsMap(b)[f]) {
      MapHas(a, f);
      MapHas(b, f);
      if i :| 0 <= i < |a| && a[i].file == f {
        assert a[i] in b;
        var j :| 0 <= j < |b| && b[j] == a[i];
      }
      if j :| 0 <= j < |b| && b[j].file == f {
        assert b[j] in a;
        var i :| 0 <= i < |a| && a[i] == b[j];
      }
    }
  }

  lemma MapUpsert(entries: seq<Entry>, e: Entry)
    requires DistinctFiles(entries)
    ensures AsMap(Upsert(entries, e)) == AsMap(entries)[e.file := e.row]
  {
    hide Upsert, AsMap;
    var all := Upsert(entries, e);
    UpsertFacts(entries, e);
    forall f
      ensures f in AsMap(all) <==> f in AsMap(entries) || f == e.file
      ensures f in AsMap(all) ==> AsMap(all)[f] == if f == e.file then e.row else AsMap(entries)[f]
    {
      MapHas(all, f);
      MapHas(entries, f);
      assert e in all;
      var k :| 0 <= k < |all| && all[k] == e;
      if i :| 0 <= i < |all| && all[i].file == f && f != e.file {
        assert all[i] in entries;
        var j :| 0 <= j < |entries| && entries[j] == all[i];
      }
      if j :| 0 <= j < |entries| && entries[j].file == f && f != e.file {
        assert entries[j] in all;
        var i :| 0 <= i < |all| && all[i] == entries[j];
      }
    }
  }

  // ----- sorting

  lemma {:induction false} InsertFacts(sorted: seq<Entry>, e: Entry)
    ensures forall x :: x in InsertByDate(sorted, e) <==> x == e || x in sorted
    ensures DistinctFiles(sorted) && (forall x :: x in sorted ==> x.file != e.file) ==>
      DistinctFiles(InsertByDate(sorted, e))
  {
    hide NotOlder;
    if sorted != [] && !NotOlder(sorted[|sorted| - 1], e) {
      var front, last := sorted[..|sorted| - 1], sorted[|sorted| - 1];
      assert sorted == front + [last];
      InsertFacts(front, e);
      var all := InsertByDate(front, e) + [last];
      if DistinctFiles(sorted) && (forall x :: x in sorted ==> x.file != e.file) {
        forall i, j | 0 <= i < j < |all| ensures all[i].file != all[j].file {
          assert all[i] in InsertByDate(front, e);
        }
      }
    }
  }

  lemma {:induction false} NewestFirstFacts(entries: seq<Entry>)
    ensures forall x :: x in NewestFirst(entries) <==> x in entries
    ensures DistinctFiles(entries) ==> DistinctFiles(NewestFirst(entries))
  {
    if entries != [] {
      var front, e := entries[..|entries| - 1], entries[|entries| - 1];
      assert entries == front + [e];
      NewestFirstFacts(front);
      InsertFacts(NewestFirst(front), e);
      if DistinctFiles(entries) {
        forall x | x in front ensures x.file != e.file {
          var i :| 0 <= i < |front| && front[i] == x;
          assert entries[i].file != entries[|front|].file;
        }
      }
    }
  }

  /** Each row no older than the next. */
  ghost predicate Descending(entries: seq<Entry>) {
    forall i :: 0 <= i < |entries| - 1 ==> NotOlder(entries[i], entries[i + 1])
  }

  lemma {:induction false} AtMostTotal(a: string, b: string)
    ensures AtMost(a, b) || AtMost(b, a)
  {
    if a != "" && b != "" && a[0] == b[0] {
      AtMostTotal(a[1..], b[1..]);
    }
  }

  lemma {:induction false} AtMostTransitive(a: string, b: string, c: string)
    requires AtMost(a, b) && AtMost(b, c)
    ensures AtMost(a, c)
  {
    if a != "" && a[0] == b[0] && b[0] == c[0] {
      AtMostTransitive(a[1..], b[1..], c[1..]);
    }
  }

  lemma AppendDescending(sorted: seq<Entry>, e: Entry)
    requires Descending(sorted) && (sorted != [] ==> NotOlder(sorted[|sorted| - 1], e))
    ensures Descending(sorted + [e])
  {
    hide NotOlder;
  }

  lemma FrontDescending(sorted: seq<Entry>)
    requires Descending(sorted) && sorted != []
    ensures Descending(sorted[..|sorted| - 1])
    ensures |sorted| > 1 ==> NotOlder(sorted[|sorted| - 2], sorted[|sorted| - 1])
  {
    hide NotOlder;
    if |sorted| > 1 {
      assert NotOlder(sorted[|sorted| - 2], sorted[|sorted| - 2 + 1]);
    }
  }

  lemma InsertStep(sorted: seq<Entry>, e: Entry)
    ensures InsertByDate(sorted, e) ==
            if sorted == [] || NotOlder(sorted[|sorted| - 1], e) then sorted + [e]
            else InsertByDate(sorted[..|sorted| - 1], e) + [sorted[|sorted| - 1]]
  {
  }

  lemma {:induction false} InsertDescending(sorted: seq<Entry>, e: Entry)
    requires Descending(sorted)
    ensures InsertByDate(sorted, e) != [] && Descending(InsertByDate(sorted, e))
    ensures
      var all := InsertByDate(sorted, e);
      all[|all| - 1] == e || (sorted != [] && all[|all| - 1] == sorted[|sorted| - 1])
  {
    hide NotOlder, Descending, InsertByDate;
    InsertStep(sorted, e);
    if sorted == [] || NotOlder(sorted[|sorted| - 1], e) {
      AppendDescending(sorted, e);
    } else {
      var front, last := sorted[..|sorted| - 1], sorted[|sorted| - 1];
      FrontDescending(sorted);
      InsertDescending(front, e);
      NotOlderTotal(e, last);
      AppendDescending(InsertByDate(front, e), last);
    }
  }

  lemma NotOlderTotal(a: Entry, b: Entry)
    ensures NotOlder(a, b) || NotOlder(b, a)
  {
    AtMostTotal(RowDate(a.row), RowDate(b.row));
  }

  lemma {:induction false} NewestFirstDescending(entries: seq<Entry>)
    ensures Descending(NewestFirst(entries))
  {
    if entries != [] {
      NewestFirstDescending(entries[..|entries| - 1]);
      InsertDescending(NewestFirst(entries[..|entries| - 1]), entries[|entries| - 1]);
    }
  }

  lemma {:induction false} DescendingPairs(entries: seq<Entry>, i: nat, j: nat)
    requires Descending(entries) && i < j < |entries|
    ensures NotOlder(entries[i], entries[j])
  {
    if i + 1 < j {
      DescendingPairs(entries, i, j - 1);
      AtMostTransitive(RowDate(entries[j].row), RowDate(entries[j - 1].row), RowDate(entries[i].row));
    }
  }

  /** Sorting keeps what is sorted. */
  lemma {:induction false} NewestFirstIdempotent(entries: seq<Entry>)
    requires Descending(entries)
    ensures NewestFirst(entries) == entries
  {
    hide NotOlder;
    if entries != [] {
      var front := entries[..|entries| - 1];
      NewestFirstIdempotent(front);
      assert front != [] ==> NotOlder(entries[|front| - 1], entries[|front| - 1 + 1]);
    }
  }

  // ----- lines back from a document

  lemma {:induction false} FirstBreakAt(line: string, rest: string)
    requires OneLine(line)
    ensures FirstBreak(line + "\n" + rest) == |line|
  {
    var s := line + "\n" + rest;
    if line != "" {
      assert s[0] == line[0];
      assert s[1..] == line[1..] + "\n" + rest;
      FirstBreakAt(line[1..], rest);
    }
  }

  lemma {:induction false} LinesComeBack(lines: seq<string>)
    requires forall i :: 0 <= i < |lines| ==> OneLine(lines[i])
    ensures SplitLines(Document(lines)) == lines
  {
    if lines != [] {
      hide OneLine, SplitLines;
      FirstLineOff(lines[0], Document(lines[1..]));
      LinesComeBack(lines[1..]);
    } else {
      assert Document(lines) == "";
    }
  }

  lemma FirstLineOff(line: string, rest: string)
    requires OneLine(line)
    ensures SplitLines(line + "\n" + rest) == [line] + SplitLines(rest)
  {
    hide OneLine, FirstBreak;
    var s := line + "\n" + rest;
    FirstBreakAt(line, rest);
    assert s[|line|] == '\n' && s[..|line|] == line && s[|line| + 1..] == rest;
  }

  // ----- entries back from lines

  /** A one-line row that is read under its own file name. */
  ghost predicate Good(e: Entry) {
    OneLine(e.row) && RowKey(e.row) == Some(e.file)
  }

  ghost predicate AllGood(entries: seq<Entry>) {
    forall x :: x in entries ==> Good(x)
  }

  lemma {:induction false} UpsertNew(entries: seq<Entry>, e: Entry)
    requires forall x :: x in entries ==> x.file != e.file
    ensures Upsert(entries, e) == entries + [e]
  {
    if entries != [] {
      UpsertNew(entries[1..], e);
    }
  }

  /** Rows with distinct keys are read back as they stand. */
  lemma {:induction false} EntriesComeBack(entries: seq<Entry>)
    requires DistinctFiles(entries) && AllGood(entries)
    ensures ParseLines(Rows(entries)) == entries
  {
    if entries != [] {
      hide RowKey, OneLine, Upsert;
      var front, e := entries[..|entries| - 1], entries[|entries| - 1];
      assert e in entries;
      assert entries == front + [e];
      EntriesComeBack(front);
      assert Rows(entries)[..|entries| - 1] == Rows(front) && Rows(entries)[|entries| - 1] == e.row;
      UpsertNew(front, e);
    }
  }

  lemma ParseStep(lines: seq<string>, line: string)
    ensures
      var earlier := ParseLines(lines);
      ParseLines(lines + [line]) ==
      if RowKey(line).Some? then Upsert(earlier, Entry(RowKey(line).value, line)) else earlier
  {
    hide RowKey, Upsert;
    assert (lines + [line])[..|lines|] == lines;
  }

  lemma {:induction false} HeadSkipped(head: seq<string>, lines: seq<string>)
    requires forall i :: 0 <= i < |head| ==> RowKey(head[i]) == None
    ensures ParseLines(head + lines) == ParseLines(lines)
  {
    hide RowKey, Upsert, ParseLines;
    if lines != [] {
      var front, line := lines[..|lines| - 1], lines[|lines| - 1];
      assert head + lines == head + front + [line] && lines == front + [line];
      HeadSkipped(head, front);
      ParseStep(head + front, line);
      ParseStep(front, line);
    } else if head != [] {
      var front, line := head[..|head| - 1], head[|head| - 1];
      assert head + lines == front + [line] && front + lines == front;
      HeadSkipped(front, lines);
      ParseStep(front, line);
    } else {
      assert head + lines == lines;
    }
  }

  /** Whatever text is parsed, the result has one entry per file, each a row read under that name. */
  lemma {:induction false} ParsedIsGood(lines: seq<string>)
    requires forall i :: 0 <= i < |lines| ==> OneLine(lines[i])
    ensures DistinctFiles(ParseLines(lines)) && AllGood(ParseLines(lines))
  {
    hide RowKey, OneLine;
    if lines != [] {
      var earlier, line := ParseLines(lines[..|lines| - 1]), lines[|lines| - 1];
      ParsedIsGood(lines[..|lines| - 1]);
      if RowKey(line).Some? {
        UpsertFacts(earlier, Entry(RowKey(line).value, line));
      }
    }
  }

  lemma OneLineJoined(a: string, b: string)
    requires OneLine(a) && OneLine(b)
    ensures OneLine(a + b)
  {
  }

  lemma HeaderStart()
    ensures OneLine("| Date | Cible | Jur. | Ticker IBKR ")
  {
  }

  lemma HeaderMiddle()
    ensures OneLine("| Entry € | Stop € | Score ")
  {
  }

  lemma HeaderEnd()
    ensures OneLine("| Premium | Fichier |")
  {
  }

  lemma HeaderIsOneLine()
    ensures OneLine(INDEX_HEADER)
  {
    hide OneLine;
    HeaderStart();
    HeaderMiddle();
    HeaderEnd();
    OneLineJoined("| Date | Cible | Jur. | Ticker IBKR ", "| Entry € | Stop € | Score ");
    OneLineJoined("| Date | Cible | Jur. | Ticker IBKR " + "| Entry € | Stop € | Score ", "| Premium | Fichier |");
  }

  lemma OtherHeadLines()
    ensures OneLine(TITLE) && OneLine("") && OneLine(INDEX_SEP)
    ensures RowKey(TITLE) == None && RowKey("") == None && RowKey(INDEX_SEP) == None
  {
    hide RawCells, FindLink;
  }

  lemma HeadLines()
    ensures OneLine(TITLE) && OneLine("") && OneLine(INDEX_HEADER) && OneLine(INDEX_SEP)
    ensures RowKey(TITLE) == None && RowKey("") == None && RowKey(INDEX_HEADER) == None && RowKey(INDEX_SEP) == None
  {
    hide OneLine, RawCells, FindLink;
    OtherHeadLines();
    HeaderIsOneLine();
  }

  lemma RenderedComesBack(entries: seq<Entry>)
    requires DistinctFiles(entries) && AllGood(entries)
    ensures Parse(Render(entries)) == NewestFirst(entries)
  {
    var head, sorted := [TITLE, "", INDEX_HEADER, INDEX_SEP], NewestFirst(entries);
    NewestFirstFacts(entries);
    HeadLines();
    hide OneLine, RowKey, NewestFirst, ParseLines, SplitLines, Document;
    forall i | 0 <= i < |sorted| ensures OneLine(sorted[i].row) {
      assert sorted[i] in sorted && Good(sorted[i]);
    }
    LinesComeBack(head + Rows(sorted));
    HeadSkipped(head, Rows(sorted));
    EntriesComeBack(sorted);
  }

  /**
   The round trip: printing and parsing gives a dictionary back exactly when
   each of its rows is one line that is read under its own file name.
   */
  lemma RoundTripIff(entries: seq<Entry>)
    requires DistinctFiles(entries)
    ensures Parse(Render(entries)) == NewestFirst(entries) <==> AllGood(entries)
    ensures AsMap(Parse(Render(entries))) == AsMap(entries) <==> AllGood(entries)
    ensures AllGood(entries) ==> Render(Parse(Render(entries))) == Render(entries)
  {
    hide RowKey, OneLine, Render, ParseLines, SplitLines, NewestFirst;
    NewestFirstFacts(entries);
    ParsedIsGood(SplitLines(Render(entries)));
    if AllGood(entries) {
      RenderedComesBack(entries);
      SameMap(NewestFirst(entries), entries);
      RenderSorted(entries);
    } else {
      SameMapSameEntries(Parse(Render(entries)), entries);
    }
  }

  /** Two lists of entries with the same dictionary hold the same entries. */
  lemma SameMapSameEntries(a: seq<Entry>, b: seq<Entry>)
    requires DistinctFiles(a) && DistinctFiles(b)
    ensures AsMap(a) == AsMap(b) ==> forall e :: e in b ==> e in a
  {
    if AsMap(a) == AsMap(b) {
      forall e | e in b ensures e in a {
        MapHas(a, e.file);
        MapHas(b, e.file);
      }
    }
  }

  lemma RenderSorted(entries: seq<Entry>)
    ensures Render(NewestFirst(entries)) == Render(entries)
  {
    hide NewestFirst, Document;
    NewestFirstDescending(entries);
    NewestFirstIdempotent(NewestFirst(entries));
  }

  /**
   The upsert, on whatever text the index file holds: reading the new index
   gives the old dictionary with this decision's row alone put in, exactly when
   that row is one line read under its own file name; then dates run newest
   first, and putting the same decision in again changes nothing.
   */
  lemma UpdateFacts(text: string, e: Entry)
    ensures AsMap(Parse(Updated(text, e))) == AsMap(Parse(text))[e.file := e.row] <==> Good(e)
    ensures Good(e) ==> Descending(Parse(Updated(text, e))) && Updated(Updated(text, e), e) == Updated(text, e)
  {
    hide RowKey, OneLine, Render, ParseLines, SplitLines, NewestFirst, Good, Descending, AsMap, Upsert, DistinctFiles;
    var before := Parse(text);
    var after := Upsert(before, e);
    ParsedIsGood(SplitLines(text));
    UpsertFacts(before, e);
    MapUpsert(before, e);
    RoundTripIff(after);
    assert e in after;
    assert AllGood(after) <==> Good(e);
    if Good(e) {
      GoodUpdate(after, e);
    }
  }

  lemma GoodUpdate(after: seq<Entry>, e: Entry)
    requires DistinctFiles(after) && AllGood(after) && e in after
    ensures Descending(Parse(Render(after))) && Updated(Render(after), e) == Render(after)
  {
    hide RowKey, OneLine, Render, ParseLines, SplitLines, NewestFirst, Good, Descending, Parse, AllGood, Upsert;
    RenderedComesBack(after);
    NewestFirstFacts(after);
    NewestFirstDescending(after);
    UpsertPresent(NewestFirst(after), e);
    RenderSorted(after);
  }

  lemma {:induction false} UpsertPresent(entries: seq<Entry>, e: Entry)
    requires DistinctFiles(entries) && e in entries
    ensures Upsert(entries, e) == entries
  {
    if entries[0].file == e.file {
      var i :| 0 <= i < |entries| && entries[i] == e;
    } else {
      UpsertPresent(entries[1..], e);
    }
  }

  // ----- the rows the program writes

  /** Each cell between blanks and closed by a pipe. */
  function Cells(cells: seq<string>): string {
    if cells == [] then "" else Cells(cells[..|cells| - 1]) + (" " + cells[|cells| - 1] + " ") + "|"
  }

  function LinkCell(name: string): string {
    "[" + name + "](" + name + ")"
  }

  function Inner(date: string, middle: seq<string>, name: string): string {
    (" " + date + " ") + "|" + (Cells(middle) + (" " + LinkCell(name) + " "))
  }

  /** Date, target, jurisdiction, ticker, entry, stop, score and premium, then the link to the decision's file. */
  function IndexRow(date: string, middle: seq<string>, name: string): string {
    "|" + Inner(date, middle, name) + "|"
  }

  predicate Without(s: string, c: char) {
    forall i :: 0 <= i < |s| ==> s[i] != c
  }

  /** A date as the program prints it: no blank, no pipe, not the column title. */
  predicate PlainDate(date: string) {
    date != "" && Without(date, '|') && date != "Date" && forall i :: 0 <= i < |date| ==> !IsSpace(date[i])
  }

  /** A file name free of parentheses, pipes and line breaks. */
  predicate PlainName(name: string) {
    name != "" && Without(name, '|') && Without(name, '(') && Without(name, ')') && OneLine(name)
  }

  lemma {:induction false} SplitNoPipe(s: string)
    requires Without(s, '|')
    ensures SplitPipes(s) == [s]
  {
    if s != "" {
      SplitNoPipe(s[..|s| - 1]);
      assert s[..|s| - 1] + [s[|s| - 1]] == s;
    }
  }

  lemma SplitSnoc(s: string, c: char)
    ensures
      var parts := SplitPipes(s);
      SplitPipes(s + [c]) == if c == '|' then parts + [""] else parts[..|parts| - 1] + [parts[|parts| - 1] + [c]]
  {
    assert (s + [c])[..|s|] == s;
  }

  lemma {:induction false} SplitAtPipe(a: string, b: string)
    ensures SplitPipes(a + "|" + b) == SplitPipes(a) + SplitPipes(b)
  {
    hide SplitPipes;
    SplitSnoc(a, '|');
    if b == "" {
      assert a + "|" + b == a + ['|'];
      assert SplitPipes("") == [""] by { SplitNoPipe(""); }
    } else {
      var front, c := b[..|b| - 1], b[|b| - 1];
      SplitAtPipe(a, front);
      assert a + "|" + b == (a + "|" + front) + [c] && b == front + [c];
      SplitSnoc(a + "|" + front, c);
      SplitSnoc(front, c);
    }
  }

  lemma {:induction false} SplitCells(cells: seq<string>, last: string)
    ensures |SplitPipes(Cells(cells) + last)| >= |cells| + 1
    ensures Without(last, '|') ==>
              var parts := SplitPipes(Cells(cells) + last);
              parts[|parts| - 1] == last
  {
    hide SplitPipes;
    if cells == [] {
      assert Cells(cells) + last == last;
    } else {
      var body := Cells(cells[..|cells| - 1]) + (" " + cells[|cells| - 1] + " ");
      assert Cells(cells) + last == body + "|" + last;
      SplitAtPipe(body, last);
      SplitCells(cells[..|cells| - 1], " " + cells[|cells| - 1] + " ");
    }
    if Without(last, '|') {
      SplitNoPipe(last);
    }
  }

  lemma PaddedWithout(s: string)
    requires Without(s, '|')
    ensures Without(" " + s + " ", '|')
  {
  }

  lemma {:induction false} SplitCellsExactly(cells: seq<string>, last: string)
    requires Without(last, '|') && forall i :: 0 <= i < |cells| ==> Without(cells[i], '|')
    ensures |SplitPipes(Cells(cells) + last)| == |cells| + 1
  {
    hide SplitPipes, Without;
    SplitNoPipe(last);
    if cells == [] {
      assert Cells(cells) + last == last;
    } else {
      var front, end := cells[..|cells| - 1], " " + cells[|cells| - 1] + " ";
      assert Cells(cells) + last == (Cells(front) + end) + "|" + last;
      PaddedWithout(cells[|cells| - 1]);
      SplitAtPipe(Cells(front) + end, last);
      SplitCellsExactly(front, end);
    }
  }

  lemma StripPadded(x: string)
    requires x != "" && !IsSpace(x[0]) && !IsSpace(x[|x| - 1])
    ensures Strip(" " + x + " ") == x
  {
    var s := " " + x + " ";
    assert s[1..] == x + " ";
    assert LeftStrip(s) == x + " ";
    var t := x + " ";
    assert t[..|t| - 1] == x && t[|t| - 1] == ' ';
    assert RightStrip(x) == x;
    assert RightStrip(t) == RightStrip(x);
  }

  lemma NothingToStrip(s: string)
    requires s != "" && !IsSpace(s[0]) && !IsSpace(s[|s| - 1])
    ensures Strip(s) == s
  {
    hide IsSpace;
  }

  lemma OnePipeLeft(s: string)
    requires |s| >= 2 && s[0] == '|' && s[1] != '|'
    ensures LeftStripPipes(s) == s[1..]
  {
  }

  lemma OnePipeRight(s: string)
    requires |s| >= 2 && s[|s| - 1] == '|' && s[|s| - 2] != '|'
    ensures RightStripPipes(s) == s[..|s| - 1]
  {
  }

  lemma RawCellsOf(inner: string)
    requires |inner| >= 2 && inner[0] == ' ' && inner[|inner| - 1] == ' '
    ensures RawCells("|" + inner + "|") == SplitPipes(inner)
  {
    hide SplitPipes, Strip, LeftStripPipes, RightStripPipes;
    var row := "|" + inner + "|";
    NothingToStrip(row);
    OnePipeLeft(row);
    assert row[1..] == inner + "|";
    OnePipeRight(inner + "|");
    assert (inner + "|")[..|inner|] == inner;
  }

  lemma {:induction false} CloseAt(s: string, from: nat, at: nat)
    requires from <= at < |s| && s[at] == ')' && forall i :: from <= i < at ==> s[i] != ')'
    ensures FindClose(s, from) == Some(at)
    decreases at - from
  {
    if from < at {
      CloseAt(s, from + 1, at);
    }
  }

  lemma {:induction false} LinkAt(s: string, from: nat, open: nat, close: nat)
    requires from <= open && open + 2 <= close < |s| && s[open] == '(' && s[close] == ')'
    requires forall i :: from <= i < open ==> s[i] != '('
    requires forall i :: open < i < close ==> s[i] != ')'
    ensures FindLink(s, from) == Some(s[open + 1..close])
    decreases open - from
  {
    if from == open {
      CloseAt(s, open + 1, close);
    } else {
      LinkAt(s, from + 1, open, close);
    }
  }

  lemma LinkCellFound(name: string)
    requires PlainName(name)
    ensures FindLink(LinkCell(name), 0) == Some(name)
  {
    var s := LinkCell(name);
    assert s == ("[" + name + "]") + "(" + name + ")";
    assert s[|name| + 2] == '(' && s[2 * |name| + 3] == ')';
    forall i | 0 <= i < |name| + 2 ensures s[i] != '(' {
      if 1 <= i <= |name| {
        assert s[i] == name[i - 1];
      }
    }
    forall i | |name| + 2 < i < 2 * |name| + 3 ensures s[i] != ')' {
      assert s[i] == name[i - |name| - 3];
    }
    LinkAt(s, 0, |name| + 2, 2 * |name| + 3);
    assert s[|name| + 3..2 * |name| + 3] == name;
  }

  lemma HeaderEndsWith()
    ensures |INDEX_HEADER| >= 3 && INDEX_HEADER[|INDEX_HEADER| - 3] == 'r'
  {
    var end := "| Premium | Fichier |";
    var start := "| Date | Cible | Jur. | Ticker IBKR " + "| Entry € | Stop € | Score ";
    assert |end| == 21 && end[18] == 'r';
    assert INDEX_HEADER == start + end;
    assert (start + end)[|start| + 18] == end[18];
  }

  lemma HeadersDiffer(row: string)
    requires |row| >= 4 && row[1] == ' ' && row[|row| - 3] == ')'
    ensures row != INDEX_HEADER && row != INDEX_SEP
  {
    assert INDEX_SEP[1] == '-';
    HeaderEndsWith();
  }

  lemma {:induction false} CellsOneLine(cells: seq<string>)
    requires forall i :: 0 <= i < |cells| ==> OneLine(cells[i])
    ensures OneLine(Cells(cells))
  {
    if cells != [] {
      CellsOneLine(cells[..|cells| - 1]);
      Padded(cells[|cells| - 1]);
      Joined(Cells(cells[..|cells| - 1]), " " + cells[|cells| - 1] + " ", "|");
      hide OneLine;
    }
  }

  lemma Padded(s: string)
    requires OneLine(s)
    ensures OneLine(" " + s + " ")
  {
  }

  lemma Joined(a: string, b: string, c: string)
    requires OneLine(a) && OneLine(b) && OneLine(c)
    ensures OneLine(a + b + c)
  {
  }

  /** The cells of a written row: at least nine, the date first, the link last. */
  lemma RowCells(date: string, middle: seq<string>, name: string)
    requires PlainDate(date) && PlainName(name)
    ensures
      var cells := RawCells(IndexRow(date, middle, name));
      && |cells| >= |middle| + 2 && Strip(cells[0]) == date && Strip(cells[|cells| - 1]) == LinkCell(name)
  {
    hide SplitPipes, Strip, RawCells, IsSpace, Cells;
    var link := " " + LinkCell(name) + " ";
    RawCellsOf(Inner(date, middle, name));
    SplitAtPipe(" " + date + " ", Cells(middle) + link);
    assert Without(" " + date + " ", '|');
    SplitNoPipe(" " + date + " ");
    LinkNoPipe(name);
    SplitCells(middle, link);
    StripPadded(date);
    BracketsNotSpace();
    StripPadded(LinkCell(name));
  }

  lemma LinkNoPipe(name: string)
    requires PlainName(name)
    ensures Without(" " + LinkCell(name) + " ", '|')
  {
    hide OneLine;
  }

  lemma BracketsNotSpace()
    ensures !IsSpace('[') && !IsSpace(')') && !IsSpace('|')
  {
  }

  /** Every row the program writes, from one-line cells, is read back under its file name and date. */
  lemma WrittenRowIsGood(date: string, middle: seq<string>, name: string)
    requires PlainDate(date) && PlainName(name) && |middle| == 7
    requires forall i :: 0 <= i < |middle| ==> OneLine(middle[i])
    ensures Good(Entry(name, IndexRow(date, middle, name))) && RowDate(IndexRow(date, middle, name)) == date
  {
    hide RawCells, Strip, Cells, IsSpace;
    var row := IndexRow(date, middle, name);
    RowCells(date, middle, name);
    LinkCellFound(name);
    HeadersDiffer(row);
    RowOneLine(date, middle, name);
  }

  lemma RowOneLine(date: string, middle: seq<string>, name: string)
    requires PlainDate(date) && PlainName(name)
    requires forall i :: 0 <= i < |middle| ==> OneLine(middle[i])
    ensures OneLine(IndexRow(date, middle, name))
  {
    assert OneLine(date) by { SpacelessIsOneLine(date); }
    CellsOneLine(middle);
    hide Cells;
    Padded(date);
    Joined("[", name, "](");
    Joined("[" + name + "](", name, ")");
    Padded(LinkCell(name));
    Joined(Cells(middle), " " + LinkCell(name) + " ", "");
    assert Cells(middle) + (" " + LinkCell(name) + " ") + "" == Cells(middle) + (" " + LinkCell(name) + " ");
    Joined(" " + date + " ", "|", Cells(middle) + (" " + LinkCell(name) + " "));
    Joined("|", Inner(date, middle, name), "|");
  }

  lemma SpacelessIsOneLine(s: string)
    requires forall i :: 0 <= i < |s| ==> !IsSpace(s[i])
    ensures OneLine(s)
  {
  }

  /** A line break in any cell breaks the row: what is read back is never that row. */
  lemma BrokenRowIsLost(text: string, e: Entry)
    requires !OneLine(e.row)
    ensures e !in Parse(text)
  {
    hide SplitLines, ParseLines, OneLine;
    ParsedIsGood(SplitLines(text));
  }

  /** A line of the table: its cells between blanks and pipes. */
  function TableLine(first: string, middle: seq<string>, last: string): string {
    "|" + ((" " + first + " ") + "|" + (Cells(middle) + (" " + last + " "))) + "|"
  }

  /** Which lines of a table are rows: those of nine cells or more whose first is not the column title. */
  lemma TableLineIff(first: string, middle: seq<string>, last: string)
    requires Without(first, '|') && Without(last, '|') && forall i :: 0 <= i < |middle| ==> Without(middle[i], '|')
    ensures
      var line := TableLine(first, middle, last);
      RowKey(line).Some? <==>
      line != INDEX_HEADER && line != INDEX_SEP && |middle| + 2 >= 9 && Strip(" " + first + " ") != "Date"
  {
    hide SplitPipes, Strip, RawCells, Cells, Without, FindLink;
    var padded, end := " " + first + " ", " " + last + " ";
    RawCellsOf(padded + "|" + (Cells(middle) + end));
    SplitAtPipe(padded, Cells(middle) + end);
    PaddedWithout(first);
    PaddedWithout(last);
    SplitNoPipe(padded);
    SplitCellsExactly(middle, end);
  }

  // ----- the parser's loop and the index file

  method ParseIndexRows(text: string) returns (rows: seq<Entry>)
    ensures rows == Parse(text)
    ensures DistinctFiles(rows) && AllGood(rows)
  {
    var lines := SplitLines(text);
    ParsedIsGood(lines);
    hide RowKey, SplitLines;
    rows := [];
    var i := 0;
    while i < |lines|
      invariant 0 <= i <= |lines|
      invariant rows == ParseLines(lines[..i])
    {
      assert lines[..i + 1][..i] == lines[..i];
      var key := RowKey(lines[i]);
      if key.Some? {
        rows := Upsert(rows, Entry(key.value, lines[i]));
      }
      i := i + 1;
    }
    assert lines[..i] == lines;
  }

  /** The stored INDEX.md; the empty text stands for a missing file too. */
  class IndexFile {
    var text: string

    constructor ()
      ensures text == ""
    {
      text := "";
    }

    method UpdateDecisionIndex(name: string, row: string)
      modifies this
      ensures text == Updated(old(text), Entry(name, row))
      ensures AsMap(Parse(text)) == AsMap(Parse(old(text)))[name := row] <==> Good(Entry(name, row))
      ensures Good(Entry(name, row)) ==> Updated(text, Entry(name, row)) == text
    {
      hide Good, Parse, Render, Upsert, DistinctFiles, AsMap, Descending;
      var rows := ParseIndexRows(text);
      UpdateFacts(text, Entry(name, row));
      text := Render(Upsert(rows, Entry(name, row)));
    }
  }
}
