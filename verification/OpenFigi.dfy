/**
 From an ISIN to a Yahoo ticker through OpenFIGI (src/pricing/openfigi_resolver.py):
 the choice of a listing venue, and the cached, chunked batch path against the
 one-at-a-time path. The service is a function from an ISIN to its venue rows.
 */
module OpenFigi {
  import opened Common

  const MAX_JOBS_PER_REQUEST: nat := 100
  /** Thirty days in microseconds. */
  const CACHE_TTL := 30 * 86_400 * 1_000_000
  const MIN_TICKER_STEM := 2

  const EQUITY_SECURITY_TYPES := {"Common Stock", "REIT"}
  const CURRENCY_SUFFIXES := {"EUR", "USD", "GBP", "CHF"}
  const GROWTH_VENUES := {"XS", "XH", "EO"}

  const COUNTRY_TO_BBG_EXCH := map[
    "FR" := ["FP", "XS", "XH", "EO"], "IT" := ["IM"], "DE" := ["GR", "GY"], "NL" := ["NA"], "BE" := ["BB"],
    "ES" := ["SM"], "GB" := ["LN"]]

  const BBG_TO_YAHOO_SUFFIX := map[
    "FP" := ".PA", "XS" := ".PA", "XH" := ".PA", "EO" := ".PA", "IM" := ".MI", "GR" := ".DE", "GY" := ".DE",
    "NA" := ".AS", "BB" := ".BR", "SM" := ".MC", "LN" := ".L"]

  datatype Source = HomeVenue | HomeVenueGrowth | VenueFallback | NoMatch | UnknownExch

  /** A row as the service sends it; an absent ticker or venue is the empty string. */
  datatype RawRow = RawRow(ticker: string, exchCode: string, securityType: string, marketSector: string,
                           compositeFigi: string)

  datatype Row = Row(ticker: string, exchCode: string, compositeFigi: string)

  datatype Selection = Selection(row: Row, source: Source)

  datatype YahooTicker = YahooTicker(isin: string, yahooTicker: Option<string>, exchCode: Option<string>,
                                     figi: Option<string>, source: Source)

  function EquityRows(data: seq<RawRow>): seq<Row> {
    if data == [] then []
    else
      var d := data[0];
      (if d.securityType in EQUITY_SECURITY_TYPES && d.marketSector == "Equity" && d.ticker != "" && d.exchCode != ""
       then [Row(d.ticker, d.exchCode, d.compositeFigi)] else [])
      + EquityRows(data[1..])
  }

  function Upper(s: string): string {
    seq(|s|, i requires 0 <= i < |s| => if 'a' <= s[i] <= 'z' then s[i] - 'a' + 'A' else s[i])
  }

  function Country(isin: string): string {
    Upper(if |isin| <= 2 then isin else isin[..2])
  }

  function HomeVenues(isin: string): seq<string> {
    if Country(isin) in COUNTRY_TO_BBG_EXCH then COUNTRY_TO_BBG_EXCH[Country(isin)] else []
  }

  function Capital(c: char): char {
    if 'a' <= c <= 'z' then c - 'a' + 'A' else c
  }

  /** The country of an ISIN is its first two letters, small or capital. */
  lemma CountryIs(isin: string)
    requires |isin| >= 2
    ensures Country(isin) == [Capital(isin[0]), Capital(isin[1])]
  {
    assert isin[..2] == [isin[0], isin[1]];
    assert Upper([isin[0], isin[1]]) == [Capital(isin[0]), Capital(isin[1])];
  }

  /** The home venues of a country, best first. */
  lemma HomeVenuesAre(isin: string)
    ensures
      HomeVenues(isin) ==
      if Country(isin) == "FR" then ["FP", "XS", "XH", "EO"] else if Country(isin) == "IT" then ["IM"]
      else if Country(isin) == "DE" then ["GR", "GY"] else if Country(isin) == "NL" then ["NA"]
      else if Country(isin) == "BE" then ["BB"] else if Country(isin) == "ES" then ["SM"]
      else if Country(isin) == "GB" then ["LN"] else []
  {
    hide Country;
  }

  /** The first row listed on a venue. */
  function FirstOn(rows: seq<Row>, exch: string): Option<Row> {
    if rows == [] then None else if rows[0].exchCode == exch then Some(rows[0]) else FirstOn(rows[1..], exch)
  }

  /** The first row on the first of these venues that has one. */
  function FirstHome(rows: seq<Row>, venues: seq<string>): Option<Row> {
    if venues == [] then None
    else if FirstOn(rows, venues[0]).Some? then FirstOn(rows, venues[0])
    else FirstHome(rows, venues[1..])
  }

  /** Row `i` is the first on venue `v`, and no row is on a venue before it. */
  ghost predicate BestHome(rows: seq<Row>, venues: seq<string>, v: int, i: int) {
    && 0 <= v < |venues| && 0 <= i < |rows| && rows[i].exchCode == venues[v]
    && (forall j :: 0 <= j < i ==> rows[j].exchCode != venues[v])
    && (forall u, j :: 0 <= u < v && 0 <= j < |rows| ==> rows[j].exchCode != venues[u])
  }

  lemma {:induction false} FirstOnIs(rows: seq<Row>, exch: string) returns (i: nat)
    ensures FirstOn(rows, exch).None? <==> forall j :: 0 <= j < |rows| ==> rows[j].exchCode != exch
    ensures FirstOn(rows, exch).Some? ==>
              && i < |rows| && rows[i] == FirstOn(rows, exch).value && rows[i].exchCode == exch
              && forall j :: 0 <= j < i ==> rows[j].exchCode != exch
  {
    i := 0;
    if rows != [] && rows[0].exchCode != exch {
      var k := FirstOnIs(rows[1..], exch);
      i := k + 1;
      assert forall j :: 0 < j < |rows| ==> rows[j] == rows[1..][j - 1];
    }
  }

  /** The home row: the first one on the venue that stands first in the country's list; none if no venue has one. */
  lemma {:induction false} FirstHomeIs(rows: seq<Row>, venues: seq<string>)
    ensures FirstHome(rows, venues).None? <==>
            forall v, j :: 0 <= v < |venues| && 0 <= j < |rows| ==> rows[j].exchCode != venues[v]
    ensures FirstHome(rows, venues).Some? ==>
              exists v, i :: BestHome(rows, venues, v, i) && FirstHome(rows, venues).value == rows[i]
  {
    hide FirstOn;
    if venues != [] {
      var i := FirstOnIs(rows, venues[0]);
      if FirstOn(rows, venues[0]).Some? {
        assert BestHome(rows, venues, 0, i);
      } else {
        var rest := venues[1..];
        FirstHomeIs(rows, rest);
        assert forall v :: 0 < v < |venues| ==> venues[v] == rest[v - 1];
        assert forall v :: 0 <= v < |rest| ==> rest[v] == venues[v + 1];
        if FirstHome(rows, rest).Some? {
          var v, k :| BestHome(rows, rest, v, k) && FirstHome(rows, rest).value == rows[k];
          assert BestHome(rows, venues, v + 1, k);
        }
      }
    }
  }

  function Count(rows: seq<Row>, figi: string): nat {
    if rows == [] then 0 else Count(rows[..|rows| - 1], figi) + if rows[|rows| - 1].compositeFigi == figi then 1 else 0
  }

  predicate Dominant(rows: seq<Row>, figi: string) {
    forall j :: 0 <= j < |rows| ==> Count(rows, rows[j].compositeFigi) <= Count(rows, figi)
  }

  function HomeSource(exch: string): Source {
    if exch in GROWTH_VENUES then HomeVenueGrowth else HomeVenue
  }

  /**
   What a venue choice must be: the first row on the best home venue, and
   without one the first row of an issuer with the most listings.
   */
  ghost predicate IsSelection(rows: seq<Row>, isin: string, s: Option<Selection>) {
    var home := FirstHome(rows, HomeVenues(isin));
    && (rows == [] <==> s.None?)
    && (s.Some? && home.Some? ==> s.value == Selection(home.value, HomeSource(home.value.exchCode)))
    && (s.Some? && home.None? ==>
          s.value.source == VenueFallback &&
          exists i :: 0 <= i < |rows| && rows[i] == s.value.row && Dominant(rows, rows[i].compositeFigi)
                      && forall j :: 0 <= j < i ==> !Dominant(rows, rows[j].compositeFigi))
  }

  lemma SelectionUnique(rows: seq<Row>, isin: string, s: Option<Selection>, t: Option<Selection>)
    requires IsSelection(rows, isin, s) && IsSelection(rows, isin, t)
    ensures s == t
  {
    if s.Some? && FirstHome(rows, HomeVenues(isin)).None? {
      var i :| 0 <= i < |rows| && rows[i] == s.value.row && Dominant(rows, rows[i].compositeFigi)
               && forall j :: 0 <= j < i ==> !Dominant(rows, rows[j].compositeFigi);
      var k :| 0 <= k < |rows| && rows[k] == t.value.row && Dominant(rows, rows[k].compositeFigi)
               && forall j :: 0 <= j < k ==> !Dominant(rows, rows[j].compositeFigi);
      assert i == k;
    }
  }

  function FirstDominant(rows: seq<Row>, from: nat): Option<Row>
    decreases |rows| - from
  {
    if from >= |rows| then None
    else if Dominant(rows, rows[from].compositeFigi) then Some(rows[from])
    else FirstDominant(rows, from + 1)
  }

  function SelectHomeVenue(rows: seq<Row>, isin: string): Option<Selection> {
    if rows == [] then None
    else
      match FirstHome(rows, HomeVenues(isin))
      case Some(row) => Some(Selection(row, HomeSource(row.exchCode)))
      case None =>
        match FirstDominant(rows, 0)
        case Some(row) => Some(Selection(row, VenueFallback))
        case None => None
  }

  lemma {:induction false} SomeDominant(rows: seq<Row>, all: seq<Row>) returns (i: nat)
    requires rows != []
    ensures i < |rows|
    ensures forall j :: 0 <= j < |rows| ==> Count(all, rows[j].compositeFigi) <= Count(all, rows[i].compositeFigi)
  {
    i := 0;
    if |rows| > 1 {
      var front := rows[..|rows| - 1];
      var k := SomeDominant(front, all);
      i := if Count(all, rows[|rows| - 1].compositeFigi) > Count(all, rows[k].compositeFigi) then |rows| - 1 else k;
      assert forall j :: 0 <= j < |front| ==> front[j] == rows[j];
    }
  }

  lemma {:induction false} FirstDominantFound(rows: seq<Row>, from: nat, at: nat)
    requires from <= at < |rows| && Dominant(rows, rows[at].compositeFigi)
    ensures
      var found := FirstDominant(rows, from);
      found.Some? && exists i :: from <= i < |rows| && rows[i] == found.value && Dominant(rows, rows[i].compositeFigi)
                                 && forall j :: from <= j < i ==> !Dominant(rows, rows[j].compositeFigi)
    decreases |rows| - from
  {
    if !Dominant(rows, rows[from].compositeFigi) {
      FirstDominantFound(rows, from + 1, at);
      var i :| from + 1 <= i < |rows| && rows[i] == FirstDominant(rows, from).value
          && Dominant(rows, rows[i].compositeFigi)
               && forall j :: from + 1 <= j < i ==> !Dominant(rows, rows[j].compositeFigi);
      assert forall j :: from <= j < i ==> !Dominant(rows, rows[j].compositeFigi);
    }
  }

  lemma SelectHomeVenueIsSelection(rows: seq<Row>, isin: string)
    ensures IsSelection(rows, isin, SelectHomeVenue(rows, isin))
  {
    if rows != [] && FirstHome(rows, HomeVenues(isin)).None? {
      var i := SomeDominant(rows, rows);
      FirstDominantFound(rows, 0, i);
    }
  }

  /** The tally of the source: how many rows each issuer has, and the issuers in order of first appearance. */
  method Tally(rows: seq<Row>) returns (counts: map<string, nat>, order: seq<string>, ghost firsts: seq<nat>)
    ensures forall f :: Count(rows, f) == if f in counts then counts[f] else 0
    ensures forall f :: f in order ==> f in counts
    ensures FirstAppearances(rows, |rows|, order, firsts)
  {
    hide Count, FirstAppearances;
    counts, order, firsts := map[], [], [];
    NothingYet(rows);
    var i := 0;
    while i < |rows|
      invariant 0 <= i <= |rows|
      invariant forall f :: f in order <==> f in counts
      invariant forall f :: Count(rows[..i], f) == if f in counts then counts[f] else 0
      invariant FirstAppearances(rows, i, order, firsts)
    {
      var figi := rows[i].compositeFigi;
      CountOneMore(rows, i);
      AppearsNext(rows, i, order, firsts);
      if figi !in counts {
        order := order + [figi];
        firsts := firsts + [i];
      }
      counts := counts[figi := (if figi in counts then counts[figi] else 0) + 1];
      i := i + 1;
    }
    assert rows[..i] == rows;
  }

  lemma NothingYet(rows: seq<Row>)
    ensures FirstAppearances(rows, 0, [], []) && forall f :: Count(rows[..0], f) == 0
  {
  }

  lemma CountOneMore(rows: seq<Row>, i: nat)
    requires i < |rows|
    ensures forall f :: Count(rows[..i + 1], f) == Count(rows[..i], f) + if rows[i].compositeFigi == f then 1 else 0
  {
    assert rows[..i + 1][..i] == rows[..i];
  }

  lemma AppearsNext(rows: seq<Row>, i: nat, order: seq<string>, firsts: seq<nat>)
    requires i < |rows| && FirstAppearances(rows, i, order, firsts)
    ensures
      var figi := rows[i].compositeFigi;
      if figi in order then FirstAppearances(rows, i + 1, order, firsts)
      else FirstAppearances(rows, i + 1, order + [figi], firsts + [i])
  {
    var figi := rows[i].compositeFigi;
    var order' := if figi in order then order else order + [figi];
    forall j | 0 <= j < i + 1 ensures rows[j].compositeFigi in order' {
      if j < i {
        assert rows[j].compositeFigi in order;
      }
    }
  }

  /** The first key with the greatest count. */
  method MaxKey(counts: map<string, nat>, order: seq<string>) returns (best: nat)
    requires order != [] && forall f :: f in order ==> f in counts
    ensures best < |order|
    ensures forall j :: 0 <= j < |order| ==> counts[order[j]] <= counts[order[best]]
    ensures forall j :: 0 <= j < best ==> counts[order[j]] < counts[order[best]]
  {
    best := 0;
    var k := 1;
    while k < |order|
      invariant 0 <= best < k <= |order|
      invariant forall j :: 0 <= j < k ==> counts[order[j]] <= counts[order[best]]
      invariant forall j :: 0 <= j < best ==> counts[order[j]] < counts[order[best]]
    {
      if counts[order[k]] > counts[order[best]] {
        best := k;
      }
      k := k + 1;
    }
  }

  /** The venue choice by the loops of the source; it is the one the definition asks for. */
  method SelectByCounting(rows: seq<Row>, isin: string) returns (s: Option<Selection>)
    ensures IsSelection(rows, isin, s)
    ensures s == SelectHomeVenue(rows, isin)
  {
    SelectHomeVenueIsSelection(rows, isin);
    if rows == [] {
      return None;
    }
    var home := FirstHome(rows, HomeVenues(isin));
    if home.Some? {
      return Some(Selection(home.value, HomeSource(home.value.exchCode)));
    }
    hide SelectHomeVenue, Dominant, HomeVenues;
    var counts, order, firsts := Tally(rows);
    assert rows[0].compositeFigi in order;
    var best := MaxKey(counts, order);
    BestIsFirstDominant(rows, order, firsts, best);
    FirstRow(rows, order, firsts, best);
    var row := FirstCarrying(rows, order[best]);
    s := Some(Selection(row.value, VenueFallback));
    assert rows[firsts[best]] == row.value;
    SelectionUnique(rows, isin, s, SelectHomeVenue(rows, isin));
  }

  function FirstCarrying(rows: seq<Row>, figi: string): Option<Row> {
    if rows == [] then None else if rows[0].compositeFigi == figi then Some(rows[0]) else FirstCarrying(rows[1..], figi)
  }

  /** `order` lists the issuers among the first `n` rows, `firsts` where each appears first. */
  ghost predicate FirstAppearances(rows: seq<Row>, n: nat, order: seq<string>, firsts: seq<nat>)
    requires n <= |rows|
  {
    && |order| == |firsts|
    && (forall k :: 0 <= k < |firsts| ==> firsts[k] < n && rows[firsts[k]].compositeFigi == order[k])
    && (forall k, l :: 0 <= k < l < |firsts| ==> firsts[k] < firsts[l])
    && (forall k, j :: 0 <= k < |firsts| && 0 <= j < firsts[k] ==> rows[j].compositeFigi != order[k])
    && (forall j :: 0 <= j < n ==> rows[j].compositeFigi in order)
  }

  lemma BestIsDominant(rows: seq<Row>, order: seq<string>, firsts: seq<nat>, best: nat)
    requires FirstAppearances(rows, |rows|, order, firsts) && best < |order|
    requires forall j :: 0 <= j < |order| ==> Count(rows, order[j]) <= Count(rows, order[best])
    ensures rows[firsts[best]].compositeFigi == order[best] && Dominant(rows, order[best])
  {
    hide Count;
    forall j | 0 <= j < |rows| ensures Count(rows, rows[j].compositeFigi) <= Count(rows, order[best]) {
      var k :| 0 <= k < |order| && order[k] == rows[j].compositeFigi;
    }
  }

  lemma NoneDominantBefore(rows: seq<Row>, order: seq<string>, firsts: seq<nat>, best: nat, j: nat)
    requires FirstAppearances(rows, |rows|, order, firsts) && best < |order|
    requires forall k :: 0 <= k < best ==> Count(rows, order[k]) < Count(rows, order[best])
    requires j < firsts[best]
    ensures !Dominant(rows, rows[j].compositeFigi)
  {
    hide Count, Dominant;
    var k := EarlierIssuer(rows, order, firsts, best, j);
    NotDominant(rows, rows[j].compositeFigi, firsts[best]);
  }

  /** A row before the first of the `best` issuer belongs to an issuer listed before it. */
  lemma EarlierIssuer(rows: seq<Row>, order: seq<string>, firsts: seq<nat>, best: nat, j: nat) returns (k: nat)
    requires FirstAppearances(rows, |rows|, order, firsts) && best < |order| && j < firsts[best]
    ensures k < best && order[k] == rows[j].compositeFigi && order[best] == rows[firsts[best]].compositeFigi
  {
    k :| 0 <= k < |order| && order[k] == rows[j].compositeFigi;
    assert firsts[k] <= j;
  }

  lemma NotDominant(rows: seq<Row>, figi: string, i: nat)
    requires i < |rows| && Count(rows, figi) < Count(rows, rows[i].compositeFigi)
    ensures !Dominant(rows, figi)
  {
    hide Count;
  }

  lemma BestIsFirstDominant(rows: seq<Row>, order: seq<string>, firsts: seq<nat>, best: nat)
    requires FirstAppearances(rows, |rows|, order, firsts) && best < |order|
    requires forall j :: 0 <= j < |order| ==> Count(rows, order[j]) <= Count(rows, order[best])
    requires forall j :: 0 <= j < best ==> Count(rows, order[j]) < Count(rows, order[best])
    ensures rows[firsts[best]].compositeFigi == order[best] && Dominant(rows, order[best])
    ensures forall j :: 0 <= j < firsts[best] ==> !Dominant(rows, rows[j].compositeFigi)
  {
    hide Dominant, Count;
    BestIsDominant(rows, order, firsts, best);
    forall j | 0 <= j < firsts[best] ensures !Dominant(rows, rows[j].compositeFigi) {
      NoneDominantBefore(rows, order, firsts, best, j);
    }
  }

  lemma FirstRow(rows: seq<Row>, order: seq<string>, firsts: seq<nat>, best: nat)
    requires FirstAppearances(rows, |rows|, order, firsts) && best < |order|
    ensures FirstCarrying(rows, order[best]) == Some(rows[firsts[best]])
  {
    FirstCarryingAt(rows, order[best], firsts[best]);
  }

  lemma {:induction false} FirstCarryingAt(rows: seq<Row>, figi: string, at: nat)
    requires at < |rows| && rows[at].compositeFigi == figi
    requires forall j :: 0 <= j < at ==> rows[j].compositeFigi != figi
    ensures FirstCarrying(rows, figi) == Some(rows[at])
  {
    if at > 0 {
      FirstCarryingAt(rows[1..], figi, at - 1);
    }
  }

  // ----- the result for one ISIN

  predicate EndsWithCurrency(ticker: string) {
    |ticker| - 3 >= MIN_TICKER_STEM && ticker[|ticker| - 3..] in CURRENCY_SUFFIXES
  }

  function StripCurrencySuffix(ticker: string): string {
    if EndsWithCurrency(ticker) then ticker[..|ticker| - 3] else ticker
  }

  /** A ticker less a currency code it ends in, unless fewer than two characters would be left. */
  predicate IsStem(ticker: string, stem: string) {
    || (|stem| >= 2 && ticker in [stem + "EUR", stem + "USD", stem + "GBP", stem + "CHF"])
    || (stem == ticker && (|ticker| < 5 || ticker[|ticker| - 3..] !in ["EUR", "USD", "GBP", "CHF"]))
  }

  lemma StemIs(ticker: string)
    ensures IsStem(ticker, StripCurrencySuffix(ticker))
  {
    if EndsWithCurrency(ticker) {
      assert ticker == ticker[..|ticker| - 3] + ticker[|ticker| - 3..];
    }
  }

  function FromRows(isin: string, rows: seq<Row>): YahooTicker {
    match SelectHomeVenue(rows, isin)
    case None => YahooTicker(isin, None, None, None, NoMatch)
    case Some(s) =>
      if s.row.exchCode !in BBG_TO_YAHOO_SUFFIX then
        YahooTicker(isin, None, Some(s.row.exchCode), Some(s.row.compositeFigi), UnknownExch)
      else
        var ticker := StripCurrencySuffix(s.row.ticker) + BBG_TO_YAHOO_SUFFIX[s.row.exchCode];
        YahooTicker(isin, Some(ticker), Some(s.row.exchCode), Some(s.row.compositeFigi), s.source)
  }

  /** The service's reply for one ISIN: its rows, or None for a warning. */
  type Service = string -> Option<seq<RawRow>>

  /** The answer an ISIN has, by whatever path it is asked for. */
  function Answer(service: Service, isin: string): YahooTicker {
    var reply := service(isin);
    FromRows(isin, if reply.Some? then EquityRows(reply.value) else [])
  }

  /** Every home venue has a Yahoo suffix, so a ticker is missing only when nothing matched or on a foreign venue. */
  lemma NoGuessedTicker(isin: string, rows: seq<Row>)
    ensures
      var r := FromRows(isin, rows);
      && (r.yahooTicker.None? <==> r.source == NoMatch || r.source == UnknownExch)
      && (r.source == NoMatch <==> rows == [])
      && (FirstHome(rows, HomeVenues(isin)).Some? ==> r.source == HomeVenue || r.source == HomeVenueGrowth)
      && (r.source == HomeVenueGrowth ==> r.exchCode.Some? && r.exchCode.value in ["XS", "XH", "EO"])
      && (r.source == HomeVenue ==> r.exchCode.Some? && r.exchCode.value !in ["XS", "XH", "EO"])
  {
    SelectHomeVenueIsSelection(rows, isin);
    if FirstHome(rows, HomeVenues(isin)).Some? {
      HomeVenueListed(rows, HomeVenues(isin));
    }
  }

  /** A ticker that is given is the stem of the chosen row's with the suffix of its venue. */
  lemma TickerIs(isin: string, rows: seq<Row>)
    ensures
      var r, s := FromRows(isin, rows), SelectHomeVenue(rows, isin);
      && r.isin == isin
      && (s.None? ==> r.exchCode.None? && r.figi.None?)
      && (s.Some? ==> r.exchCode == Some(s.value.row.exchCode) && r.figi == Some(s.value.row.compositeFigi))
      && (r.yahooTicker.Some? ==>
          && s.Some? && r.source == s.value.source && s.value.row.exchCode in BBG_TO_YAHOO_SUFFIX
          && var suffix := BBG_TO_YAHOO_SUFFIX[s.value.row.exchCode];
             exists stem :: IsStem(s.value.row.ticker, stem) && r.yahooTicker.value == stem + suffix)
  {
    hide SelectHomeVenue, StripCurrencySuffix, IsStem;
    var s := SelectHomeVenue(rows, isin);
    if s.Some? {
      StemIs(s.value.row.ticker);
    }
  }

  /** An equity of one of two kinds, with a ticker and a venue. */
  predicate IsEquity(d: RawRow) {
    d.securityType in ["Common Stock", "REIT"] && d.marketSector == "Equity" && d.ticker != "" && d.exchCode != ""
  }

  lemma EquityHead(data: seq<RawRow>)
    requires data != []
    ensures
      EquityRows(data) ==
      (if IsEquity(data[0]) then [Row(data[0].ticker, data[0].exchCode, data[0].compositeFigi)] else [])
      + EquityRows(data[1..])
  {
  }

  /** The rows kept are those, in order. */
  lemma {:induction false} EquityRowsAre(before: seq<RawRow>, d: RawRow)
    ensures
      EquityRows(before + [d]) ==
      EquityRows(before) + if IsEquity(d) then [Row(d.ticker, d.exchCode, d.compositeFigi)] else []
  {
    hide EquityRows, IsEquity;
    EquityHead(before + [d]);
    if before == [] {
      assert (before + [d])[1..] == [];
      NoEquityRows();
    } else {
      EquityHead(before);
      assert (before + [d])[1..] == before[1..] + [d];
      EquityRowsAre(before[1..], d);
    }
  }

  lemma NoEquityRows()
    ensures EquityRows([]) == []
  {
  }

  lemma {:induction false} HomeVenueListed(rows: seq<Row>, venues: seq<string>)
    requires FirstHome(rows, venues).Some?
    ensures FirstHome(rows, venues).value.exchCode in venues && rows != []
  {
    if FirstOn(rows, venues[0]).Some? {
      FirstOnListed(rows, venues[0]);
    } else {
      HomeVenueListed(rows, venues[1..]);
    }
  }

  lemma {:induction false} FirstOnListed(rows: seq<Row>, exch: string)
    requires FirstOn(rows, exch).Some?
    ensures FirstOn(rows, exch).value.exchCode == exch && rows != []
  {
    if rows[0].exchCode != exch {
      FirstOnListed(rows[1..], exch);
    }
  }

  // ----- the resolver

  datatype Entry = Entry(result: YahooTicker, resolvedAt: int)

  /** The POST gave up after its retries. */
  datatype Failure = ServiceDown

  predicate Fresh(useCache: bool, cache: map<string, Entry>, isin: string, now: int) {
    useCache && isin in cache && now - cache[isin].resolvedAt <= CACHE_TTL
  }

  /** The ISINs a batch has to ask for, in order, repeats included. */
  function Uncached(useCache: bool, cache: map<string, Entry>, isins: seq<string>, now: int): seq<string> {
    if isins == [] then []
    else
      Uncached(useCache, cache, isins[..|isins| - 1], now)
      + if Fresh(useCache, cache, isins[|isins| - 1], now) then [] else [isins[|isins| - 1]]
  }

  /** One more ISIN is asked for unless the cache holds an answer no older than thirty days. */
  lemma UncachedIs(useCache: bool, cache: map<string, Entry>, before: seq<string>, isin: string, now: int)
    ensures
      var served := useCache && isin in cache && now - cache[isin].resolvedAt <= 30 * 86_400 * 1_000_000;
      Uncached(useCache, cache, before + [isin], now) ==
      Uncached(useCache, cache, before, now) + if served then [] else [isin]
  {
    assert (before + [isin])[..|before|] == before;
  }

  function Flatten(chunks: seq<seq<string>>): seq<string> {
    if chunks == [] then [] else Flatten(chunks[..|chunks| - 1]) + chunks[|chunks| - 1]
  }

  class OpenFigiResolver {
    const service: Service
    const useCache: bool
    /** Whether the n-th POST of this resolver's life gets through. */
    const up: nat -> bool
    var cache: map<string, Entry>
    /** The ISINs of every POST sent so far. */
    var posts: seq<seq<string>>

    constructor (service: Service, useCache: bool, up: nat -> bool)
      ensures this.service == service && this.useCache == useCache && this.up == up
      ensures posts == [] && Sound()
    {
      this.service, this.useCache, this.up := service, useCache, up;
      cache, posts := map[], [];
    }

    /** The cache holds nothing but the service's answers. */
    ghost predicate Sound()
      reads this
    {
      forall isin :: isin in cache ==> cache[isin].result == Answer(service, isin)
    }

    method CacheGet(isin: string, now: int) returns (r: Option<YahooTicker>)
      ensures r == if Fresh(useCache, cache, isin, now) then Some(cache[isin].result) else None
      ensures r.Some? <==> useCache && isin in cache && now - cache[isin].resolvedAt <= 30 * 86_400 * 1_000_000
    {
      if !useCache || isin !in cache {
        return None;
      }
      if now - cache[isin].resolvedAt > CACHE_TTL {
        return None;
      }
      return Some(cache[isin].result);
    }

    method CachePut(result: YahooTicker, now: int)
      requires Sound() && result == Answer(service, result.isin)
      modifies this`cache
      ensures Sound()
      ensures cache == if useCache then old(cache)[result.isin := Entry(result, now)] else old(cache)
    {
      if useCache {
        cache := cache[result.isin := Entry(result, now)];
      }
    }

    /** The reply array corresponds to the jobs position by position. */
    method Post(isins: seq<string>) returns (body: Result<seq<Option<seq<RawRow>>>, Failure>)
      modifies this`posts
      ensures posts == old(posts) + [isins]
      ensures body.Ok? <==> up(|old(posts)|)
      ensures body.Ok? ==>
        |body.value| == |isins| && forall i :: 0 <= i < |isins| ==> body.value[i] == service(isins[i])
    {
      var sent := |posts|;
      posts := posts + [isins];
      if !up(sent) {
        return Err(ServiceDown);
      }
      return Ok(seq(|isins|, i requires 0 <= i < |isins| => service(isins[i])));
    }

    method ResolveIsinToYahooTicker(isin: string, now: int) returns (r: Result<YahooTicker, Failure>)
      requires Sound()
      modifies this
      ensures Sound()
      ensures r.Ok? <==> Fresh(useCache, old(cache), isin, now) || up(|old(posts)|)
      ensures r.Ok? ==> r.value == Answer(service, isin)
      ensures posts == old(posts) + if Fresh(useCache, old(cache), isin, now) then [] else [[isin]]
    {
      hide FromRows;
      var cached := CacheGet(isin, now);
      if cached.Some? {
        return Ok(cached.value);
      }
      var body := Post([isin]);
      if body.Err? {
        return Err(ServiceDown);
      }
      var first := body.value[0];
      var result := FromRows(isin, if first.Some? then EquityRows(first.value) else []);
      ResultNamesIsin(isin, if first.Some? then EquityRows(first.value) else []);
      CachePut(result, now);
      return Ok(result);
    }

    /** The first loop of a batch: what the cache can serve, and what is left to ask for. */
    method ServeCached(isins: seq<string>, now: int) returns (out: map<string, YahooTicker>, pending: seq<string>)
      requires Sound()
      ensures pending == Uncached(useCache, cache, isins, now)
      ensures forall isin :: isin in out ==> isin in isins && out[isin] == Answer(service, isin)
      ensures forall isin :: isin in isins ==> isin in out || isin in pending
      ensures forall isin :: isin in pending ==> isin in isins
    {
      hide Answer;
      out, pending := map[], [];
      var i := 0;
      while i < |isins|
        invariant 0 <= i <= |isins|
        invariant pending == Uncached(useCache, cache, isins[..i], now)
        invariant forall isin :: isin in out <==> isin in isins[..i] && Fresh(useCache, cache, isin, now)
        invariant forall isin :: isin in out ==> out[isin] == Answer(service, isin)
        invariant forall isin :: isin in isins[..i] ==> isin in out || isin in pending
        invariant forall isin :: isin in pending ==> isin in isins
      {
        var isin := isins[i];
        assert isins[..i + 1][..i] == isins[..i] && isins[..i + 1] == isins[..i] + [isin];
        var cached := CacheGet(isin, now);
        if cached.Some? {
          out := out[isin := cached.value];
        } else if isin !in out {
          pending := pending + [isin];
        }
        i := i + 1;
      }
      assert isins[..i] == isins;
    }

    /** One POST of the second loop, and the answers it adds. */
    method ResolveChunk(chunk: seq<string>, now: int, out: map<string, YahooTicker>)
      returns (r: Result<map<string, YahooTicker>, Failure>)
      requires Sound()
      requires forall isin :: isin in out ==> out[isin] == Answer(service, isin)
      modifies this
      ensures Sound() && posts == old(posts) + [chunk]
      ensures r.Ok? <==> up(|old(posts)|)
      ensures r.Ok? ==> forall isin :: isin in r.value <==> isin in out || isin in chunk
      ensures r.Ok? ==> forall isin :: isin in r.value ==> r.value[isin] == Answer(service, isin)
    {
      hide Answer, FromRows;
      var body := Post(chunk);
      if body.Err? {
        return Err(ServiceDown);
      }
      var known := out;
      var k := 0;
      while k < |chunk|
        invariant 0 <= k <= |chunk|
        invariant Sound() && posts == old(posts) + [chunk]
        invariant forall isin :: isin in known <==> isin in out || isin in chunk[..k]
        invariant forall isin :: isin in known ==> known[isin] == Answer(service, isin)
      {
        var isin := chunk[k];
        var rows := if body.value[k].Some? then EquityRows(body.value[k].value) else [];
        var result := FromRows(isin, rows);
        AnswerIs(service, isin);
        ResultNamesIsin(isin, rows);
        CachePut(result, now);
        known := known[isin := result];
        k := k + 1;
      }
      return Ok(known);
    }

    /**
     Resolves many ISINs at once. When it succeeds the map has exactly the
     requested ISINs, each with the answer it has on its own; each POST carries
     1 to 100 ISINs, only the last fewer than 100, and together they are the
     uncached ones in order. When a POST fails, what was cached stays right.
     */
    method ResolveBatch(isins: seq<string>, now: int) returns (r: Result<map<string, YahooTicker>, Failure>)
      requires Sound()
      modifies this
      ensures Sound()
      ensures r.Ok? ==> r.value.Keys == set isin | isin in isins
      ensures r.Ok? ==> forall isin :: isin in isins ==> r.value[isin] == Answer(service, isin)
      ensures old(posts) <= posts
      ensures Chunked(posts[|old(posts)|..], Uncached(useCache, old(cache), isins, now), r.Ok?)
      ensures r.Ok? <==> forall i :: |old(posts)| <= i < |posts| ==> up(i)
    {
      hide Answer, Chunked, Uncached, Fresh;
      ghost var before := posts;
      var out, pending := ServeCached(isins, now);
      NoChunks(pending);
      assert posts[|before|..] == [];
      var start := 0;
      while start < |pending|
        invariant 0 <= start <= |pending|
        invariant Sound() && before <= posts
        invariant Chunked(posts[|before|..], pending[..start], true)
        invariant start < |pending| ==> AllFull(posts[|before|..])
        invariant forall j :: |before| <= j < |posts| ==> up(j)
        invariant forall isin :: isin in out ==> isin in isins && out[isin] == Answer(service, isin)
        invariant forall isin :: isin in isins ==> isin in out || isin in pending[start..]
      {
        var end := if start + MAX_JOBS_PER_REQUEST <= |pending| then start + MAX_JOBS_PER_REQUEST else |pending|;
        var chunk := pending[start..end];
        ChunkAppended(posts[|before|..], pending, start, end);
        assert (posts + [chunk])[|before|..] == posts[|before|..] + [chunk];
        assert forall isin :: isin in chunk ==> isin in pending;
        var resolved := ResolveChunk(chunk, now, out);
        if resolved.Err? {
          ChunkedPart(posts[|before|..], pending, end);
          return Err(ServiceDown);
        }
        out := resolved.value;
        assert pending[start..] == chunk + pending[end..];
        start := end;
      }
      assert pending[..start] == pending;
      return Ok(out);
    }
  }

  lemma ResultNamesIsin(isin: string, rows: seq<Row>)
    ensures FromRows(isin, rows).isin == isin
  {
  }

  lemma AnswerIs(service: Service, isin: string)
    ensures Answer(service, isin) == FromRows(isin, if service(isin).Some? then EquityRows(service(isin).value) else [])
  {
  }

  ghost predicate AllFull(chunks: seq<seq<string>>) {
    forall i :: 0 <= i < |chunks| ==> |chunks[i]| == 100
  }

  /** Nonempty chunks of at most 100, all but the last full, that make up `items`, or a first part of them. */
  ghost predicate Chunked(chunks: seq<seq<string>>, items: seq<string>, complete: bool) {
    && (forall i :: 0 <= i < |chunks| ==> 1 <= |chunks[i]| <= 100)
    && (forall i :: 0 <= i < |chunks| - 1 ==> |chunks[i]| == 100)
    && Flatten(chunks) <= items
    && (complete ==> Flatten(chunks) == items)
  }

  lemma NoChunks(pending: seq<string>)
    ensures Chunked([], pending[..0], true) && AllFull([])
  {
  }

  lemma ChunkedPart(chunks: seq<seq<string>>, pending: seq<string>, end: nat)
    requires end <= |pending| && Chunked(chunks, pending[..end], true)
    ensures Chunked(chunks, pending, false)
  {
    assert pending[..end] <= pending;
  }

  lemma ChunkAppended(chunks: seq<seq<string>>, pending: seq<string>, start: nat, end: nat)
    requires start < end <= |pending| && end <= start + MAX_JOBS_PER_REQUEST
    requires Chunked(chunks, pending[..start], true) && AllFull(chunks)
    ensures Chunked(chunks + [pending[start..end]], pending[..end], true)
    ensures end == start + MAX_JOBS_PER_REQUEST ==> AllFull(chunks + [pending[start..end]])
  {
    var more := chunks + [pending[start..end]];
    assert more[..|more| - 1] == chunks;
    assert pending[..start] + pending[start..end] == pending[..end];
  }
}
