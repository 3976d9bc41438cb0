/**
 The two money-amount normalisers: `_normalise_amount` of the AMF parser
 (src/ingestion/amf/parser.py) and the one inside `_extract_cash_price` of the
 BaFin parser (src/ingestion/bafin/parser.py), with the grammars that feed them.
 */
module Amounts {
  import opened Characters
  import opened Common

  // ----- characters and numbers

  predicate IsDigit(c: char) {
    '0' <= c <= '9'
  }

  predicate IsPoint(c: char) {
    c == '.' || c == ','
  }

  function DigitValue(c: char): nat
    requires IsDigit(c)
  {
    c as int - '0' as int
  }

  predicate AllDigits(s: string) {
    forall i :: 0 <= i < |s| ==> IsDigit(s[i])
  }

  /** The digits of a string, in order. */
  function Digits(s: string): (d: string)
    ensures AllDigits(d)
  {
    if s == "" then "" else Digits(s[..|s| - 1]) + if IsDigit(s[|s| - 1]) then [s[|s| - 1]] else ""
  }

  function Number(digits: string): nat
    requires AllDigits(digits)
  {
    if digits == "" then 0 else 10 * Number(digits[..|digits| - 1]) + DigitValue(digits[|digits| - 1])
  }

  function Pow10(n: nat): nat {
    if n == 0 then 1 else 10 * Pow10(n - 1)
  }

  /** unscaled / 10^scale. */
  datatype Decimal = Decimal(unscaled: nat, scale: nat)

  /** Numerically equal. */
  predicate Same(a: Decimal, b: Decimal) {
    a.unscaled * Pow10(b.scale) == b.unscaled * Pow10(a.scale)
  }

  /** The digits after the last mark, if there is a mark. */
  datatype Tail = NoMark | After(digits: nat)

  function TailAfter(s: string, comma: bool, dot: bool): Tail {
    if s == "" then NoMark
    else
      var c := s[|s| - 1];
      if (comma && c == ',') || (dot && c == '.') then After(0)
      else
        match TailAfter(s[..|s| - 1], comma, dot)
        case NoMark => NoMark
        case After(n) => After(if IsDigit(c) then n + 1 else n)
  }

  function Scale(t: Tail): nat {
    if t.NoMark? then 0 else t.digits
  }

  function CountOf(s: string, c: char): nat {
    if s == "" then 0 else CountOf(s[..|s| - 1], c) + if s[|s| - 1] == c then 1 else 0
  }

  predicate DigitsAndDots(s: string) {
    forall i :: 0 <= i < |s| ==> IsDigit(s[i]) || s[i] == '.'
  }

  /** `Decimal(s)` on strings of digits and dots: one dot at most, one digit at least. */
  function ParseDecimal(s: string): Option<Decimal> {
    if DigitsAndDots(s) && CountOf(s, '.') <= 1 && Digits(s) != "" then
      Some(Decimal(Number(Digits(s)), Scale(TailAfter(s, false, true))))
    else None
  }

  // ----- the normalisers

  function DropSpaces(s: string): string {
    if s == "" then "" else DropSpaces(s[..|s| - 1]) + if IsSpace(s[|s| - 1]) then "" else [s[|s| - 1]]
  }

  function Remove(s: string, c: char): string {
    if s == "" then "" else Remove(s[..|s| - 1], c) + if s[|s| - 1] == c then "" else [s[|s| - 1]]
  }

  function CommaToDot(s: string): string {
    if s == "" then "" else CommaToDot(s[..|s| - 1]) + [if s[|s| - 1] == ',' then '.' else s[|s| - 1]]
  }

  /** What is before and after the last dot. */
  function RPartition(s: string): (string, string)
    requires CountOf(s, '.') >= 1
  {
    if s[|s| - 1] == '.' then (s[..|s| - 1], "")
    else var (head, tail) := RPartition(s[..|s| - 1]); (head, tail + [s[|s| - 1]])
  }

  function NormaliseAmf(raw: string): Option<Decimal> {
    var s := CommaToDot(DropSpaces(raw));
    if CountOf(s, '.') > 1 then
      var (head, tail) := RPartition(s);
      ParseDecimal(Remove(head, '.') + "." + tail)
    else ParseDecimal(s)
  }

  function NormaliseBafin(raw: string): Option<Decimal> {
    ParseDecimal(CommaToDot(Remove(Remove(raw, ' '), '.')))
  }

  // ----- the grammars

  /** A group of three digits and the separator before it. */
  datatype Thousand = Thousand(separator: char, digits: string)

  datatype Amount = Amount(head: string, groups: seq<Thousand>, fraction: Option<Thousand>)

  function GroupsText(groups: seq<Thousand>): string {
    if groups == [] then ""
    else GroupsText(groups[..|groups| - 1]) + ([groups[|groups| - 1].separator] + groups[|groups| - 1].digits)
  }

  function FractionText(fraction: Option<Thousand>): string {
    if fraction.None? then "" else [fraction.value.separator] + fraction.value.digits
  }

  function Text(a: Amount): string {
    a.head + GroupsText(a.groups) + FractionText(a.fraction)
  }

  predicate Shaped(a: Amount) {
    && 1 <= |a.head| <= 3 && AllDigits(a.head)
    && (forall i :: 0 <= i < |a.groups| ==> |a.groups[i].digits| == 3 && AllDigits(a.groups[i].digits))
    && (a.fraction.Some? ==> IsPoint(a.fraction.value.separator) && AllDigits(a.fraction.value.digits))
  }

  /** `\d{1,3}(?:[\s.]\d{3})*(?:[,.]\d{1,4})?` */
  predicate AmfAmount(a: Amount) {
    && Shaped(a)
    && (forall i :: 0 <= i < |a.groups| ==> a.groups[i].separator == '.' || IsSpace(a.groups[i].separator))
    && (a.fraction.Some? ==> 1 <= |a.fraction.value.digits| <= 4)
  }

  /** `\d{1,3}(?:[ .]\d{3})*[,.]\d{2,4}` */
  predicate BafinAmount(a: Amount) {
    && Shaped(a)
    && (forall i :: 0 <= i < |a.groups| ==> a.groups[i].separator == '.' || a.groups[i].separator == ' ')
    && a.fraction.Some? && 2 <= |a.fraction.value.digits| <= 4
  }

  // ----- what the text functions do to digits and marks

  /** One more character on the right, for each function that reads a text. */
  lemma Snoc(s: string, c: char, comma: bool, dot: bool)
    ensures Digits(s + [c]) == if IsDigit(c) then Digits(s) + [c] else Digits(s)
    ensures CountOf(s + [c], '.') == CountOf(s, '.') + if c == '.' then 1 else 0
    ensures CountOf(s + [c], ',') == CountOf(s, ',') + if c == ',' then 1 else 0
    ensures TailAfter(s + [c], comma, dot) == NextTail(TailAfter(s, comma, dot), c, comma, dot)
  {
    assert (s + [c])[..|s|] == s;
  }

  function NextTail(t: Tail, c: char, comma: bool, dot: bool): Tail {
    if (comma && c == ',') || (dot && c == '.') then After(0)
    else if t.After? && IsDigit(c) then After(t.digits + 1)
    else t
  }

  /** One more character on the right, for each function that rewrites a text. */
  lemma SnocRewritten(s: string, c: char)
    ensures CommaToDot(s + [c]) == CommaToDot(s) + [if c == ',' then '.' else c]
    ensures DropSpaces(s + [c]) == if IsSpace(c) then DropSpaces(s) else DropSpaces(s) + [c]
  {
    hide IsSpace;
    assert (s + [c])[..|s|] == s;
  }

  lemma SnocRemoved(s: string, c: char, x: char)
    ensures Remove(s + [c], x) == if c == x then Remove(s, x) else Remove(s, x) + [c]
  {
    assert (s + [c])[..|s|] == s;
  }

  lemma Classes(c: char)
    ensures IsSpace(c) ==> !IsDigit(c) && !IsPoint(c)
    ensures IsDigit(c) ==> !IsPoint(c)
  {
  }

  lemma {:induction false} DigitsAppend(a: string, b: string)
    ensures Digits(a + b) == Digits(a) + Digits(b)
  {
    if b == "" {
      assert a + b == a;
    } else {
      assert (a + b)[..|a + b| - 1] == a + b[..|b| - 1];
      DigitsAppend(a, b[..|b| - 1]);
    }
  }

  lemma {:induction false} DigitsOfDigits(s: string)
    requires AllDigits(s)
    ensures Digits(s) == s
    ensures CountOf(s, '.') == 0 && CountOf(s, ',') == 0
    ensures forall comma, dot :: TailAfter(s, comma, dot) == NoMark
  {
    if s != "" {
      hide Digits, CountOf, TailAfter;
      var front, c := s[..|s| - 1], s[|s| - 1];
      assert s == front + [c];
      DigitsOfDigits(front);
      forall comma, dot ensures TailAfter(s, comma, dot) == NoMark {
        Snoc(front, c, comma, dot);
      }
      Snoc(front, c, true, true);
    }
  }

  lemma {:induction false} TailAppend(a: string, b: string, comma: bool, dot: bool)
    ensures TailAfter(a + b, comma, dot) ==
            match TailAfter(b, comma, dot)
            case After(n) => After(n)
            case NoMark =>
              match TailAfter(a, comma, dot)
              case NoMark => NoMark
              case After(m) => After(m + |Digits(b)|)
  {
    if b == "" {
      assert a + b == a;
    } else {
      assert (a + b)[..|a + b| - 1] == a + b[..|b| - 1];
      TailAppend(a, b[..|b| - 1], comma, dot);
    }
  }

  lemma {:induction false} CountAppend(a: string, b: string, c: char)
    ensures CountOf(a + b, c) == CountOf(a, c) + CountOf(b, c)
  {
    if b == "" {
      assert a + b == a;
    } else {
      assert (a + b)[..|a + b| - 1] == a + b[..|b| - 1];
      CountAppend(a, b[..|b| - 1], c);
    }
  }

  /** Only digits, spaces and marks. */
  predicate MoneyText(s: string) {
    forall i :: 0 <= i < |s| ==> IsDigit(s[i]) || IsSpace(s[i]) || IsPoint(s[i])
  }

  lemma {:induction false} SpacesDropped(s: string)
    requires MoneyText(s)
    ensures
      var t := CommaToDot(DropSpaces(s));
      && DigitsAndDots(t) && Digits(t) == Digits(s)
      && TailAfter(t, false, true) == TailAfter(s, true, true)
  {
    hide Digits, TailAfter, CountOf, IsSpace, IsDigit, DropSpaces, CommaToDot, IsPoint;
    if s == "" {
      NothingDropped();
    } else {
      var front, c := s[..|s| - 1], s[|s| - 1];
      assert s == front + [c];
      SpacesDropped(front);
      SpaceOrNot(front, c);
    }
  }

  lemma NothingDropped()
    ensures CommaToDot(DropSpaces("")) == "" && Digits("") == ""
    ensures TailAfter("", false, true) == NoMark && TailAfter("", true, true) == NoMark
  {
  }

  /** One more character through both rewritings. */
  lemma SpaceOrNot(front: string, c: char)
    requires IsDigit(c) || IsSpace(c) || IsPoint(c)
    requires
      var t := CommaToDot(DropSpaces(front));
      && DigitsAndDots(t) && Digits(t) == Digits(front)
      && TailAfter(t, false, true) == TailAfter(front, true, true)
    ensures
      var t := CommaToDot(DropSpaces(front + [c]));
      && DigitsAndDots(t) && Digits(t) == Digits(front + [c])
      && TailAfter(t, false, true) == TailAfter(front + [c], true, true)
  {
    hide Digits, TailAfter, CountOf, IsSpace, IsDigit, DropSpaces, CommaToDot;
    Classes(c);
    Classes('.');
    Snoc(front, c, true, true);
    SnocRewritten(front, c);
    if !IsSpace(c) {
      SnocRewritten(DropSpaces(front), c);
      Snoc(CommaToDot(DropSpaces(front)), if c == ',' then '.' else c, false, true);
    }
  }

  lemma {:induction false} RPartitionFacts(s: string)
    requires DigitsAndDots(s) && CountOf(s, '.') >= 1
    ensures
      var (head, tail) := RPartition(s);
      s == head + "." + tail && DigitsAndDots(head) && AllDigits(tail) && TailAfter(s, false, true) == After(|tail|)
  {
    if s[|s| - 1] != '.' {
      RPartitionFacts(s[..|s| - 1]);
    }
  }

  lemma {:induction false} DotsRemoved(s: string)
    requires DigitsAndDots(s)
    ensures AllDigits(Remove(s, '.')) && Remove(s, '.') == Digits(s)
  {
    if s != "" {
      DotsRemoved(s[..|s| - 1]);
    }
  }

  lemma DottedDigits(whole: string, part: string)
    requires AllDigits(whole) && AllDigits(part)
    ensures DigitsAndDots(whole + ['.'] + part)
  {
    hide IsDigit;
  }

  /** `whole.part`, both of digits, is a decimal with as many places as the part has digits. */
  lemma ParseWholeAndPart(whole: string, part: string)
    requires AllDigits(whole) && AllDigits(part) && whole + part != ""
    ensures ParseDecimal(whole + "." + part) == Some(Decimal(Number(whole + part), |part|))
  {
    hide Digits, CountOf, TailAfter, Number, IsDigit, DigitsAndDots;
    var dotted := whole + ['.'];
    DigitsOfDigits(whole);
    DigitsOfDigits(part);
    Snoc(whole, '.', false, true);
    DigitsAppend(dotted, part);
    CountAppend(dotted, part, '.');
    TailAppend(dotted, part, false, true);
    Classes('.');
    DottedDigits(whole, part);
    assert whole + "." + part == dotted + part;
  }

  /**
   What the AMF normaliser reads: all the digits, with the last mark, be it dot
   or comma, as the decimal point. Every text with a digit is read.
   */
  lemma AmfMeaning(s: string)
    requires MoneyText(s) && Digits(s) != ""
    ensures NormaliseAmf(s) == Some(Decimal(Number(Digits(s)), Scale(TailAfter(s, true, true))))
  {
    hide Digits, CountOf, TailAfter, Number, DropSpaces, CommaToDot, RPartition, Remove;
    var t := CommaToDot(DropSpaces(s));
    SpacesDropped(s);
    if CountOf(t, '.') > 1 {
      var (head, tail) := RPartition(t);
      RPartitionFacts(t);
      DotsRemoved(head);
      DigitsOfDigits(tail);
      Snoc(head, '.', false, true);
      assert t == (head + ['.']) + tail;
      DigitsAppend(head + ['.'], tail);
      assert Digits(t) == Remove(head, '.') + tail;
      ParseWholeAndPart(Remove(head, '.'), tail);
    }
  }

  /** Digits, plain spaces, dots, and one comma at most. */
  predicate BafinText(s: string) {
    && (forall i :: 0 <= i < |s| ==> IsDigit(s[i]) || s[i] == ' ' || IsPoint(s[i]))
    && CountOf(s, ',') <= 1
  }

  lemma {:induction false} Removed(s: string, x: char)
    requires !IsDigit(x) && x != ','
    ensures
      var t := Remove(s, x);
      && Digits(t) == Digits(s) && CountOf(t, ',') == CountOf(s, ',')
      && TailAfter(t, true, false) == TailAfter(s, true, false)
  {
    if s != "" {
      hide Digits, TailAfter, CountOf, Remove, IsDigit;
      var front, c := s[..|s| - 1], s[|s| - 1];
      assert s == front + [c];
      Removed(front, x);
      Snoc(front, c, true, false);
      SnocRemoved(front, c, x);
      Snoc(Remove(front, x), c, true, false);
    }
  }

  lemma {:induction false} RemovedCharacters(s: string, x: char)
    ensures forall i :: 0 <= i < |Remove(s, x)| ==> Remove(s, x)[i] in s && Remove(s, x)[i] != x
  {
    if s != "" {
      RemovedCharacters(s[..|s| - 1], x);
    }
  }

  lemma DigitsAndDotsSnoc(s: string, c: char)
    requires DigitsAndDots(s) && (IsDigit(c) || c == '.')
    ensures DigitsAndDots(s + [c])
  {
    hide IsDigit;
  }

  lemma {:induction false} CommasTurned(s: string)
    requires forall i :: 0 <= i < |s| ==> IsDigit(s[i]) || s[i] == ','
    ensures
      var t := CommaToDot(s);
      && DigitsAndDots(t) && Digits(t) == Digits(s) && CountOf(t, '.') == CountOf(s, ',')
      && TailAfter(t, false, true) == TailAfter(s, true, false)
  {
    if s != "" {
      hide Digits, TailAfter, CountOf, CommaToDot, IsDigit, DigitsAndDots;
      var front, c := s[..|s| - 1], s[|s| - 1];
      assert s == front + [c];
      CommasTurned(front);
      DigitsAndDotsSnoc(CommaToDot(front), if c == ',' then '.' else c);
      Classes(c);
      Classes('.');
      Snoc(front, c, true, false);
      SnocRewritten(front, c);
      Snoc(CommaToDot(front), if c == ',' then '.' else c, false, true);
    }
  }

  lemma BafinCleaned(s: string)
    requires forall i :: 0 <= i < |s| ==> IsDigit(s[i]) || s[i] == ' ' || IsPoint(s[i])
    ensures
      var t := CommaToDot(Remove(Remove(s, ' '), '.'));
      && DigitsAndDots(t) && Digits(t) == Digits(s) && CountOf(t, '.') == CountOf(s, ',')
      && TailAfter(t, false, true) == TailAfter(s, true, false)
  {
    hide Digits, TailAfter, CountOf, CommaToDot, Remove;
    Removed(s, ' ');
    RemovedCharacters(s, ' ');
    Removed(Remove(s, ' '), '.');
    RemovedCharacters(Remove(s, ' '), '.');
    CommasTurned(Remove(Remove(s, ' '), '.'));
  }

  /** What the BaFin normaliser reads: all the digits, with the comma alone as the decimal point. */
  lemma BafinMeaning(s: string)
    requires BafinText(s) && Digits(s) != ""
    ensures NormaliseBafin(s) == Some(Decimal(Number(Digits(s)), Scale(TailAfter(s, true, false))))
  {
    BafinCleaned(s);
  }

  // ----- amounts of the grammars

  function GroupDigits(groups: seq<Thousand>): string {
    if groups == [] then "" else GroupDigits(groups[..|groups| - 1]) + groups[|groups| - 1].digits
  }

  function AmountDigits(a: Amount): string {
    a.head + GroupDigits(a.groups) + if a.fraction.Some? then a.fraction.value.digits else ""
  }

  predicate Separators(groups: seq<Thousand>) {
    forall i :: 0 <= i < |groups| ==>
      |groups[i].digits| == 3 && AllDigits(groups[i].digits)
          && (groups[i].separator == '.' || IsSpace(groups[i].separator))
  }

  /** One mark, or space, and the digits after it. */
  lemma MarkFacts(mark: char, digits: string)
    requires AllDigits(digits) && !IsDigit(mark)
    ensures
      var s := [mark] + digits;
      && Digits(s) == digits && CountOf(s, ',') == (if mark == ',' then 1 else 0)
      && (forall comma, dot :: TailAfter(s, comma, dot) ==
            if (comma && mark == ',') || (dot && mark == '.') then After(|digits|) else NoMark)
  {
    hide IsDigit;
    DigitsOfDigits(digits);
    var start := "" + [mark];
    assert [mark] == start;
    DigitsAppend(start, digits);
    CountAppend(start, digits, ',');
    Snoc("", mark, true, true);
    forall comma, dot
      ensures TailAfter(start + digits, comma, dot) ==
              if (comma && mark == ',') || (dot && mark == '.') then After(|digits|) else NoMark
    {
      Snoc("", mark, comma, dot);
      TailAppend(start, digits, comma, dot);
    }
  }

  lemma {:induction false} GroupsMoney(groups: seq<Thousand>)
    requires Separators(groups)
    ensures MoneyText(GroupsText(groups)) && AllDigits(GroupDigits(groups))
  {
    if groups != [] {
      hide IsDigit, IsSpace;
      GroupsMoney(groups[..|groups| - 1]);
    }
  }

  lemma {:induction false} GroupsFacts(groups: seq<Thousand>)
    requires Separators(groups)
    ensures
      var s := GroupsText(groups);
      && Digits(s) == GroupDigits(groups) && CountOf(s, ',') == 0
      && TailAfter(s, true, false) == NoMark
  {
    if groups != [] {
      hide Digits, CountOf, TailAfter, IsDigit, IsSpace;
      var front, g := groups[..|groups| - 1], groups[|groups| - 1];
      GroupsFacts(front);
      Classes(g.separator);
      Classes('.');
      MarkFacts(g.separator, g.digits);
      DigitsAppend(GroupsText(front), [g.separator] + g.digits);
      CountAppend(GroupsText(front), [g.separator] + g.digits, ',');
      TailAppend(GroupsText(front), [g.separator] + g.digits, true, false);
    }
  }

  /** What a well-shaped amount reads as, before its fraction. */
  lemma WholeFacts(a: Amount)
    requires Shaped(a) && Separators(a.groups)
    ensures
      var s := a.head + GroupsText(a.groups);
      && Digits(s) == a.head + GroupDigits(a.groups) && MoneyText(s) && CountOf(s, ',') == 0
      && TailAfter(s, true, false) == NoMark
  {
    hide Digits, CountOf, TailAfter, IsDigit, IsSpace;
    GroupsFacts(a.groups);
    GroupsMoney(a.groups);
    DigitsOfDigits(a.head);
    DigitsAppend(a.head, GroupsText(a.groups));
    CountAppend(a.head, GroupsText(a.groups), ',');
    TailAppend(a.head, GroupsText(a.groups), true, false);
  }

  lemma TextFacts(a: Amount)
    requires Shaped(a) && Separators(a.groups)
    ensures AllDigits(AmountDigits(a)) && Digits(Text(a)) == AmountDigits(a) && AmountDigits(a) != ""
        && MoneyText(Text(a))
    ensures CountOf(Text(a), ',') <= 1
    ensures a.fraction.Some? ==> TailAfter(Text(a), true, true) == After(|a.fraction.value.digits|)
    ensures TailAfter(Text(a), true, false) ==
            if a.fraction.Some? && a.fraction.value.separator == ',' then After(|a.fraction.value.digits|) else NoMark
  {
    hide Digits, CountOf, TailAfter, IsDigit, IsSpace, GroupsText, GroupDigits;
    var whole := a.head + GroupsText(a.groups);
    WholeFacts(a);
    GroupsMoney(a.groups);
    if a.fraction.Some? {
      var f := a.fraction.value;
      Classes(f.separator);
      NotDigit(f.separator);
      MarkFacts(f.separator, f.digits);
      DigitsAppend(whole, FractionText(a.fraction));
      CountAppend(whole, FractionText(a.fraction), ',');
      TailAppend(whole, FractionText(a.fraction), true, true);
      TailAppend(whole, FractionText(a.fraction), true, false);
    } else {
      assert Text(a) == whole;
    }
  }

  lemma NotDigit(c: char)
    ensures IsPoint(c) ==> !IsDigit(c)
  {
  }

  /** No amount the AMF pattern captures fails to convert; with a fraction it is the number written. */
  lemma AmfTotal(a: Amount)
    requires AmfAmount(a)
    ensures NormaliseAmf(Text(a)).Some?
    ensures AllDigits(AmountDigits(a)) && NormaliseAmf(Text(a)).value.unscaled == Number(AmountDigits(a))
    ensures a.fraction.Some? ==> NormaliseAmf(Text(a)).value.scale == |a.fraction.value.digits|
  {
    hide Text, NormaliseAmf, Digits, TailAfter, MoneyText;
    TextFacts(a);
    AmfMeaning(Text(a));
  }

  /** No amount the BaFin pattern captures fails to convert; a dot before the fraction is dropped like the others. */
  lemma BafinTotal(a: Amount)
    requires BafinAmount(a)
    ensures AllDigits(AmountDigits(a))
    ensures
      NormaliseBafin(Text(a)) ==
      Some(Decimal(Number(AmountDigits(a)), if a.fraction.value.separator == ',' then |a.fraction.value.digits| else 0))
  {
    hide NormaliseBafin, Digits, TailAfter, CountOf;
    assert IsSpace(' ');
    TextFacts(a);
    BafinIsText(a);
    BafinMeaning(Text(a));
  }

  lemma BafinIsText(a: Amount)
    requires BafinAmount(a)
    ensures forall i :: 0 <= i < |Text(a)| ==> IsDigit(Text(a)[i]) || Text(a)[i] == ' ' || IsPoint(Text(a)[i])
  {
    hide IsDigit;
    GroupsPlain(a.groups);
  }

  lemma {:induction false} GroupsPlain(groups: seq<Thousand>)
    requires forall i :: 0 <= i < |groups| ==>
      AllDigits(groups[i].digits) && (groups[i].separator == '.' || groups[i].separator == ' ')
    ensures forall i :: 0 <= i < |GroupsText(groups)| ==>
              IsDigit(GroupsText(groups)[i]) || GroupsText(groups)[i] == ' ' || IsPoint(GroupsText(groups)[i])
  {
    hide IsDigit;
    if groups != [] {
      GroupsPlain(groups[..|groups| - 1]);
    }
  }

  lemma {:induction false} Pow10Grows(n: nat)
    ensures Pow10(n) >= 1 && (n > 0 ==> Pow10(n) > 1)
  {
    if n > 0 {
      Pow10Grows(n - 1);
    }
  }

  /**
   Every amount the BaFin pattern captures the AMF pattern captures too, and the
   two normalisers agree on it exactly when its decimal mark is a comma, or it
   is zero anyway. With a dot, BaFin reads 12.50 as 1250.
   */
  lemma NormalisersAgreeIff(a: Amount)
    requires BafinAmount(a)
    ensures AmfAmount(a) && AllDigits(AmountDigits(a))
    ensures NormaliseAmf(Text(a)).Some? && NormaliseBafin(Text(a)).Some?
    ensures
      Same(NormaliseAmf(Text(a)).value, NormaliseBafin(Text(a)).value) <==>
      a.fraction.value.separator == ',' || Number(AmountDigits(a)) == 0
  {
    hide NormaliseAmf, NormaliseBafin, Text, Number;
    assert IsSpace(' ');
    AmfTotal(a);
    BafinTotal(a);
    Pow10Grows(|a.fraction.value.digits|);
    var n, p := Number(AmountDigits(a)), Pow10(|a.fraction.value.digits|);
    ScaledDiffers(n, p);
    assert Pow10(0) == 1;
  }

  lemma ScaledDiffers(n: nat, p: nat)
    requires p > 1
    ensures n * 1 == n * p <==> n == 0
  {
    if n > 0 {
      assert n * p - n == n * (p - 1);
      assert n * (p - 1) > 0;
    }
  }

  // ----- printing and reading back

  /** Digits grouped by threes from the right. */
  function Grouped(digits: string, separator: char): Amount
    requires digits != ""
  {
    if |digits| <= 3 then Amount(digits, [], None)
    else
      var front := Grouped(digits[..|digits| - 3], separator);
      front.(groups := front.groups + [Thousand(separator, digits[|digits| - 3..])])
  }

  ghost predicate GroupsShaped(groups: seq<Thousand>, separator: char) {
    forall i :: 0 <= i < |groups| ==>
      groups[i].separator == separator && |groups[i].digits| == 3 && AllDigits(groups[i].digits)
  }

  lemma GroupDigitsSnoc(groups: seq<Thousand>, g: Thousand)
    ensures GroupDigits(groups + [g]) == GroupDigits(groups) + g.digits
  {
    assert (groups + [g])[..|groups|] == groups;
  }

  lemma GroupedMore(digits: string, separator: char)
    requires |digits| > 3
    ensures
      var most, end := digits[..|digits| - 3], digits[|digits| - 3..];
      var front := Grouped(most, separator);
      Grouped(digits, separator) == Amount(front.head, front.groups + [Thousand(separator, end)], front.fraction)
  {
  }

  /** A grouping of these digits: a head of one to three, then groups of three, and no fraction. */
  ghost predicate IsGrouping(a: Amount, digits: string, separator: char) {
    && 1 <= |a.head| <= 3 && AllDigits(a.head) && a.fraction == None
    && GroupsShaped(a.groups, separator)
    && a.head + GroupDigits(a.groups) == digits
    && |digits| == |a.head| + 3 * |a.groups|
  }

  lemma OneMoreGroup(a: Amount, digits: string, end: string, separator: char)
    requires IsGrouping(a, digits, separator) && |end| == 3 && AllDigits(end)
    ensures IsGrouping(Amount(a.head, a.groups + [Thousand(separator, end)], a.fraction), digits + end, separator)
  {
    hide IsDigit, AllDigits, GroupDigits;
    GroupDigitsSnoc(a.groups, Thousand(separator, end));
    assert a.head + (GroupDigits(a.groups) + end) == (a.head + GroupDigits(a.groups)) + end;
  }

  lemma {:induction false} GroupedFacts(digits: string, separator: char)
    requires digits != "" && AllDigits(digits)
    ensures IsGrouping(Grouped(digits, separator), digits, separator)
  {
    if |digits| <= 3 {
      assert GroupDigits([]) == "";
    } else {
      hide IsDigit, IsGrouping, Grouped;
      var most, end := digits[..|digits| - 3], digits[|digits| - 3..];
      assert digits == most + end;
      GroupedMore(digits, separator);
      GroupedFacts(most, separator);
      OneMoreGroup(Grouped(most, separator), most, end, separator);
    }
  }

  /** `whole,part` with the whole grouped by threes. */
  function Printed(whole: string, separator: char, part: string): Amount
    requires whole != ""
  {
    Grouped(whole, separator).(fraction := Some(Thousand(',', part)))
  }

  /** Reading undoes printing, for both parsers, with spaces or dots between the groups. */
  lemma PrintedReadsBack(whole: string, separator: char, part: string)
    requires whole != "" && AllDigits(whole) && AllDigits(part) && 2 <= |part| <= 4
    requires separator == ' ' || separator == '.'
    ensures
      var a := Printed(whole, separator, part);
      && BafinAmount(a) && AmfAmount(a)
      && NormaliseAmf(Text(a)) == Some(Decimal(Number(whole + part), |part|))
      && NormaliseBafin(Text(a)) == Some(Decimal(Number(whole + part), |part|))
  {
    hide NormaliseAmf, NormaliseBafin, Text, Number;
    assert IsSpace(' ');
    GroupedFacts(whole, separator);
    var a := Printed(whole, separator, part);
    assert AmountDigits(a) == whole + part;
    AmfTotal(a);
    BafinTotal(a);
  }

  lemma {:induction false} DottedGroupsTail(groups: seq<Thousand>)
    requires Separators(groups) && forall i :: 0 <= i < |groups| ==> groups[i].separator == '.'
    ensures TailAfter(GroupsText(groups), true, true) == if groups == [] then NoMark else After(3)
  {
    if groups != [] {
      hide TailAfter, IsDigit, IsSpace;
      var front, g := groups[..|groups| - 1], groups[|groups| - 1];
      Classes('.');
      NotDigit('.');
      MarkFacts('.', g.digits);
      TailAppend(GroupsText(front), ['.'] + g.digits, true, true);
    }
  }

  /** A whole amount with dots between the groups is read with its last three digits as decimals. */
  lemma DottedWholeMeaning(whole: string)
    requires whole != "" && AllDigits(whole)
    ensures AmfAmount(Grouped(whole, '.'))
    ensures NormaliseAmf(Text(Grouped(whole, '.'))) == Some(Decimal(Number(whole), if |whole| <= 3 then 0 else 3))
  {
    hide *;
    var a := Grouped(whole, '.');
    GroupedIsAmf(whole, '.');
    TextFacts(a);
    AmfMeaning(Text(a));
    DottedTail(a);
    ScaleOfTail(if |whole| <= 3 then NoMark else After(3));
  }

  lemma ScaleOfTail(t: Tail)
    ensures t == NoMark ==> Scale(t) == 0
    ensures t.After? ==> Scale(t) == t.digits
  {
  }

  /** Grouping gives an amount the AMF pattern captures, with the same digits and no fraction. */
  lemma GroupedIsAmf(whole: string, separator: char)
    requires whole != "" && AllDigits(whole) && (separator == '.' || IsSpace(separator))
    ensures
      var a := Grouped(whole, separator);
      && AmfAmount(a) && Shaped(a) && Separators(a.groups) && AllDigits(a.head) && a.fraction == None
      && AllDigits(AmountDigits(a)) && AmountDigits(a) == whole
      && (a.groups == [] <==> |whole| <= 3)
      && (forall i :: 0 <= i < |a.groups| ==> a.groups[i].separator == separator)
  {
    hide IsSpace, IsDigit;
    GroupedFacts(whole, separator);
  }

  lemma DottedTail(a: Amount)
    requires AllDigits(a.head) && a.fraction == None && Separators(a.groups)
    requires forall i :: 0 <= i < |a.groups| ==> a.groups[i].separator == '.'
    ensures TailAfter(Text(a), true, true) == if a.groups == [] then NoMark else After(3)
  {
    hide TailAfter, IsDigit, IsSpace, GroupsText;
    DottedGroupsTail(a.groups);
    DigitsOfDigits(a.head);
    TailAppend(a.head, GroupsText(a.groups), true, true);
    assert Text(a) == a.head + GroupsText(a.groups);
  }

  /** So it is read back exactly when it has no dot, or is zero: 10.000 is read as ten. */
  lemma DottedWholeReadsBackIff(whole: string)
    requires whole != "" && AllDigits(whole)
    ensures NormaliseAmf(Text(Grouped(whole, '.'))).Some?
    ensures
      Same(NormaliseAmf(Text(Grouped(whole, '.'))).value, Decimal(Number(whole), 0)) <==>
      |whole| <= 3 || Number(whole) == 0
  {
    hide NormaliseAmf, Number, Grouped, Text, AmfAmount, IsDigit;
    DottedWholeMeaning(whole);
    Pow10Grows(3);
    ScaledDiffers(Number(whole), Pow10(3));
    assert Pow10(0) == 1;
  }

  lemma {:induction false} SpacedGroupsTail(groups: seq<Thousand>)
    requires Separators(groups) && forall i :: 0 <= i < |groups| ==> IsSpace(groups[i].separator)
    ensures TailAfter(GroupsText(groups), true, true) == NoMark
  {
    if groups != [] {
      hide TailAfter, IsDigit, IsSpace;
      var front, g := groups[..|groups| - 1], groups[|groups| - 1];
      SpacedGroupsTail(front);
      Classes(g.separator);
      MarkFacts(g.separator, g.digits);
      TailAppend(GroupsText(front), [g.separator] + g.digits, true, true);
    }
  }

  /** With any white space between the groups every whole amount is read back. */
  lemma SpacedWholeReadsBack(whole: string, separator: char)
    requires whole != "" && AllDigits(whole) && IsSpace(separator)
    ensures AmfAmount(Grouped(whole, separator))
    ensures NormaliseAmf(Text(Grouped(whole, separator))) == Some(Decimal(Number(whole), 0))
  {
    hide NormaliseAmf, Number, TailAfter, Digits, MoneyText, IsSpace, IsDigit, Grouped;
    var a := Grouped(whole, separator);
    GroupedIsAmf(whole, separator);
    TextFacts(a);
    AmfMeaning(Text(a));
    SpacedGroupsTail(a.groups);
    DigitsOfDigits(a.head);
    TailAppend(a.head, GroupsText(a.groups), true, true);
    assert Text(a) == a.head + GroupsText(a.groups);
  }

  // ----- numbers and their digits

  function DigitFor(n: nat): (c: char)
    requires n < 10
    ensures IsDigit(c) && DigitValue(c) == n
  {
    '0' + n as char
  }

  /** A number in decimal digits. */
  function Show(n: nat): string {
    if n < 10 then [DigitFor(n)] else Show(n / 10) + [DigitFor(n % 10)]
  }

  lemma NumberSnoc(digits: string, c: char)
    requires AllDigits(digits) && IsDigit(c)
    ensures AllDigits(digits + [c]) && Number(digits + [c]) == 10 * Number(digits) + DigitValue(c)
  {
    hide IsDigit, DigitValue;
    assert (digits + [c])[..|digits|] == digits;
  }

  lemma {:induction false} ShowReadsBack(n: nat)
    ensures Show(n) != "" && AllDigits(Show(n)) && Number(Show(n)) == n
  {
    hide DigitFor, Number, AllDigits, IsDigit, DigitValue;
    if n >= 10 {
      ShowReadsBack(n / 10);
      NumberSnoc(Show(n / 10), DigitFor(n % 10));
    } else {
      NoDigits();
      NumberSnoc("", DigitFor(n));
      assert "" + [DigitFor(n)] == [DigitFor(n)];
    }
  }

  lemma NoDigits()
    ensures AllDigits("") && Number("") == 0
  {
  }

  lemma NumberOfTwo(whole: string, a: char, b: char)
    requires AllDigits(whole) && IsDigit(a) && IsDigit(b)
    ensures Number(whole + [a, b]) == 100 * Number(whole) + 10 * DigitValue(a) + DigitValue(b)
  {
    assert (whole + [a, b])[..|whole| + 1] == whole + [a] && (whole + [a])[..|whole|] == whole;
  }

  /** An amount in euros and cents, with its thousands apart and a decimal comma. */
  function EuroText(euros: nat, cents: nat, separator: char): string
    requires cents < 100 && Show(euros) != ""
  {
    Text(Printed(Show(euros), separator, [DigitFor(cents / 10), DigitFor(cents % 10)]))
  }

  /** Any such amount is read by both parsers as that many cents. */
  lemma EurosReadBack(euros: nat, cents: nat, separator: char)
    requires cents < 100 && (separator == ' ' || separator == '.')
    ensures Show(euros) != ""
    ensures NormaliseAmf(EuroText(euros, cents, separator)) == Some(Decimal(100 * euros + cents, 2))
    ensures NormaliseBafin(EuroText(euros, cents, separator)) == Some(Decimal(100 * euros + cents, 2))
  {
    hide NormaliseAmf, NormaliseBafin, Text, Number, Printed;
    var a, b := DigitFor(cents / 10), DigitFor(cents % 10);
    ShowReadsBack(euros);
    PrintedReadsBack(Show(euros), separator, [a, b]);
    NumberOfTwo(Show(euros), a, b);
  }

  /** The number a decimal stands for. */
  function Value(d: Decimal): real
    decreases d.scale
  {
    if d.scale == 0 then d.unscaled as real else Value(Decimal(d.unscaled, d.scale - 1)) / 10.0
  }

  lemma {:induction false} ValueIs(d: Decimal)
    ensures Value(d) * Pow10(d.scale) as real == d.unscaled as real && Pow10(d.scale) > 0
    decreases d.scale
  {
    if d.scale > 0 {
      var less := Decimal(d.unscaled, d.scale - 1);
      ValueIs(less);
      assert Value(d) * 10.0 == Value(less);
      assert Pow10(d.scale) as real == 10.0 * Pow10(less.scale) as real;
      TenthTimes(Value(d), Value(less), Pow10(less.scale) as real);
    }
  }

  lemma TenthTimes(a: real, b: real, p: real)
    requires a * 10.0 == b
    ensures a * (10.0 * p) == b * p
  {
  }

  /** Two decimals are the same exactly when they stand for the same number. */
  lemma SameIsValue(a: Decimal, b: Decimal)
    ensures Same(a, b) <==> Value(a) == Value(b)
  {
    ValueIs(a);
    ValueIs(b);
    hide Value, Pow10;
    SameCross(a.unscaled, b.unscaled, Pow10(a.scale), Pow10(b.scale), Value(a), Value(b));
  }

  lemma SameCross(a: nat, b: nat, p: nat, q: nat, x: real, y: real)
    requires p > 0 && q > 0 && x * p as real == a as real && y * q as real == b as real
    ensures a * q == b * p <==> x == y
  {
    AsReals(a, q, b, p);
    CrossMultiplied(x, y, p as real, q as real);
  }

  lemma AsReals(a: nat, q: nat, b: nat, p: nat)
    ensures a * q == b * p <==> a as real * q as real == b as real * p as real
  {
    assert (a * q) as real == a as real * q as real;
    assert (b * p) as real == b as real * p as real;
  }

  lemma CrossMultiplied(x: real, y: real, p: real, q: real)
    requires p > 0.0 && q > 0.0
    ensures (x * p) * q == (y * q) * p <==> x == y
  {
    var pq := p * q;
    assert pq > 0.0;
    assert (x * p) * q == x * pq && (y * q) * p == y * pq;
    if x != y {
      assert (x - y) * pq != 0.0;
    }
  }
}
