/**
 Facts about products of reals. `Times` is multiplication under a name, so that
 a proof which only combines these facts can hide what it does.
 */
module Products {

  function Times(a: real, b: real): real {
    a * b
  }

  lemma TimesIsProduct(a: real, b: real)
    ensures Times(a, b) == a * b
  {
  }

  lemma Scale(a: real, b: real, c: real)
    requires a <= b && 0.0 <= c
    ensures a * c <= b * c
  {
  }

  lemma TimesScale(a: real, b: real, c: real)
    requires a <= b && 0.0 <= c
    ensures Times(a, c) <= Times(b, c)
  {
  }

  lemma TimesBelow(a: real, b: real, c: real)
    requires a < b && 0.0 < c
    ensures Times(a, c) < Times(b, c)
  {
    assert 0.0 < (b - a) * c;
  }

  /** A positive factor keeps the order both ways. */
  lemma TimesOrder(a: real, b: real, c: real)
    requires 0.0 < c
    ensures a <= b <==> Times(a, c) <= Times(b, c)
    ensures a == b <==> Times(a, c) == Times(b, c)
  {
    hide Times;
    if a < b {
      TimesBelow(a, b, c);
    } else if b < a {
      TimesBelow(b, a, c);
    }
  }

  lemma TimesAdd(a: real, b: real, c: real)
    ensures Times(a + b, c) == Times(a, c) + Times(b, c)
  {
  }

  lemma TimesOne(a: real)
    ensures Times(1.0, a) == a && Times(0.0, a) == 0.0
  {
  }

  lemma TimesQuotient(a: real, b: real)
    requires 0.0 < b
    ensures Times(a / b, b) == a
  {
  }

  lemma Cancel(a: real, b: real, c: real)
    requires 0.0 < c && Times(a, c) == Times(b, c)
    ensures a == b
  {
    hide Times;
    if a < b {
      TimesBelow(a, b, c);
    } else if b < a {
      TimesBelow(b, a, c);
    }
  }

  /** A larger numerator over a smaller denominator. */
  lemma Quotient(a: real, b: real, c: real, d: real)
    requires 0.0 <= a <= b && 0.0 < c <= d
    ensures 0.0 <= a / d <= b / c
  {
    hide Times;
    var x, y := a / d, b / c;
    TimesQuotient(a, d);
    TimesQuotient(b, c);
    TimesOne(c);
    TimesOne(d);
    if x < 0.0 {
      TimesBelow(x, 0.0, d);
    }
    if y < 0.0 {
      TimesBelow(y, 0.0, c);
    } else if y < x {
      TimesBelow(y, x, d);
      TimesScale(c, d, y);
      Commute(c, y);
      Commute(d, y);
    }
  }

  lemma Commute(a: real, b: real)
    ensures Times(a, b) == Times(b, a)
  {
  }

  /** The whole part of a quotient, times the divisor. */
  lemma WholePart(a: real, b: real)
    requires 0.0 < b
    ensures
      var q := (a / b).Floor;
      Times(q as real, b) <= a < Times(q as real, b) + b && (q >= 1 <==> b <= a)
  {
    hide Times;
    var ratio := a / b;
    var q := ratio.Floor;
    TimesQuotient(a, b);
    TimesScale(q as real, ratio, b);
    TimesBelow(ratio, q as real + 1.0, b);
    TimesAdd(q as real, 1.0, b);
    TimesOne(b);
    if q >= 1 {
      TimesScale(1.0, ratio, b);
    } else {
      TimesBelow(ratio, 1.0, b);
    }
  }

  lemma TimesNegate(a: real, b: real)
    ensures Times(-a, b) == -Times(a, b) && Times(a, -b) == -Times(a, b)
  {
  }

  /** Scaling by a positive factor keeps the sign. */
  lemma SignOfProduct(a: real, b: real)
    requires 0.0 < a
    ensures 0.0 <= b <==> 0.0 <= Times(a, b)
    ensures b == 0.0 <==> Times(a, b) == 0.0
  {
    hide Times;
    Commute(a, b);
    TimesOne(a);
    if b < 0.0 {
      TimesBelow(b, 0.0, a);
    } else if b > 0.0 {
      TimesBelow(0.0, b, a);
    }
  }

  lemma SignOfSquare(d: real)
    ensures 0.0 <= Times(d, d)
    ensures Times(d, d) == 0.0 <==> d == 0.0
  {
    hide Times;
    TimesOne(d);
    TimesNegate(d, d);
    TimesNegate(d, -d);
    if d > 0.0 {
      SignOfProduct(d, d);
    } else if d < 0.0 {
      SignOfProduct(-d, -d);
    }
  }

  lemma Predecessor(ratio: real, s: real)
    ensures Times(ratio - 1.0, s) == Times(ratio, s) - s
  {
  }
}
