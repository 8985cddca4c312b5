/** Rounding a timestamp down to a multiple of an interval. */
module Alignment {
  /** `ts - (ts % interval)`; the remainder of a negative number is negative or zero there. */
  function Align(ts: int, interval: int): int
    requires interval > 0
  {
    if ts >= 0 then ts - ts % interval else ts + -ts % interval
  }

  predicate Multiple(a: int, g: int)
    requires g > 0
  {
    a == g * (a / g)
  }

  lemma MulMono(g: int, x: int, y: int)
    requires g > 0 && x <= y
    ensures g * x <= g * y
  {
  }

  lemma DivisionUnique(a: int, g: int, q: int, r: int)
    requires g > 0 && a == g * q + r && 0 <= r < g
    ensures a / g == q && a % g == r
  {
    var q' := a / g;
    assert a == g * q' + a % g;
    assert g * (q + 1) == g * q + g && g * (q' + 1) == g * q' + g;
    if q < q' {
      MulMono(g, q + 1, q');
    } else if q' < q {
      MulMono(g, q' + 1, q);
    }
  }

  lemma MultipleOf(g: int, q: int)
    requires g > 0
    ensures Multiple(g * q, g) && (g * q) / g == q
  {
    DivisionUnique(g * q, g, q, 0);
  }

  lemma MultiplesAdd(a: int, b: int, g: int)
    requires g > 0 && Multiple(a, g) && Multiple(b, g)
    ensures Multiple(a + b, g) && Multiple(a - b, g)
  {
    var x, y := a / g, b / g;
    assert a + b == g * (x + y) && a - b == g * (x - y);
    MultipleOf(g, x + y);
    MultipleOf(g, x - y);
  }

  /** Different multiples are at least one interval apart. */
  lemma MultiplesApart(a: int, b: int, g: int)
    requires g > 0 && Multiple(a, g) && Multiple(b, g) && a < b
    ensures a + g <= b
  {
    var x, y := a / g, b / g;
    if y <= x {
      MulMono(g, y, x);
    }
    MulMono(g, x + 1, y);
    assert g * (x + 1) == a + g;
  }

  lemma AlignBounds(ts: int, g: int)
    requires g > 0 && ts >= 0
    ensures Multiple(Align(ts, g), g) && 0 <= Align(ts, g) <= ts < Align(ts, g) + g
  {
    var q := ts / g;
    assert ts == g * q + ts % g;
    MultipleOf(g, q);
    MulMono(g, 0, q);
  }

  /** A negative timestamp is rounded up to the next multiple, which is at most zero. */
  lemma AlignNegative(ts: int, g: int)
    requires g > 0 && ts < 0
    ensures Multiple(Align(ts, g), g) && ts <= Align(ts, g) <= 0 && Align(ts, g) < ts + g
  {
    var q := -ts / g;
    assert -ts == g * q + -ts % g;
    assert Align(ts, g) == g * -q;
    MultipleOf(g, -q);
    MulMono(g, -q, 0);
  }

  lemma AlignMono(a: int, b: int, g: int)
    requires g > 0 && 0 <= a <= b
    ensures Align(a, g) <= Align(b, g)
  {
    AlignBounds(a, g);
    AlignBounds(b, g);
    if Align(b, g) < Align(a, g) {
      MultiplesApart(Align(b, g), Align(a, g), g);
    }
  }

  /** The only multiple within one interval below. */
  lemma AlignUnique(ts: int, g: int, m: int)
    requires g > 0 && ts >= 0 && Multiple(m, g) && m <= ts < m + g
    ensures Align(ts, g) == m
  {
    AlignBounds(ts, g);
    if m < Align(ts, g) {
      MultiplesApart(m, Align(ts, g), g);
    } else if Align(ts, g) < m {
      MultiplesApart(Align(ts, g), m, g);
    }
  }

  lemma AlignMultiple(m: int, g: int)
    requires g > 0 && m >= 0 && Multiple(m, g)
    ensures Align(m, g) == m
  {
    AlignUnique(m, g, m);
  }

  lemma AlignShift(ts: int, w: int, g: int)
    requires g > 0 && Multiple(w, g) && 0 <= w <= ts
    ensures Align(ts - w, g) == Align(ts, g) - w
  {
    AlignBounds(ts, g);
    MultiplesAdd(Align(ts, g), w, g);
    AlignUnique(ts - w, g, Align(ts, g) - w);
  }
}
