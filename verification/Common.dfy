/** Failure-compatible datatypes shared by every component. */
module Wrappers {

  datatype Option<+T> = None | Some(value: T)

  datatype Result<+T, +E> = Success(value: T) | Failure(error: E)
}

/** Instants and durations are integer microseconds, the resolution of the program's clock. */
module Instants {

  const SECOND: int := 1_000_000
  const DAY: int := 86_400 * SECOND

  /** The whole second an instant is printed as. */
  function FloorSecond(t: int): int {
    t - t % SECOND
  }

  function Min(a: int, b: int): int {
    if a <= b then a else b
  }

  function Max(a: int, b: int): int {
    if a >= b then a else b
  }

  function CeilDiv(n: int, d: int): int
    requires d > 0
  {
    (n + d - 1) / d
  }

  function CeilReal(x: real): int {
    -((-x).Floor)
  }

  /** Whole seconds needed to cover a duration. */
  function CeilSeconds(x: int): int {
    CeilDiv(x, SECOND)
  }

  lemma CeilDivBounds(n: int, d: int)
    requires d > 0
    ensures n <= CeilDiv(n, d) * d < n + d
  {
  }

  lemma CancelFactor(x: int, y: int, p: int)
    requires p > 0 && x * p < y * p
    ensures x < y
  {
  }

  lemma ScaleMonotone(x: int, y: int, p: int)
    requires p >= 0 && x <= y
    ensures x * p <= y * p
  {
  }

  lemma Distribute(x: int, y: int, c: int)
    ensures (x + y) * c == x * c + y * c
  {
  }

  lemma CeilDivMonotone(n: int, n': int, p: int)
    requires p > 0 && n <= n'
    ensures CeilDiv(n, p) <= CeilDiv(n', p)
  {
    CeilDivBounds(n, p);
    CeilDivBounds(n', p);
    CancelFactor(CeilDiv(n, p), CeilDiv(n', p) + 1, p);
  }

  lemma FloorSecondFacts(t: int)
    ensures FloorSecond(t) <= t < FloorSecond(t) + SECOND
    ensures FloorSecond(t) % SECOND == 0
    ensures t % SECOND == 0 ==> FloorSecond(t) == t
  {
    assert t == t / SECOND * SECOND + t % SECOND;
    assert FloorSecond(t) == t / SECOND * SECOND;
  }

  lemma FloorSecondMonotone(s: int, t: int)
    requires s <= t
    ensures FloorSecond(s) <= FloorSecond(t)
  {
    FloorSecondFacts(s);
    FloorSecondFacts(t);
    assert FloorSecond(s) == s / SECOND * SECOND && FloorSecond(t) == t / SECOND * SECOND;
  }
}

/** Numbers as decimal text. */
module DecimalText {
  import opened Wrappers

  function Digit(d: nat): char
    requires d < 10
  {
    "0123456789"[d]
  }

  function DigitValue(c: char): Option<nat> {
    if '0' <= c <= '9' then Some(c as int - '0' as int) else None
  }

  /** No padding, like str() and strftime's %Y. */
  function Decimal(n: nat): (s: string)
    ensures |s| >= 1
  {
    if n < 10 then [Digit(n)] else Decimal(n / 10) + [Digit(n % 10)]
  }

  function Number(s: string): Option<nat> {
    if s == [] then Some(0)
    else
      var init, d := Number(s[..|s| - 1]), DigitValue(s[|s| - 1]);
      if init.Some? && d.Some? then Some(10 * init.value + d.value) else None
  }

  lemma DigitReads(d: nat)
    requires d < 10
    ensures DigitValue(Digit(d)) == Some(d)
  {
  }

  lemma NumberAppend(s: string, d: nat)
    requires d < 10 && Number(s).Some?
    ensures Number(s + [Digit(d)]) == Some(10 * Number(s).value + d)
  {
    DigitReads(d);
    assert (s + [Digit(d)])[..|s|] == s;
  }

  lemma {:induction false} DecimalReads(n: nat)
    ensures Number(Decimal(n)) == Some(n)
  {
    if n < 10 {
      NumberAppend([], n);
      assert [] + [Digit(n)] == [Digit(n)];
    } else {
      DecimalReads(n / 10);
      NumberAppend(Decimal(n / 10), n % 10);
    }
  }
}
