/** Time points: 64-bit microsecond counters that wrap around. */
module Timepoint {
  import opened Client

  const RANGE := 0x1_0000_0000_0000_0000
  const HALF := 0x8000_0000_0000_0000

  type Timepoint = n: nat | n < RANGE

  /** Durations are signed 64-bit counts. */
  type Duration = d: int | -HALF <= d < HALF

  function Wrap(x: int): Timepoint {
    x % RANGE
  }

  function ToSigned(u: Timepoint): Duration {
    if u < HALF then u else u - RANGE
  }

  function Advance(t: Timepoint, d: int): Timepoint {
    Wrap(t + Wrap(d))
  }

  predicate IsAfter(t: Timepoint, other: Timepoint) {
    Wrap(other - t) > (RANGE - 1) / 2
  }

  predicate IsBefore(t: Timepoint, other: Timepoint) {
    Wrap(t - other) > (RANGE - 1) / 2
  }

  function Minus(t: Timepoint, other: Timepoint): Duration {
    if IsAfter(t, other) then ToSigned(Wrap(t - other)) else ToSigned(Wrap(0 - Wrap(other - t)))
  }

  lemma WrapNear(x: int)
    ensures 0 <= x < RANGE ==> Wrap(x) == x
    ensures -RANGE <= x < 0 ==> Wrap(x) == x + RANGE
    ensures RANGE <= x < 2 * RANGE ==> Wrap(x) == x - RANGE
  {
  }

  lemma WrapShift(x: int, q: int)
    ensures Wrap(x + q * RANGE) == Wrap(x)
  {
  }

  /** Which way the branches go, the difference is the signed residue. */
  lemma MinusIsResidue(t: Timepoint, other: Timepoint)
    ensures Minus(t, other) == ToSigned(Wrap(t - other))
  {
    WrapNear(t - other);
    WrapNear(other - t);
    WrapNear(0 - Wrap(other - t));
  }

  /** Advancing and subtracting undo each other, for all time points and signed durations. */
  lemma AdvanceMinus(t: Timepoint, d: Duration, a: Timepoint)
    ensures Minus(Advance(t, d), t) == d
    ensures Advance(t, Minus(a, t)) == a
  {
    AdvanceThenMinus(t, d);
    MinusThenAdvance(t, a);
    hide Advance, Minus;
  }

  lemma AdvanceThenMinus(t: Timepoint, d: Duration)
    ensures Minus(Advance(t, d), t) == d
  {
    WrapNear(d);
    WrapNear(t + Wrap(d));
    MinusIsResidue(Advance(t, d), t);
    hide Minus;
    WrapNear(Advance(t, d) - t);
  }

  lemma MinusThenAdvance(t: Timepoint, a: Timepoint)
    ensures Advance(t, Minus(a, t)) == a
  {
    MinusIsResidue(a, t);
    hide Minus;
    WrapNear(a - t);
    WrapNear(Minus(a, t));
    WrapNear(t + Wrap(Minus(a, t)));
  }

  /** Points less than half the range apart compare and subtract like the integers they stand for. */
  lemma HalfRange(x: int, y: int)
    requires -HALF < x - y < HALF
    ensures IsAfter(Wrap(x), Wrap(y)) <==> x > y
    ensures IsBefore(Wrap(x), Wrap(y)) <==> x < y
    ensures Minus(Wrap(x), Wrap(y)) == x - y
    ensures Wrap(x) == Wrap(y) <==> x == y
  {
    Residues(x, y);
    Residues(y, x);
    WrapNear(x - y);
    WrapNear(y - x);
    MinusIsResidue(Wrap(x), Wrap(y));
  }

  lemma Residues(x: int, y: int)
    ensures Wrap(Wrap(x) - Wrap(y)) == Wrap(x - y)
  {
    var p, q := x / RANGE, y / RANGE;
    assert Wrap(x) - Wrap(y) == x - y + (q - p) * RANGE;
    WrapShift(x - y, q - p);
  }

  /** Before is after the other way round; two points are each after the other exactly when they
      are half the range apart, and neither is exactly when they are equal. */
  lemma AfterExact(a: Timepoint, b: Timepoint)
    ensures IsBefore(a, b) <==> IsAfter(b, a)
    ensures IsAfter(a, b) && IsAfter(b, a) <==> Wrap(a - b) == HALF
    ensures !IsAfter(a, b) && !IsAfter(b, a) <==> a == b
  {
    WrapNear(a - b);
    WrapNear(b - a);
  }

  // ---- The order of timers ----

  datatype Item = Item(time: Timepoint, handle: nat)

  /** The comparator of the timer queue. */
  predicate Greater(a: Item, b: Item) {
    if IsAfter(a.time, b.time) then true
    else if IsAfter(b.time, a.time) then false
    else a.handle > b.handle
  }

  function Wrapped(d: Due): Item {
    Item(Wrap(d.time), d.handle)
  }

  /** The comparator orders these timers: of two different ones exactly one is greater, and being
      greater is transitive. */
  ghost predicate Ordered(items: set<Item>) {
    && (forall a :: a in items ==> !Greater(a, a))
    && (forall a, b :: a in items && b in items && a != b ==> Greater(a, b) != Greater(b, a))
    && (forall a, b, c :: a in items && b in items && c in items && Greater(a, b) && Greater(b, c) ==> Greater(a, c))
  }

  /** All these timers lie within half the range from a common start. */
  ghost predicate WithinHalf(items: set<Item>, start: Timepoint) {
    forall x :: x in items ==> Wrap(x.time - start) < HALF
  }

  function Offset(x: Item, start: Timepoint): Timepoint {
    Wrap(x.time - start)
  }

  /** Within half the range the comparator compares offsets, then handles. */
  lemma GreaterByOffset(a: Item, b: Item, start: Timepoint)
    requires Offset(a, start) < HALF && Offset(b, start) < HALF
    ensures Greater(a, b) <==>
      Offset(a, start) > Offset(b, start) || (Offset(a, start) == Offset(b, start) && a.handle > b.handle)
    ensures Offset(a, start) == Offset(b, start) <==> a.time == b.time
  {
    var x, y := Offset(a, start), Offset(b, start);
    OffsetBack(a, start);
    OffsetBack(b, start);
    HalfRange(start + x, start + y);
    HalfRange(start + y, start + x);
    hide Offset, IsAfter;
  }

  lemma OffsetBack(a: Item, start: Timepoint)
    ensures Wrap(start + Offset(a, start)) == a.time
  {
    WrapNear(a.time - start);
    WrapNear(start + Offset(a, start));
  }

  lemma HalfIsOrdered(items: set<Item>, start: Timepoint)
    requires WithinHalf(items, start)
    ensures Ordered(items)
  {
    forall a, b | a in items && b in items
      ensures Greater(a, b) <==>
        Offset(a, start) > Offset(b, start) || (Offset(a, start) == Offset(b, start) && a.handle > b.handle)
      ensures Offset(a, start) == Offset(b, start) <==> a.time == b.time
    {
      GreaterByOffset(a, b, start);
    }
    hide Greater, Offset;
  }

  /** An ordered, non-empty set has an element that is greater than none. */
  lemma {:induction false} Least(items: set<Item>) returns (m: Item)
    requires items != {} && Ordered(items)
    ensures m in items && forall x :: x in items ==> !Greater(m, x)
    decreases |items|
  {
    hide Greater;
    m :| m in items;
    var rest := items - {m};
    if rest != {} {
      var n := Least(rest);
      if Greater(m, n) {
        forall x | x in items ensures !Greater(n, x) {
          if x == m {
            assert n != m;
          }
        }
        m := n;
      } else {
        assert Greater(n, m);
      }
    }
  }

  /** The comparator orders a set of timers if and only if they all lie within half the range from
      a common start. */
  lemma OrderExact(items: set<Item>)
    ensures Ordered(items) <==> items == {} || exists start :: WithinHalf(items, start)
  {
    if items != {} && Ordered(items) {
      var m := Least(items);
      forall x | x in items ensures Wrap(x.time - m.time) < HALF {
        assert !IsAfter(m.time, x.time);
      }
      assert WithinHalf(items, m.time);
    }
    if start :| WithinHalf(items, start) {
      HalfIsOrdered(items, start);
    }
  }

  // ---- Timers of the unbounded model ----

  ghost predicate Close(ds: set<Due>) {
    forall a, b :: a in ds && b in ds ==> -HALF < a.time - b.time < HALF
  }

  ghost function AllWrapped(ds: set<Due>): set<Item> {
    set d | d in ds :: Wrapped(d)
  }

  lemma {:induction false} Earliest(ds: set<Due>) returns (m: Due)
    requires ds != {}
    ensures m in ds && forall d :: d in ds ==> m.time <= d.time
    decreases |ds|
  {
    m :| m in ds;
    if ds - {m} != {} {
      var n := Earliest(ds - {m});
      if n.time < m.time {
        m := n;
      }
    }
  }

  lemma CloseWithinHalf(ds: set<Due>) returns (start: Timepoint)
    requires Close(ds)
    ensures WithinHalf(AllWrapped(ds), start)
  {
    start := 0;
    if ds != {} {
      var m := Earliest(ds);
      start := Wrap(m.time);
      forall x | x in AllWrapped(ds) ensures Wrap(x.time - start) < HALF {
        var d :| d in ds && x == Wrapped(d);
        Residues(d.time, m.time);
        WrapNear(d.time - m.time);
      }
    }
  }

  /** On timers spanning less than half the range, the wrapped comparator is the order of the
      unbounded model, a strict total order, and wrapping keeps different timers apart. */
  lemma ComparatorIsOrder(ds: set<Due>)
    requires Close(ds)
    ensures forall a, b :: a in ds && b in ds ==> (Greater(Wrapped(a), Wrapped(b)) <==> !NotLater(a, b))
    ensures Ordered(AllWrapped(ds))
    ensures forall a, b :: a in ds && b in ds && a != b ==> Wrapped(a) != Wrapped(b)
  {
    forall a, b | a in ds && b in ds
      ensures Greater(Wrapped(a), Wrapped(b)) <==> !NotLater(a, b)
      ensures Wrapped(a) == Wrapped(b) ==> a == b
    {
      HalfRange(a.time, b.time);
      HalfRange(b.time, a.time);
    }
    hide Greater, Wrapped;
    var start := CloseWithinHalf(ds);
    OrderExact(AllWrapped(ds));
  }

  /** Without that bound it is not an order: three timers can each be after the next. */
  lemma ComparatorCycles()
    ensures
      var a, b, c := Item(0, 0), Item(0x6000_0000_0000_0000, 0), Item(0xC000_0000_0000_0000, 0);
      Greater(b, a) && Greater(c, b) && Greater(a, c)
  {
    WrapNear(-0x6000_0000_0000_0000);
    WrapNear(0xC000_0000_0000_0000);
  }

  // ---- Durations finer than a microsecond ----

  /** Advance by the whole microseconds in n units, of which there are k in one, and keep what
      is left over. */
  method AdvanceFrom(t: Timepoint, n: Duration, k: nat) returns (t': Timepoint, rest: int)
    requires 0 < k < HALF
    ensures t' == Advance(t, Wrap(n) / k) && rest == Wrap(n) % k
  {
    var micros := Wrap(n) / k;
    QuotientFits(Wrap(n), k);
    rest := ToSigned(Wrap(n - ToSigned(Wrap(micros * k))));
    t' := Advance(t, micros);
    LeftOver(n, k);
  }

  lemma QuotientFits(u: Timepoint, k: nat)
    requires k > 0
    ensures 0 <= u / k < RANGE && u / k * k + u % k == u && 0 <= u / k * k <= u
    ensures k >= 2 ==> u / k < HALF
  {
    Products(u / k, k);
  }

  lemma Products(q: nat, k: nat)
    requires k > 0
    ensures 0 <= q <= q * k && (k >= 2 ==> 2 * q <= q * k)
  {
  }

  lemma LeftOver(n: Duration, k: nat)
    requires 0 < k < HALF
    ensures ToSigned(Wrap(n - ToSigned(Wrap(Wrap(n) / k * k)))) == Wrap(n) % k
  {
    var u := Wrap(n);
    QuotientFits(u, k);
    var whole := u / k * k;
    WrapNear(whole);
    WrapNear(n);
    WrapNear(n - ToSigned(whole));
  }

  /** Nothing is lost or gained exactly when the duration is not negative, or is already in
      microseconds. */
  lemma AdvanceFromConserves(t: Timepoint, n: Duration, k: nat)
    requires 0 < k < HALF
    ensures Minus(Advance(t, Wrap(n) / k), t) * k + Wrap(n) % k == n <==> n >= 0 || k == 1
  {
    var u := Wrap(n);
    WrapNear(n);
    QuotientFits(u, k);
    if k == 1 {
      AdvanceMinus(t, n, t);
      AdvanceWrapped(t, n);
    } else {
      AdvanceMinus(t, u / k, t);
    }
  }

  lemma AdvanceWrapped(t: Timepoint, n: int)
    ensures Advance(t, Wrap(n)) == Advance(t, n)
  {
    WrapNear(Wrap(n));
  }

  /** What is left of n units of k microseconds after their product modulo 2^64 was advanced. */
  function CoarseRest(n: Duration, k: nat): Duration
    requires 1 < k
  {
    var u := Wrap(n * k);
    QuotientFits(u, k);
    if n - u / k >= -HALF then n - u / k else n - u / k + RANGE
  }

  /** The same for units of k microseconds: the advance is a product modulo 2^64, the remainder
      the signed residue of what its truncated quotient leaves of the duration. */
  method AdvanceFromCoarse(t: Timepoint, n: Duration, k: nat) returns (t': Timepoint, rest: int)
    requires 1 < k < HALF
    ensures t' == Advance(t, n * k) && rest == CoarseRest(n, k)
  {
    var micros := Wrap(n * k);
    QuotientFits(micros, k);
    WrapNear(n - micros / k);
    rest := ToSigned(Wrap(n - micros / k));
    t' := Wrap(t + micros);
  }

  lemma MinusAdvanced(t: Timepoint, x: int)
    ensures Minus(Advance(t, x), t) == ToSigned(Wrap(x))
  {
    var d := ToSigned(Wrap(x));
    WrapNear(d);
    AdvanceThenMinus(t, d);
    hide Minus;
  }

  /** Advance and remainder add up to the duration exactly when the product, as far as it fits 64
      bits, is below half the range and a whole number of units, and the remainder did not wrap. */
  lemma CoarseConserves(t: Timepoint, n: Duration, k: nat)
    requires 1 < k < HALF
    ensures
      var u := Wrap(n * k);
      Minus(Advance(t, n * k), t) + CoarseRest(n, k) * k == n * k
      <==> u < HALF && u % k == 0 && n - u / k >= -HALF
  {
    MinusAdvanced(t, n * k);
    QuotientFits(Wrap(n * k), k);
    Balance(n, k, Wrap(n * k), Wrap(n * k) / k);
    hide Minus, Advance, Wrap;
  }

  lemma Balance(n: int, k: nat, u: Timepoint, q: nat)
    requires k >= 2 && q * k <= u
    ensures
      var rest := if n - q >= -HALF then n - q else n - q + RANGE;
      ToSigned(u) + rest * k == n * k <==> u < HALF && u == q * k && n - q >= -HALF
  {
    assert (n - q) * k == n * k - q * k;
    assert (n - q + RANGE) * k == n * k - q * k + RANGE * k;
  }

  /** A product that wraps, and yet nothing is lost; one that does not, and yet something is. */
  lemma CoarseWitnesses(t: Timepoint)
    ensures
      var n := 0x4000_0000_0000_0000;
      && n * 1000 >= RANGE && Minus(Advance(t, n * 1000), t) + CoarseRest(n, 1000) * 1000 == n * 1000
      && n * 2 < RANGE && CoarseRest(n, 2) == 0 && Minus(Advance(t, n * 2), t) + CoarseRest(n, 2) * 2 != n * 2
  {
    var n := 0x4000_0000_0000_0000;
    assert Wrap(n * 1000) == 0 && Wrap(n * 2) == HALF;
    CoarseConserves(t, n, 1000);
    CoarseConserves(t, n, 2);
    hide Minus, Advance;
  }

  /** Nothing is left over exactly when the product does not wrap. */
  lemma LeftOverCoarse(n: Duration, k: nat)
    requires 1 < k < HALF
    ensures CoarseRest(n, k) == 0 <==> 0 <= n * k < RANGE
  {
    var u := Wrap(n * k);
    QuotientFits(u, k);
    if 0 <= n * k < RANGE {
      WrapNear(n * k);
      ProductQuotient(n, k);
    }
  }

  lemma ProductQuotient(n: int, k: nat)
    requires k > 0
    ensures n * k / k == n
  {
    var d, m := n * k / k, n * k % k;
    assert n * k == d * k + m;
    assert (n - d) * k == m;
    NoMultipleBetween(n - d, k);
  }

  lemma NoMultipleBetween(x: int, k: nat)
    requires k > 0 && 0 <= x * k < k
    ensures x == 0
  {
    if x > 0 {
      Products(k, x);
    }
  }
}
