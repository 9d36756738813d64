/** Snapping arithmetic of the rotary dial (app/site/page.tsx, handleMouseUp).
    Angles are in degrees. JavaScript's `%` and `Math.round` are written out
    explicitly, because Dafny's own `%` and rounding differ from them on
    negative numbers. */
module Snap {

  function Abs(x: real): real { if x < 0.0 then -x else x }

  /** Rounding toward zero, as JavaScript's `%` uses to pick its quotient. */
  function Trunc(x: real): (t: int)
    ensures 0.0 <= x ==> 0.0 <= t as real <= x < t as real + 1.0
    ensures x < 0.0 ==> t as real - 1.0 < x <= t as real <= 0.0
  {
    if 0.0 <= x then x.Floor else -((-x).Floor)
  }

  /** `d` is a whole number of turns. */
  predicate WholeTurns(d: real)
  {
    (d / 360.0).Floor as real == d / 360.0
  }

  /** JavaScript's `a % 360`: the remainder keeps the sign of the dividend
      and differs from it by a whole number of turns. */
  function JsRem360(a: real): (m: real)
    ensures 0.0 <= a ==> 0.0 <= m < 360.0
    ensures a < 0.0 ==> -360.0 < m <= 0.0
    ensures WholeTurns(a - m)
  {
    a - 360.0 * Trunc(a / 360.0) as real
  }

  /** `((rotation % 360) + 360) % 360`: the rotation brought into one turn. */
  function Normalize(r: real): (n: real)
    ensures 0.0 <= n < 360.0
  {
    JsRem360(JsRem360(r) + 360.0)
  }

  /** JavaScript's `Math.round`: the nearest integer, halves rounded upward. */
  function JsRound(x: real): (k: int)
    ensures k as real - 0.5 <= x < k as real + 0.5
  {
    (x + 0.5).Floor
  }

  /** The division of the dial into `count` equal slots of `width` degrees
      (`snapAngle` in the source). */
  datatype Slots = Slots(count: nat, width: real) {

    ghost predicate Valid() {
      0 < count && 0.0 < width && count as real * width == 360.0
    }

    /** The angle of slot `k` (`nearestIndex * snapAngle`); the slots of the
        dial lie within one turn. */
    function Angle(k: int): (a: real)
      ensures Valid() && 0 <= k < count ==> 0.0 <= a < 360.0
    {
      SlotInTurn(k as real, count as real, width);
      k as real * width
    }

    /** An angle measured in slots (`normalizedRotation / snapAngle`): that
        many slot widths make up the angle. */
    function Measure(a: real): (m: real)
      requires Valid()
      ensures m * width == a
    {
      MulOfQuotient(a / width, a, width);
      a / width
    }
  }

  /** `360 / items.length`, for a non-empty item list. */
  function SlotsOf(n: nat): (sl: Slots)
    requires 0 < n
    ensures sl.Valid() && sl.count == n
  {
    Slots(n, 360.0 / n as real)
  }

  /** `Math.round(normalizedRotation / snapAngle)`: the slot number before
      wrapping; it reaches `count` when the rotation is within half a slot
      below a full turn. */
  function RoundedSlot(r: real, sl: Slots): (k: int)
    requires sl.Valid()
    ensures 0 <= k <= sl.count
  {
    MeasureBelowCount(sl, Normalize(r));
    JsRound(sl.Measure(Normalize(r)))
  }

  /** `nearestIndex`: `Math.round(...) % items.length`. The rounded slot lies
      in `[0, count]`, where `% count` only folds `count` back to 0; the body
      says that directly (NearestIndexIsRemainder relates it to `%`). */
  function NearestIndex(r: real, sl: Slots): (i: nat)
    requires sl.Valid()
    ensures i < sl.count
  {
    var k := RoundedSlot(r, sl);
    if k == sl.count then 0 else k
  }

  /** `nearestRotation`: the rotation of the chosen slot. */
  function SnapRotation(r: real, sl: Slots): (a: real)
    requires sl.Valid()
    ensures 0.0 <= a < 360.0
  {
    var i := NearestIndex(r, sl);
    AngleInTurn(sl, i);
    sl.Angle(i)
  }

  /** Distance between two angles of one turn, measured the shorter way round. */
  function CircularDistance(x: real, y: real): real
  {
    var d := Abs(x - y);
    if d <= 180.0 then d else 360.0 - d
  }

  // ---------------------------------------------------------------------------
  // Multiplication and division by a positive factor, on plain reals. The
  // slot lemmas below hand these the exact terms they need, so that the
  // products in the callers are matched syntactically.

  lemma MulNonneg(a: real, s: real)
    requires 0.0 < s && 0.0 <= a
    ensures 0.0 <= a * s
  {
  }

  lemma MulMonotone(a: real, b: real, s: real)
    requires 0.0 < s && a <= b
    ensures a * s <= b * s
  {
    assert b * s - a * s == (b - a) * s;
  }

  lemma MulStrict(a: real, b: real, s: real)
    requires 0.0 < s && a < b
    ensures a * s < b * s
  {
    assert b * s - a * s == (b - a) * s;
  }

  lemma MulOfQuotient(x: real, a: real, s: real)
    requires 0.0 < s && x == a / s
    ensures x * s == a
  {
  }

  lemma QuotientOfProduct(a: real, c: real, s: real)
    requires 0.0 < s && a == c * s
    ensures a / s == c
  {
  }

  lemma QuotientBelow(a: real, s: real, n: real)
    requires 0.0 < s && n * s == 360.0 && 0.0 <= a < 360.0
    ensures 0.0 <= a / s < n
  {
    var x := a / s;
    MulOfQuotient(x, a, s);
    if x < 0.0 {
      MulStrict(x, 0.0, s);
    }
    if n <= x {
      MulMonotone(n, x, s);
    }
  }

  lemma MulReflectLe(a: real, b: real, s: real)
    requires 0.0 < s && a * s <= b * s
    ensures a <= b
  {
    if b < a {
      MulStrict(b, a, s);
    }
  }

  lemma QuotientAtLeast(a: real, s: real, n: real)
    requires 0.0 < s && n * s == 360.0 && 360.0 - s / 2.0 <= a
    ensures n - 0.5 <= a / s
  {
    var x := a / s;
    MulOfQuotient(x, a, s);
    assert (n - 0.5) * s == n * s - 0.5 * s;
    MulReflectLe(n - 0.5, x, s);
  }

  lemma ShiftUpByTurn(p: real, a: real, n: real, s: real)
    requires p == a + n && n * s == 360.0
    ensures p * s == a * s + 360.0
  {
    assert p * s == (a + n) * s;
  }

  lemma ShiftDownByTurn(p: real, a: real, n: real, s: real)
    requires p == a - n && n * s == 360.0
    ensures p * s == a * s - 360.0
  {
    assert p * s == (a - n) * s;
  }

  /** Half a step past `x` steps of size `s` is still within `n` steps, and
      measures `x + 1/2` steps. */
  lemma HalfStep(a: real, x: real, s: real, n: real)
    requires 0.0 < s && 0.0 <= x && x + 1.0 <= n && n * s == 360.0 && a == x * s
    ensures 0.0 <= a + s / 2.0 < 360.0
    ensures (a + s / 2.0) / s == x + 0.5
  {
    var h := x + 0.5;
    assert a + s / 2.0 == h * s;
    MulNonneg(h, s);
    MulStrict(h, n, s);
    QuotientOfProduct(a + s / 2.0, h, s);
  }

  lemma AbsScale(a: real, s: real)
    requires 0.0 < s
    ensures Abs(a * s) == Abs(a) * s
  {
    var p := a * s;
    if a < 0.0 {
      MulStrict(a, 0.0, s);
      assert -p == (-a) * s;
    } else {
      MulNonneg(a, s);
    }
  }

  /** If `x` is no farther from `k` than from `j`, the same holds after
      scaling by a positive factor `s`, where `t` is `x` scaled. */
  lemma ScaledNearer(x: real, t: real, k: real, j: real, s: real)
    requires 0.0 < s && t == x * s && Abs(x - k) <= Abs(x - j)
    ensures Abs(t - k * s) <= Abs(t - j * s)
  {
    var dk, dj := (x - k) * s, (x - j) * s;
    assert t - k * s == dk;
    assert t - j * s == dj;
    AbsScale(x - k, s);
    AbsScale(x - j, s);
    MulMonotone(Abs(x - k), Abs(x - j), s);
  }

  lemma SlotInTurn(k: real, n: real, w: real)
    ensures 0.0 < w && 0.0 <= k < n && n * w == 360.0 ==> 0.0 <= k * w < 360.0
  {
    if 0.0 < w && 0.0 <= k < n && n * w == 360.0 {
      ProductBelow(k, n, w, 360.0);
    }
  }

  /** A product with a positive factor stays below the bound reached by a
      larger left operand. */
  lemma ProductBelow(a: real, b: real, s: real, c: real)
    requires 0.0 <= a < b && 0.0 < s && b * s == c
    ensures 0.0 <= a * s < c
  {
    MulNonneg(a, s);
    MulStrict(a, b, s);
    var p, q := a * s, b * s;
    assert p < q;
  }

  // ---------------------------------------------------------------------------
  // Slot angles and measures.

  /** The angle of slot `i` lies within one turn. */
  lemma AngleInTurn(sl: Slots, i: nat)
    requires sl.Valid() && i < sl.count
    ensures 0.0 <= sl.Angle(i) < 360.0
  {
    ProductBelow(i as real, sl.count as real, sl.width, 360.0);
  }

  /** An angle within one turn measures less than `count` slots. */
  lemma MeasureBelowCount(sl: Slots, a: real)
    requires sl.Valid() && 0.0 <= a < 360.0
    ensures 0.0 <= sl.Measure(a) < sl.count as real
  {
    QuotientBelow(a, sl.width, sl.count as real);
  }

  /** Measuring the angle of slot `k` gives back `k`. */
  lemma MeasureOfAngle(sl: Slots, k: int)
    requires sl.Valid()
    ensures sl.Measure(sl.Angle(k)) == k as real
  {
    QuotientOfProduct(sl.Angle(k), k as real, sl.width);
  }

  /** Measuring and converting back to an angle is the identity. */
  lemma AngleOfMeasure(sl: Slots, a: real)
    requires sl.Valid()
    ensures sl.Measure(a) * sl.width == a
  {
    MulOfQuotient(sl.Measure(a), a, sl.width);
  }

  /** Nearness in slot units carries over to slot angles. */
  lemma NearerAngle(sl: Slots, x: real, t: real, k: int, j: int)
    requires 0.0 < sl.width && t == x * sl.width
    requires Abs(x - k as real) <= Abs(x - j as real)
    ensures Abs(t - sl.Angle(k)) <= Abs(t - sl.Angle(j))
  {
    ScaledNearer(x, t, k as real, j as real, sl.width);
    assert sl.Angle(k) == k as real * sl.width;
    assert sl.Angle(j) == j as real * sl.width;
  }

  /** Adding a whole turn moves `count` slots along. */
  lemma TurnInSlots(sl: Slots, j: int)
    requires sl.Valid()
    ensures sl.Angle(j + sl.count) == sl.Angle(j) + 360.0
    ensures sl.Angle(j - sl.count) == sl.Angle(j) - 360.0
  {
    ShiftUpByTurn((j + sl.count) as real, j as real, sl.count as real, sl.width);
    ShiftDownByTurn((j - sl.count) as real, j as real, sl.count as real, sl.width);
  }

  // ---------------------------------------------------------------------------
  // Normalisation.

  /** Normalisation removes a whole number of turns: its result is the one
      angle of `[0, 360)` that differs from the input by whole turns. */
  lemma NormalizeUnique(r: real, y: real, turns: int)
    requires 0.0 <= y < 360.0
    requires r == y + 360.0 * turns as real
    ensures Normalize(r) == y
  {
    var t1 := Trunc(r / 360.0);
    var a1 := r - 360.0 * t1 as real;
    var t2 := Trunc((a1 + 360.0) / 360.0);
    var m := t1 + t2 - 1;
    assert Normalize(r) == r - 360.0 * m as real;
    var d := m - turns;
    assert y - Normalize(r) == 360.0 * d as real;
    assert d == 0;
  }

  /** The JavaScript expression agrees with the floor-based modulo
      `r - 360 * floor(r / 360)`. */
  lemma NormalizeIsFloorMod(r: real)
    ensures Normalize(r) == r - 360.0 * (r / 360.0).Floor as real
  {
    var f := (r / 360.0).Floor;
    NormalizeUnique(r, r - 360.0 * f as real, f);
  }

  /** An angle already inside one turn is left as it is. */
  lemma NormalizeInTurn(r: real)
    requires 0.0 <= r < 360.0
    ensures Normalize(r) == r
  {
    NormalizeUnique(r, r, 0);
  }

  /** Adding whole turns does not change the normalised angle. */
  lemma NormalizePeriodic(r: real, turns: int)
    ensures Normalize(r + 360.0 * turns as real) == Normalize(r)
  {
    NormalizeIsFloorMod(r);
    var f := (r / 360.0).Floor;
    NormalizeUnique(r + 360.0 * turns as real, Normalize(r), f + turns);
  }

  // ---------------------------------------------------------------------------
  // Rounding.

  /** `Math.round(x)` is the one integer `k` with `k - 1/2 <= x < k + 1/2`. */
  lemma JsRoundUnique(x: real, k: int)
    requires k as real - 0.5 <= x < k as real + 0.5
    ensures JsRound(x) == k
  {
    var j := JsRound(x);
    assert j == k;
  }

  /** An exact midpoint rounds to the higher neighbour. */
  lemma JsRoundHalfUp(k: int)
    ensures JsRound(k as real + 0.5) == k + 1
  {
    JsRoundUnique(k as real + 0.5, k + 1);
  }

  /** No integer is closer to `x` than `Math.round(x)`. */
  lemma JsRoundIsNearest(x: real, j: int)
    ensures Abs(x - JsRound(x) as real) <= Abs(x - j as real)
  {
    var k := JsRound(x);
    if j < k {
      assert j as real <= k as real - 1.0;
    } else if j > k {
      assert j as real >= k as real + 1.0;
    }
  }

  /** No slot angle, in this turn or another, is closer to the normalised
      rotation than the angle of the rounded slot. */
  lemma RoundedSlotIsNearest(r: real, sl: Slots, j: int)
    requires sl.Valid()
    ensures Abs(Normalize(r) - sl.Angle(RoundedSlot(r, sl)))
         <= Abs(Normalize(r) - sl.Angle(j))
  {
    JsRoundIsNearest(sl.Measure(Normalize(r)), j);
    AngleOfMeasure(sl, Normalize(r));
    NearerAngle(sl, sl.Measure(Normalize(r)), Normalize(r), RoundedSlot(r, sl), j);
  }

  // ---------------------------------------------------------------------------
  // Properties of the snap.

  /** `nearestIndex` is the rounded slot taken modulo the item count, as the
      source computes it. */
  lemma NearestIndexIsRemainder(r: real, sl: Slots)
    requires sl.Valid()
    ensures NearestIndex(r, sl) == RoundedSlot(r, sl) % sl.count
  {
  }

  /** Around the circle, the snapped rotation is no farther from the
      normalised rotation than the rounded slot is along the line. */
  lemma SnapWithinRounded(r: real, sl: Slots)
    requires sl.Valid()
    ensures CircularDistance(Normalize(r), SnapRotation(r, sl))
         <= Abs(Normalize(r) - sl.Angle(RoundedSlot(r, sl)))
  {
    if RoundedSlot(r, sl) == sl.count {
      assert sl.Angle(sl.count) == 360.0;
      assert sl.Angle(0) == 0.0;
    }
  }

  /** Measured either way round the circle, slot `j` is no nearer to the
      normalised rotation than the rounded slot. */
  lemma SlotNoCloser(r: real, sl: Slots, j: nat)
    requires sl.Valid() && j < sl.count
    ensures Abs(Normalize(r) - sl.Angle(RoundedSlot(r, sl)))
         <= CircularDistance(Normalize(r), sl.Angle(j))
  {
    AngleInTurn(sl, j);
    RoundedSlotIsNearest(r, sl, j);
    if Abs(Normalize(r) - sl.Angle(j)) > 180.0 {
      TurnInSlots(sl, j);
      if Normalize(r) >= sl.Angle(j) {
        RoundedSlotIsNearest(r, sl, j + sl.count);
      } else {
        RoundedSlotIsNearest(r, sl, j - sl.count);
      }
    }
  }

  /** The snapped rotation is the slot nearest to the normalised rotation
      around the circle: no item slot `j` is closer. */
  lemma NearestIsClosest(r: real, sl: Slots, j: nat)
    requires sl.Valid() && j < sl.count
    ensures CircularDistance(Normalize(r), SnapRotation(r, sl))
         <= CircularDistance(Normalize(r), sl.Angle(j))
  {
    SnapWithinRounded(r, sl);
    SlotNoCloser(r, sl, j);
  }

  /** A rotation exactly halfway between slots `j` and `j + 1` snaps to the
      higher one (wrapping to slot 0 after the last). */
  lemma MidpointSnapsUp(sl: Slots, j: nat)
    requires sl.Valid() && j < sl.count
    ensures NearestIndex(sl.Angle(j) + sl.width / 2.0, sl) == (j + 1) % sl.count
  {
    HalfStep(sl.Angle(j), j as real, sl.width, sl.count as real);
    NormalizeInTurn(sl.Angle(j) + sl.width / 2.0);
    JsRoundHalfUp(j);
    assert RoundedSlot(sl.Angle(j) + sl.width / 2.0, sl) == j + 1;
  }

  /** Releasing exactly on slot `k` keeps both the slot and the rotation. */
  lemma SnapIdempotent(sl: Slots, k: nat)
    requires sl.Valid() && k < sl.count
    ensures NearestIndex(sl.Angle(k), sl) == k
    ensures SnapRotation(sl.Angle(k), sl) == sl.Angle(k)
  {
    AngleInTurn(sl, k);
    NormalizeInTurn(sl.Angle(k));
    MeasureOfAngle(sl, k);
    JsRoundUnique(k as real, k);
    assert RoundedSlot(sl.Angle(k), sl) == k;
  }

  /** Whole turns of the dial do not change which slot is chosen. */
  lemma NearestIndexPeriodic(r: real, sl: Slots, turns: int)
    requires sl.Valid()
    ensures NearestIndex(r + 360.0 * turns as real, sl) == NearestIndex(r, sl)
  {
    NormalizePeriodic(r, turns);
  }

  /** The wrap-around: a rotation within half a slot below a full turn rounds
      to slot `count`, and `% count` brings it back to slot 0. */
  lemma WrapToFirstSlot(r: real, sl: Slots)
    requires sl.Valid()
    requires 360.0 - sl.width / 2.0 <= Normalize(r)
    ensures RoundedSlot(r, sl) == sl.count
    ensures NearestIndex(r, sl) == 0 && SnapRotation(r, sl) == 0.0
  {
    QuotientAtLeast(Normalize(r), sl.width, sl.count as real);
    MeasureBelowCount(sl, Normalize(r));
    JsRoundUnique(sl.Measure(Normalize(r)), sl.count);
    assert sl.Angle(0) == 0.0;
  }
}
