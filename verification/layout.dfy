/** Placement of the menu items around the dial (app/site/page.tsx,
    getItemPosition): each item gets a polar angle and a radius; the
    conversion to screen coordinates by cosine and sine is not modelled. */
module Layout {
  import opened Snap

  /** The `size` property of the menu. */
  datatype Size = Sm | Md | Lg

  /** Position of a preset in the order small, medium, large. */
  function Rank(size: Size): nat
  {
    match size
    case Sm => 0
    case Md => 1
    case Lg => 2
  }

  /** Distance of the items from the centre, in pixels, for each preset. */
  function Radius(size: Size): (r: real)
    ensures r == 100.0 + 20.0 * Rank(size) as real
  {
    if size == Sm then 100.0 else if size == Md then 120.0 else 140.0
  }

  /** `(index * 360) / totalItems + rotation`: the polar angle of item
      `index`, in degrees; item `index` sits `index` slots past the dial's
      rotation. */
  function ItemAngle(index: nat, count: nat, rotation: real): (a: real)
    requires index < count
    ensures a == SlotsOf(count).Angle(index) + rotation
  {
    ShareOfTurn(index as real, count as real, SlotsOf(count).width);
    (index as real * 360.0) / count as real + rotation
  }

  /** Where an item is drawn, in polar form: the part of getItemPosition
      before the conversion by cosine and sine. */
  datatype Polar = Polar(angle: real, radius: real)

  /** The polar position of item `index` on a dial of the given size. */
  function Placement(index: nat, count: nat, rotation: real, size: Size): (p: Polar)
    requires index < count
    ensures p.angle == SlotsOf(count).Angle(index) + rotation
    ensures p.radius == 100.0 + 20.0 * Rank(size) as real
  {
    Polar(ItemAngle(index, count, rotation), Radius(size))
  }

  // ---------------------------------------------------------------------------
  // Arithmetic helpers on plain reals.

  lemma ShareOfTurn(i: real, n: real, w: real)
    requires 0.0 < n && w == 360.0 / n
    ensures (i * 360.0) / n == i * w
  {
    var q := (i * 360.0) / n;
    assert q * n == i * 360.0;
    assert w * n == 360.0;
    assert q * n == (i * w) * n;
    MulCancel(q, i * w, n);
  }

  lemma MulCancel(a: real, b: real, n: real)
    requires 0.0 < n && a * n == b * n
    ensures a == b
  {
    assert (a - b) * n == 0.0;
  }

  lemma RemainderBelow(a: nat, n: nat)
    requires a < n
    ensures a % n == a
  {
  }

  lemma RemainderOnce(a: nat, n: nat)
    requires 0 < n <= a < 2 * n
    ensures a % n == a - n
  {
    assert a - n < n;
  }

  lemma SumOfProducts(a: real, b: real, s: real)
    ensures a * s + b * s == (a + b) * s
  {
  }

  // ---------------------------------------------------------------------------
  // Slot arithmetic used by the placement lemmas.

  /** Slot angles add up like slot numbers. */
  lemma AngleSum(sl: Slots, i: int, j: int)
    ensures sl.Angle(i) + sl.Angle(j) == sl.Angle(i + j)
  {
    SumOfProducts(i as real, j as real, sl.width);
  }

  /** Two different slots of one dial are less than a turn apart. */
  lemma SlotGap(sl: Slots, i: nat, j: nat)
    requires sl.Valid() && i < j < sl.count
    ensures 0.0 < sl.Angle(j) - sl.Angle(i) < 360.0
  {
    AngleSum(sl, i, j - i);
    ProductBelow((j - i) as real, sl.count as real, sl.width, 360.0);
    MulStrict(0.0, (j - i) as real, sl.width);
    assert sl.Angle(j - i) == (j - i) as real * sl.width;
  }

  /** A difference strictly between 0 and a turn is not a whole number of
      turns. */
  lemma NotWholeTurns(d: real, m: int)
    requires 0.0 < d < 360.0 || -360.0 < d < 0.0
    ensures d != 360.0 * m as real
  {
  }

  // ---------------------------------------------------------------------------
  // Properties of the placement.

  /** Neighbouring items are one slot apart. */
  lemma ItemSpacing(index: nat, count: nat, rotation: real)
    requires index + 1 < count
    ensures ItemAngle(index + 1, count, rotation)
         == ItemAngle(index, count, rotation) + SlotsOf(count).width
  {
    AngleSum(SlotsOf(count), index, 1);
  }

  /** Different items never land on the same point of the circle, whatever
      the rotation. */
  lemma ItemsApart(i: nat, j: nat, count: nat, rotation: real)
    requires i < count && j < count && i != j
    ensures Normalize(ItemAngle(i, count, rotation)) != Normalize(ItemAngle(j, count, rotation))
  {
    NormalizeIsFloorMod(ItemAngle(i, count, rotation));
    NormalizeIsFloorMod(ItemAngle(j, count, rotation));
    var fi := (ItemAngle(i, count, rotation) / 360.0).Floor;
    var fj := (ItemAngle(j, count, rotation) / 360.0).Floor;
    if i < j {
      SlotGap(SlotsOf(count), i, j);
    } else {
      SlotGap(SlotsOf(count), j, i);
    }
    NotWholeTurns(SlotsOf(count).Angle(j) - SlotsOf(count).Angle(i), fj - fi);
  }

  /** Once the dial rests on slot `k`, item `index` rests on slot
      `(index + k) % count`: every item is on a slot of the dial. */
  lemma SnappedItemOnSlot(index: nat, k: nat, count: nat)
    requires index < count && k < count
    ensures Normalize(ItemAngle(index, count, SlotsOf(count).Angle(k)))
         == SlotsOf(count).Angle((index + k) % count)
  {
    AngleSum(SlotsOf(count), index, k);
    if index + k < count {
      RemainderBelow(index + k, count);
      AngleInTurn(SlotsOf(count), index + k);
      NormalizeInTurn(SlotsOf(count).Angle(index + k));
    } else {
      RemainderOnce(index + k, count);
      TurnInSlots(SlotsOf(count), index + k - count);
      AngleInTurn(SlotsOf(count), index + k - count);
      NormalizeUnique(SlotsOf(count).Angle(index + k),
                      SlotsOf(count).Angle(index + k - count), 1);
    }
  }
}
