/** The eight output transforms and the buffer/logical conversions built on them. */
module Transforms {
  import opened Rectangles
  import opened Subtraction
  import opened SubtractionTheorems

  datatype Transform =
    | Normal | Turn90 | Turn180 | Turn270
    | Flipped | Flipped90 | Flipped180 | Flipped270
  {
    function Invert(): Transform {
      match this
      case Normal => Normal
      case Flipped => Flipped
      case Turn90 => Turn270
      case Turn180 => Turn180
      case Turn270 => Turn90
      case Flipped90 => Flipped270
      case Flipped180 => Flipped180
      case Flipped270 => Flipped90
    }

    predicate IsFlipped() { !(Normal? || Turn90? || Turn180? || Turn270?) }

    function Degrees(): (d: nat) {
      match this
      case Normal | Flipped => 0
      case Turn90 | Flipped90 => 90
      case Turn180 | Flipped180 => 180
      case Turn270 | Flipped270 => 270
    }

    function Add(other: Transform): Transform {
      var flipped := IsFlipped() != other.IsFlipped();
      var degrees := (Degrees() + other.Degrees()) % 360;
      if !flipped then
        if degrees == 0 then Normal else if degrees == 90 then Turn90 else if degrees == 180 then Turn180 else Turn270
      else if degrees == 0 then Flipped else if degrees == 90 then Flipped90
      else if degrees == 180 then Flipped180 else Flipped270
    }

    function PointIn(p: Point, area: Size): Point {
      match this
      case Normal => p
      case Turn90 => Point(area.h - p.y, p.x)
      case Turn180 => Point(area.w - p.x, area.h - p.y)
      case Turn270 => Point(p.y, area.w - p.x)
      case Flipped => Point(area.w - p.x, p.y)
      case Flipped90 => Point(p.y, p.x)
      case Flipped180 => Point(p.x, area.h - p.y)
      case Flipped270 => Point(area.h - p.y, area.w - p.x)
    }

    function OfSize(size: Size): Size {
      if Turn90? || Turn270? || Flipped90? || Flipped270? then Size(size.h, size.w) else size
    }

    function RectIn(r: Rectangle, area: Size): Rectangle {
      var loc := match this
        case Normal => r.loc
        case Turn90 => Point(area.h - r.loc.y - r.size.h, r.loc.x)
        case Turn180 => Point(area.w - r.loc.x - r.size.w, area.h - r.loc.y - r.size.h)
        case Turn270 => Point(r.loc.y, area.w - r.loc.x - r.size.w)
        case Flipped => Point(area.w - r.loc.x - r.size.w, r.loc.y)
        case Flipped90 => Point(area.h - r.loc.y - r.size.h, area.w - r.loc.x - r.size.w)
        case Flipped180 => Point(r.loc.x, area.h - r.loc.y - r.size.h)
        case Flipped270 => Point(r.loc.y, r.loc.x);
      Rectangle(loc, OfSize(r.size))
    }

    /** Where the unit cell at `p` goes. */
    function CellIn(p: Point, area: Size): Point { RectIn(Rectangle(p, Size(1, 1)), area).loc }
  }

  /** The one transform that undoes `t` on rectangles. */
  function Undo(t: Transform): Transform {
    if t.Flipped90? || t.Flipped270? then t else t.Invert()
  }

  lemma UndoRect(t: Transform, r: Rectangle, area: Size)
    ensures Undo(t).RectIn(t.RectIn(r, area), t.OfSize(area)) == r
    ensures t.RectIn(Undo(t).RectIn(r, t.OfSize(area)), area) == r
  {
  }

  /** On unit cells every transform is a bijection: `Undo` inverts it from either side. */
  lemma CellBijection(t: Transform, p: Point, area: Size)
    ensures Undo(t).CellIn(t.CellIn(p, area), t.OfSize(area)) == p
    ensures t.CellIn(Undo(t).CellIn(p, t.OfSize(area)), area) == p
  {
    UndoRect(t, Rectangle(p, Size(1, 1)), area);
  }

  predicate MirrorsX(t: Transform) { t.Turn180? || t.Turn270? || t.Flipped? || t.Flipped90? }

  predicate MirrorsY(t: Transform) { t.Turn90? || t.Turn180? || t.Flipped90? || t.Flipped180? }

  /** One mirrored axis: neither the end of the extent nor that of its image saturates. */
  predicate MirrorFits(start: int, extent: int, length: int) {
    start + extent <= I32_MAX && length - start <= I32_MAX
  }

  predicate MirrorsFit(t: Transform, r: Rectangle, area: Size) {
    && (MirrorsX(t) ==> MirrorFits(r.loc.x, r.size.w, area.w))
    && (MirrorsY(t) ==> MirrorFits(r.loc.y, r.size.h, area.h))
  }

  /** No saturation on a mirrored axis, or no cells on either side. */
  predicate KeepsCells(t: Transform, r: Rectangle, area: Size) {
    MirrorsFit(t, r, area) || (!r.HasCells() && !t.RectIn(r, area).HasCells())
  }

  lemma MirrorsFitCells(t: Transform, r: Rectangle, area: Size, p: Point)
    requires r.Valid() && t.RectIn(r, area).Valid() && MirrorsFit(t, r, area)
    ensures t.RectIn(r, area).Contains(t.CellIn(p, area)) <==> r.Contains(p)
  {
  }

  lemma KeptCells(t: Transform, r: Rectangle, area: Size, p: Point)
    requires r.Valid() && t.RectIn(r, area).Valid() && KeepsCells(t, r, area)
    ensures t.RectIn(r, area).Contains(t.CellIn(p, area)) <==> r.Contains(p)
  {
    if MirrorsFit(t, r, area) {
      MirrorsFitCells(t, r, area, p);
    }
  }

  /** What the first cells of the rectangle and of its image say of the mirrored axes. */
  lemma FirstCells(t: Transform, r: Rectangle, area: Size)
    requires r.Valid() && t.RectIn(r, area).Valid()
    requires r.Contains(r.loc) <==> t.RectIn(r, area).Contains(t.CellIn(r.loc, area))
    requires var i := t.RectIn(r, area);
             i.Contains(i.loc) <==> r.Contains(Undo(t).CellIn(i.loc, t.OfSize(area)))
    ensures KeepsCells(t, r, area)
  {
  }

  /**
   * A transformed rectangle holds exactly the images of the cells just when nothing saturates on an axis
   * that the transform mirrors (or neither has any cells).
   */
  lemma TransformedCells(t: Transform, r: Rectangle, area: Size)
    requires r.Valid() && t.RectIn(r, area).Valid()
    ensures (forall p: Point :: t.RectIn(r, area).Contains(t.CellIn(p, area)) <==> r.Contains(p))
       <==> KeepsCells(t, r, area)
  {
    if KeepsCells(t, r, area) {
      forall p: Point ensures t.RectIn(r, area).Contains(t.CellIn(p, area)) <==> r.Contains(p) {
        KeptCells(t, r, area, p);
      }
    } else if forall p: Point :: t.RectIn(r, area).Contains(t.CellIn(p, area)) <==> r.Contains(p) {
      var i := t.RectIn(r, area);
      CellBijection(t, i.loc, area);
      FirstCells(t, r, area);
    }
  }

  /** A saturating end, mirrored: the image has a cell that no cell of the rectangle goes to. */
  lemma SaturatedMirrorGains()
    ensures var r, area := Rectangle(Point(I32_MAX - 1, 0), Size(2, 1)), Size(I32_MAX, 1);
            && r.Valid() && Flipped.RectIn(r, area).Valid() && !KeepsCells(Flipped, r, area)
            && Flipped.RectIn(r, area).Contains(Flipped.CellIn(Point(I32_MAX, 0), area))
            && !r.Contains(Point(I32_MAX, 0))
  {
  }

  // ---- subtraction ----------------------------------------------------------------------------

  /** Containment before any end saturates. */
  predicate Holds(r: Rectangle, p: Point) {
    r.loc.x <= p.x < r.loc.x + r.size.w && r.loc.y <= p.y < r.loc.y + r.size.h
  }

  /** Saturation leaves no cell at the largest coordinate. */
  predicate Below(p: Point) { p.x < I32_MAX && p.y < I32_MAX }

  lemma ContainsIffHoldsBelow(r: Rectangle, p: Point)
    requires r.Valid()
    ensures r.Contains(p) <==> Holds(r, p) && Below(p)
  {
  }

  lemma ImageHolds(t: Transform, r: Rectangle, area: Size, p: Point)
    ensures Holds(t.RectIn(r, area), t.CellIn(p, area)) <==> Holds(r, p)
  {
  }

  /** Transforming first and subtracting first leave the same cells, up to the transform. */
  ghost predicate Commutes(t: Transform, a: Rect, b: Rect, area: Size)
    requires t.RectIn(a, area).Valid() && t.RectIn(b, area).Valid()
  {
    forall p: Point ::
      Covers(SubtractRect(t.RectIn(a, area), t.RectIn(b, area)), t.CellIn(p, area)) <==> Covers(SubtractRect(a, b), p)
  }

  /** The cell saturates away on both sides of the transform, or on neither. */
  predicate SaturatesAlike(t: Transform, area: Size, p: Point) { Below(p) <==> Below(t.CellIn(p, area)) }

  lemma CommutesAtIff(t: Transform, a: Rect, b: Rect, area: Size, p: Point)
    requires t.RectIn(a, area).Valid() && t.RectIn(b, area).Valid()
    ensures (Covers(SubtractRect(t.RectIn(a, area), t.RectIn(b, area)), t.CellIn(p, area))
             <==> Covers(SubtractRect(a, b), p))
       <==> (Holds(a, p) && !Holds(b, p) ==> SaturatesAlike(t, area, p))
  {
    var a': Rect, b': Rect, p' := t.RectIn(a, area), t.RectIn(b, area), t.CellIn(p, area);
    SubtractRectExact(a', b', p');
    SubtractRectExact(a, b, p);
    ContainsIffHoldsBelow(a, p);
    ContainsIffHoldsBelow(b, p);
    ContainsIffHoldsBelow(a', p');
    ContainsIffHoldsBelow(b', p');
    ImageHolds(t, a, area, p);
    ImageHolds(t, b, area, p);
  }

  /**
   * Subtraction commutes with a transform just when every cell that lies in `a` and not in `b`, were
   * nothing to saturate, saturates away on both sides or on neither.
   */
  lemma CommutesIff(t: Transform, a: Rect, b: Rect, area: Size)
    requires t.RectIn(a, area).Valid() && t.RectIn(b, area).Valid()
    ensures Commutes(t, a, b, area)
       <==> forall p: Point :: Holds(a, p) && !Holds(b, p) ==> SaturatesAlike(t, area, p)
  {
    forall p: Point
      ensures (Covers(SubtractRect(t.RectIn(a, area), t.RectIn(b, area)), t.CellIn(p, area))
               <==> Covers(SubtractRect(a, b), p))
         <==> (Holds(a, p) && !Holds(b, p) ==> SaturatesAlike(t, area, p))
    {
      CommutesAtIff(t, a, b, area, p);
    }
  }

  /** When nothing is cut off the minuend, subtraction commutes, whatever the subtrahend. */
  lemma SubtractionCommutes(t: Transform, a: Rect, b: Rect, area: Size)
    requires t.RectIn(a, area).Valid() && t.RectIn(b, area).Valid() && KeepsCells(t, a, area)
    ensures Commutes(t, a, b, area)
    ensures forall p: Point ::
              Covers(SubtractRect(t.RectIn(a, area), t.RectIn(b, area)), p)
              <==> Covers(SubtractRect(a, b), Undo(t).CellIn(p, t.OfSize(area)))
  {
    forall p: Point | Holds(a, p) ensures SaturatesAlike(t, area, p) {
      KeptSaturatesAlike(t, a, area, p);
    }
    CommutesIff(t, a, b, area);
    forall p: Point
      ensures Covers(SubtractRect(t.RectIn(a, area), t.RectIn(b, area)), p)
         <==> Covers(SubtractRect(a, b), Undo(t).CellIn(p, t.OfSize(area)))
    {
      CellBijection(t, p, area);
    }
  }

  lemma KeptSaturatesAlike(t: Transform, r: Rect, area: Size, p: Point)
    requires t.RectIn(r, area).Valid() && KeepsCells(t, r, area) && Holds(r, p)
    ensures SaturatesAlike(t, area, p)
  {
    KeptCells(t, r, area, p);
    ImageHolds(t, r, area, p);
    ContainsIffHoldsBelow(r, p);
    ContainsIffHoldsBelow(t.RectIn(r, area), t.CellIn(p, area));
  }

  /** It does not commute where the mirrored minuend saturates, not even with nothing subtracted. */
  lemma SaturatedMirrorDoesNotCommute()
    ensures var a: Rect, b: Rect := Rectangle(Point(I32_MAX - 1, 0), Size(2, 1)), Rectangle(Point(0, 0), Size(0, 0));
            var area := Size(I32_MAX, 1);
            && Flipped.RectIn(a, area).Valid() && Flipped.RectIn(b, area).Valid()
            && !Commutes(Flipped, a, b, area)
  {
    var a: Rect, b: Rect := Rectangle(Point(I32_MAX - 1, 0), Size(2, 1)), Rectangle(Point(0, 0), Size(0, 0));
    var area, p := Size(I32_MAX, 1), Point(I32_MAX, 0);
    CommutesIff(Flipped, a, b, area);
    assert Holds(a, p) && !Holds(b, p) && !SaturatesAlike(Flipped, area, p);
  }

  predicate ComposesOn(a: Transform, b: Transform, r: Rectangle, area: Size) {
    b.RectIn(a.RectIn(r, area), a.OfSize(area)) == a.Add(b).RectIn(r, area)
  }

  ghost predicate Composes(a: Transform, b: Transform) {
    forall r: Rectangle, area: Size :: ComposesOn(a, b, r, area)
  }

  lemma AddComposes(a: Transform, b: Transform, r: Rectangle, area: Size)
    requires !b.IsFlipped() || a.Degrees() % 180 == 0
    ensures ComposesOn(a, b, r, area)
  {
  }

  lemma AddMiscomposes(a: Transform, b: Transform)
    requires b.IsFlipped() && a.Degrees() % 180 != 0
    ensures !ComposesOn(a, b, Rectangle(Point(1, 2), Size(4, 8)), Size(100, 1000))
  {
  }

  /** Applying `a` then `b` is applying `a + b` exactly when `b` does not flip or `a` does not lie on its side. */
  lemma ComposesIff(a: Transform, b: Transform)
    ensures Composes(a, b) <==> !b.IsFlipped() || a.Degrees() % 180 == 0
  {
    if b.IsFlipped() && a.Degrees() % 180 != 0 {
      AddMiscomposes(a, b);
    } else {
      forall r: Rectangle, area: Size
        ensures ComposesOn(a, b, r, area)
      {
        AddComposes(a, b, r, area);
      }
    }
  }

  /** Where it does not compose, `a + b` is half a turn off. */
  lemma ComposesUpToHalfTurn(a: Transform, b: Transform, r: Rectangle, area: Size)
    ensures var both, sum := b.RectIn(a.RectIn(r, area), a.OfSize(area)), a.Add(b).RectIn(r, area);
            both == if b.IsFlipped() && a.Degrees() % 180 != 0
                    then Turn180.RectIn(sum, a.Add(b).OfSize(area)) else sum
  {
    if !b.IsFlipped() || a.Degrees() % 180 == 0 {
      AddComposes(a, b, r, area);
    }
  }

  // ---- flips and quarter turns --------------------------------------------------------------------

  /** Mirrored left to right. */
  function Mirror(r: Rectangle, area: Size): Rectangle {
    Rectangle(Point(area.w - r.loc.x - r.size.w, r.loc.y), r.size)
  }

  /** Turned a quarter; the area is then `area.h` wide and `area.w` high. */
  function QuarterTurn(r: Rectangle, area: Size): Rectangle {
    Rectangle(Point(area.h - r.loc.y - r.size.h, r.loc.x), Size(r.size.h, r.size.w))
  }

  function QuarterTurns(r: Rectangle, area: Size, n: nat): Rectangle
    decreases n
  {
    if n == 0 then r else QuarterTurns(QuarterTurn(r, area), Size(area.h, area.w), n - 1)
  }

  function Turns(t: Transform): nat {
    match t
    case Normal | Flipped => 0
    case Turn90 | Flipped90 => 1
    case Turn180 | Flipped180 => 2
    case Turn270 | Flipped270 => 3
  }

  /** Every transform of rectangles is a flip, if its name says so, and then its quarter turns. */
  lemma FlipThenTurns(t: Transform, r: Rectangle, area: Size)
    ensures t.IsFlipped() <==> t.Flipped? || t.Flipped90? || t.Flipped180? || t.Flipped270?
    ensures t.Degrees() == 90 * Turns(t)
    ensures t.RectIn(r, area) == QuarterTurns(if t.IsFlipped() then Mirror(r, area) else r, area, Turns(t))
  {
    var start := if t.IsFlipped() then Mirror(r, area) else r;
    var turned := Size(area.h, area.w);
    assert QuarterTurns(start, area, 1) == QuarterTurn(start, area);
    assert QuarterTurns(start, area, 2) == QuarterTurns(QuarterTurn(start, area), turned, 1);
    assert QuarterTurns(start, area, 3) == QuarterTurns(QuarterTurn(start, area), turned, 2);
  }

  /** Points go as rectangles do, except that a flip on its side is taken for the other one. */
  lemma PointsTransform(t: Transform, p: Point, area: Size)
    ensures var other := if t.Flipped90? then Flipped270 else if t.Flipped270? then Flipped90 else t;
            t.PointIn(p, area) == other.RectIn(Rectangle(p, Size(0, 0)), area).loc
  {
  }

  /** `invert` is the inverse of `+`, for all eight transforms. */
  lemma InvertIsAdditiveInverse(t: Transform)
    ensures t.Add(t.Invert()) == Normal && t.Invert().Add(t) == Normal
  {
  }

  /** `invert` undoes a transform of rectangles exactly when `t` is not a flip on its side. */
  lemma InvertUndoesIff(t: Transform)
    ensures (forall r: Rectangle, area: Size :: t.Invert().RectIn(t.RectIn(r, area), t.OfSize(area)) == r)
       <==> !t.Flipped90? && !t.Flipped270?
  {
    if t.Flipped90? || t.Flipped270? {
      var r, area := Rectangle(Point(1, 2), Size(4, 8)), Size(100, 1000);
      assert t.Invert().RectIn(t.RectIn(r, area), t.OfSize(area)) != r;
    } else {
      forall r: Rectangle, area: Size
        ensures t.Invert().RectIn(t.RectIn(r, area), t.OfSize(area)) == r
      {
        UndoRect(t, r, area);
      }
    }
  }

  /** The rectangle spanned by two opposite corners. */
  function Span(p: Point, q: Point): Rectangle {
    Rectangle(Point(Min(p.x, q.x), Min(p.y, q.y)), Size(Max(p.x, q.x) - Min(p.x, q.x), Max(p.y, q.y) - Min(p.y, q.y)))
  }

  function FarCorner(r: Rectangle): Point { Point(r.loc.x + r.size.w, r.loc.y + r.size.h) }

  /** Points and rectangles are transformed alike exactly when `t` is not a flip on its side. */
  lemma PointsAgreeWithRectsIff(t: Transform)
    ensures (forall r: Rectangle, area: Size :: r.size.w >= 0 && r.size.h >= 0 ==>
               t.RectIn(r, area) == Span(t.PointIn(r.loc, area), t.PointIn(FarCorner(r), area)))
       <==> !t.Flipped90? && !t.Flipped270?
  {
    if t.Flipped90? || t.Flipped270? {
      var r, area := Rectangle(Point(1, 2), Size(4, 8)), Size(100, 1000);
      assert t.RectIn(r, area) != Span(t.PointIn(r.loc, area), t.PointIn(FarCorner(r), area));
    }
  }

  // ---- logical and buffer coordinates --------------------------------------------------------

  /** Rust's integer division, which truncates toward zero. */
  function TruncDiv(a: int, b: int): int
    requires b != 0
  {
    if a >= 0 then a / b else -((-a) / b)
  }

  /** The quotient is the nearest on the side of zero. */
  lemma TruncDivTowardZero(a: int, s: int)
    requires s >= 1
    ensures var q := TruncDiv(a, s);
            if a >= 0 then q * s <= a < q * s + s else q * s - s < a <= q * s
  {
    var n := if a >= 0 then a else -a;
    assert n == n / s * s + n % s;
    assert (-(n / s)) * s == -(n / s * s);
  }

  function SizeToBuffer(size: Size, scale: int, t: Transform): Size {
    t.OfSize(Size(SatMul(size.w, scale), SatMul(size.h, scale)))
  }

  function ToBuffer(r: Rectangle, scale: int, t: Transform, area: Size): Rectangle {
    var rect := t.RectIn(r, area);
    Rectangle(Point(SatMul(rect.loc.x, scale), SatMul(rect.loc.y, scale)),
              Size(SatMul(rect.size.w, scale), SatMul(rect.size.h, scale)))
  }

  function ToLogical(r: Rectangle, scale: int, t: Transform, area: Size): Rectangle
    requires scale != 0
  {
    var rect := t.Invert().RectIn(r, area);
    Rectangle(Point(TruncDiv(rect.loc.x, scale), TruncDiv(rect.loc.y, scale)),
              Size(TruncDiv(rect.size.w, scale), TruncDiv(rect.size.h, scale)))
  }

  /** No product of the conversion leaves the i32 range. */
  predicate ScalesWithoutOverflow(r: Rectangle, scale: int, t: Transform, area: Size) {
    var rect := t.RectIn(r, area);
    && InI32(rect.loc.x * scale) && InI32(rect.loc.y * scale)
    && InI32(rect.size.w * scale) && InI32(rect.size.h * scale)
    && InI32(area.w * scale) && InI32(area.h * scale)
  }

  function ScaleRect(r: Rectangle, s: int): Rectangle {
    Rectangle(Point(r.loc.x * s, r.loc.y * s), Size(r.size.w * s, r.size.h * s))
  }

  lemma DivCancels(a: int, s: int)
    requires s >= 1
    ensures a * s / s == a
  {
    var q := a * s / s;
    assert a * s == q * s + a * s % s;
    assert (a - q) * s == a * s % s < s;
    assert a - q >= 1 ==> (a - q) * s >= s;
    assert a - q <= -1 ==> (a - q) * s <= -s;
  }

  lemma TruncDivCancels(a: int, s: int)
    requires s >= 1
    ensures TruncDiv(a * s, s) == a
  {
    DivCancels(a, s);
    DivCancels(-a, s);
    assert -(a * s) == (-a) * s;
    assert a >= 0 ==> a * s >= 0;
    assert a < 0 ==> a * s < 0;
  }

  lemma ScaleCommutes(t: Transform, r: Rectangle, area: Size, s: int)
    ensures t.RectIn(ScaleRect(r, s), Size(area.w * s, area.h * s)) == ScaleRect(t.RectIn(r, area), s)
  {
    assert (area.w - r.loc.x - r.size.w) * s == area.w * s - r.loc.x * s - r.size.w * s;
    assert (area.h - r.loc.y - r.size.h) * s == area.h * s - r.loc.y * s - r.size.h * s;
  }

  /** Logical to buffer and back: the identity, except that a flip on its side comes back upside down. */
  lemma LogicalRoundTrip(r: Rectangle, scale: int, t: Transform, area: Size)
    requires scale >= 1 && ScalesWithoutOverflow(r, scale, t, area)
    ensures ToLogical(ToBuffer(r, scale, t, area), scale, t, SizeToBuffer(area, scale, t))
         == if t.Flipped90? || t.Flipped270? then Turn180.RectIn(r, area) else r
  {
    var rect, turned := t.RectIn(r, area), t.OfSize(area);
    assert ToBuffer(r, scale, t, area) == ScaleRect(rect, scale);
    assert SizeToBuffer(area, scale, t) == Size(turned.w * scale, turned.h * scale);
    ScaleCommutes(t.Invert(), rect, turned, scale);
    var back := t.Invert().RectIn(rect, turned);
    TruncDivCancels(back.loc.x, scale);
    TruncDivCancels(back.loc.y, scale);
    TruncDivCancels(back.size.w, scale);
    TruncDivCancels(back.size.h, scale);
  }
}
