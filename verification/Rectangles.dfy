/** Integer rectangles in saturating 32-bit arithmetic: src/utils/geometry.rs. */
module Rectangles {
  import opened Wrappers

  const I32_MIN: int := -0x8000_0000
  const I32_MAX: int := 0x7fff_ffff

  predicate InI32(v: int) { I32_MIN <= v <= I32_MAX }

  function Clamp(v: int): int {
    if v < I32_MIN then I32_MIN else if v > I32_MAX then I32_MAX else v
  }

  function SatAdd(a: int, b: int): int { Clamp(a + b) }

  function SatSub(a: int, b: int): int { Clamp(a - b) }

  function SatMul(a: int, b: int): int { Clamp(a * b) }

  function Max(a: int, b: int): int { if a > b then a else b }

  function Min(a: int, b: int): int { if a < b then a else b }

  datatype Point = Point(x: int, y: int)

  datatype Size = Size(w: int, h: int)

  datatype Rectangle = Rectangle(loc: Point, size: Size) {
    /** A rectangle of i32 coordinates whose size is not negative. */
    predicate Valid() {
      InI32(loc.x) && InI32(loc.y) && 0 <= size.w <= I32_MAX && 0 <= size.h <= I32_MAX
    }

    function Right(): int { SatAdd(loc.x, size.w) }

    function Bottom(): int { SatAdd(loc.y, size.h) }

    predicate IsEmpty() { size.w == 0 || size.h == 0 }

    predicate Contains(p: Point) {
      loc.x <= p.x < Right() && loc.y <= p.y < Bottom()
    }

    /** Whether any cell is inside; a non-empty rectangle at I32_MAX still has none. */
    predicate HasCells() { loc.x < Right() && loc.y < Bottom() }

    predicate ContainsRect(r: Rectangle) {
      && r.loc.x >= loc.x && r.loc.y >= loc.y
      && r.Right() <= Right() && r.Bottom() <= Bottom()
    }

    predicate Overlaps(other: Rectangle) {
      && loc.x < other.Right() && other.loc.x < Right()
      && loc.y < other.Bottom() && other.loc.y < Bottom()
    }
  }

  type Rect = r: Rectangle | r.Valid() witness Rectangle(Point(0, 0), Size(0, 0))

  /** `from_extremities`: the size is the saturating difference of the corners. */
  function FromExtremities(topLeft: Point, bottomRight: Point): Rectangle {
    Rectangle(topLeft, Size(SatSub(bottomRight.x, topLeft.x), SatSub(bottomRight.y, topLeft.y)))
  }

  function Intersection(self: Rect, other: Rect): Option<Rect> {
    if !self.Overlaps(other) then None
    else
      Some(FromExtremities(
             Point(Max(self.loc.x, other.loc.x), Max(self.loc.y, other.loc.y)),
             Point(Min(self.Right(), other.Right()), Min(self.Bottom(), other.Bottom()))))
  }

  /** The intersection holds exactly the shared cells, whatever ends saturate. */
  lemma IntersectionCells(a: Rect, b: Rect, p: Point)
    ensures a.Contains(p) && b.Contains(p)
       <==> Intersection(a, b).Some? && Intersection(a, b).value.Contains(p)
  {
  }

  /** No size an intersection computes saturates: its far corner is the exact minimum. */
  lemma IntersectionEnds(a: Rect, b: Rect)
    requires a.Overlaps(b)
    ensures var i := Intersection(a, b).value;
            && i.loc.x + i.size.w == i.Right() == Min(a.Right(), b.Right())
            && i.loc.y + i.size.h == i.Bottom() == Min(a.Bottom(), b.Bottom())
            && a.ContainsRect(i) && b.ContainsRect(i)
  {
  }

  /** Two rectangles share a cell exactly when they overlap and both have cells at all. */
  lemma SharedCellIffOverlap(a: Rect, b: Rect)
    ensures (exists p: Point :: a.Contains(p) && b.Contains(p))
       <==> a.Overlaps(b) && a.HasCells() && b.HasCells()
  {
    if a.Overlaps(b) && a.HasCells() && b.HasCells() {
      var p := Point(Max(a.loc.x, b.loc.x), Max(a.loc.y, b.loc.y));
      assert a.Contains(p) && b.Contains(p);
    }
  }

  /** An empty rectangle strictly inside another overlaps it and shares no cell with it. */
  lemma OverlapWithoutCell()
    ensures var a: Rect := Rectangle(Point(0, 0), Size(10, 10));
            var b: Rect := Rectangle(Point(5, 5), Size(0, 0));
            a.Overlaps(b) && forall p: Point :: !(a.Contains(p) && b.Contains(p))
  {
  }
}
