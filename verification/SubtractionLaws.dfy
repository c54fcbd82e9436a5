/** Cell counts and areas as weights that splitting a rectangle conserves. */
module SubtractionLaws {
  import opened Wrappers
  import opened Rectangles
  import opened Worklist
  import opened Subtraction

  type Weight = Rect -> int

  /** The part of a rectangle's weight that lies in `other`. */
  function Inside(f: Weight, other: Rect): Weight {
    (r: Rect) => if r.Overlaps(other) then f(Intersection(r, other).value) else 0
  }

  function CountAt(p: Point): Weight { (r: Rect) => if r.Contains(p) then 1 else 0 }

  /** The number of cells, which is w * h when neither end saturates. */
  function Area(): Weight { (r: Rect) => (r.Right() - r.loc.x) * (r.Bottom() - r.loc.y) }

  lemma EmptyWeighsNothing(p: Point)
    ensures forall r: Rect :: r.IsEmpty() ==> Area()(r) == 0
    ensures forall r: Rect :: r.IsEmpty() ==> CountAt(p)(r) == 0
  {
  }

  lemma SumNonEmpty(r: Rect, f: Weight)
    ensures Sum(NonEmpty(r), f) == if r.IsEmpty() then 0 else f(r)
  {
  }

  lemma SumFour(a: Rect, b: Rect, c: Rect, d: Rect, f: Weight)
    requires forall r: Rect :: r.IsEmpty() ==> f(r) == 0
    ensures Sum(NonEmpty(a) + NonEmpty(b) + NonEmpty(c) + NonEmpty(d), f) == f(a) + f(b) + f(c) + f(d)
  {
    SumThree(NonEmpty(a), NonEmpty(b), NonEmpty(c), f);
    SumConcat(NonEmpty(a) + NonEmpty(b) + NonEmpty(c), NonEmpty(d), f);
    SumNonEmpty(a, f);
    SumNonEmpty(b, f);
    SumNonEmpty(c, f);
    SumNonEmpty(d, f);
  }

  /** Summing over the pieces is summing over the four parts, when empty ones weigh nothing. */
  lemma SumPieces(item: Rect, other: Rect, f: Weight)
    requires item.Overlaps(other)
    requires forall r: Rect :: r.IsEmpty() ==> f(r) == 0
    ensures var i := Intersection(item, other).value;
            && item.ContainsRect(i)
            && Sum(Pieces(item, other), f)
            == f(TopOf(item, i)) + f(LeftOf(item, i)) + f(RightOf(item, i)) + f(BottomOf(item, i))
  {
    IntersectionEnds(item, other);
    var i := Intersection(item, other).value;
    if !other.ContainsRect(item) {
      SumFour(TopOf(item, i), LeftOf(item, i), RightOf(item, i), BottomOf(item, i), f);
    }
  }

  /** The four parts tile the item around the intersection. */
  lemma PartEnds(item: Rect, i: Rect)
    requires item.ContainsRect(i)
    requires i.Right() == i.loc.x + i.size.w && i.Bottom() == i.loc.y + i.size.h
    ensures var t := TopOf(item, i);
            t.Right() == item.Right() && t.Bottom() == i.loc.y
    ensures var l := LeftOf(item, i);
            l.Right() == i.loc.x && l.Bottom() == i.Bottom()
    ensures var r := RightOf(item, i);
            r.loc.x == i.Right() && r.Right() == item.Right() && r.Bottom() == i.Bottom()
    ensures var b := BottomOf(item, i);
            b.Right() == item.Right() && b.loc.y == i.Bottom() && b.Bottom() == item.Bottom()
  {
  }

  ghost predicate Splits(f: Weight, item: Rect, other: Rect) {
    f(item) == Inside(f, other)(item) + Sum(Pieces(item, other), f)
  }

  lemma CountParts(p: Point, item: Rect, i: Rect)
    requires item.ContainsRect(i)
    requires i.Right() == i.loc.x + i.size.w && i.Bottom() == i.loc.y + i.size.h
    ensures CountAt(p)(item) == CountAt(p)(i) + CountAt(p)(TopOf(item, i)) + CountAt(p)(LeftOf(item, i))
                                + CountAt(p)(RightOf(item, i)) + CountAt(p)(BottomOf(item, i))
  {
    PartEnds(item, i);
  }

  /** Every cell of an overlapping rectangle is in the intersection or in exactly one piece. */
  lemma CountSplits(p: Point, item: Rect, other: Rect)
    requires item.Overlaps(other)
    ensures Splits(CountAt(p), item, other)
  {
    EmptyWeighsNothing(p);
    IntersectionEnds(item, other);
    CountParts(p, item, Intersection(item, other).value);
    SumPieces(item, other, CountAt(p));
  }

  lemma AreaParts(item: Rect, i: Rect)
    requires item.ContainsRect(i)
    requires i.Right() == i.loc.x + i.size.w && i.Bottom() == i.loc.y + i.size.h
    ensures Area()(item) == Area()(i) + Area()(TopOf(item, i)) + Area()(LeftOf(item, i))
                            + Area()(RightOf(item, i)) + Area()(BottomOf(item, i))
  {
    var x0, x1, x2, x3 := item.loc.x, i.loc.x, i.Right(), item.Right();
    var y0, y1, y2, y3 := item.loc.y, i.loc.y, i.Bottom(), item.Bottom();
    PartEnds(item, i);
    assert (x3 - x0) * (y3 - y0)
        == (x2 - x1) * (y2 - y1) + (x3 - x0) * (y1 - y0) + (x1 - x0) * (y2 - y1)
           + (x3 - x2) * (y2 - y1) + (x3 - x0) * (y3 - y2);
  }

  /** The pieces of an overlapping rectangle have its area less that of the intersection. */
  lemma AreaSplits(item: Rect, other: Rect)
    requires item.Overlaps(other)
    ensures Splits(Area(), item, other)
  {
    EmptyWeighsNothing(item.loc);
    IntersectionEnds(item, other);
    AreaParts(item, Intersection(item, other).value);
    SumPieces(item, other, Area());
  }

  predicate EmptyOrMisses(r: Rect, other: Rect) { r.IsEmpty() || !r.Overlaps(other) }

  lemma PartsMiss(item: Rect, other: Rect)
    requires item.Overlaps(other) && item.ContainsRect(Intersection(item, other).value)
    ensures var i := Intersection(item, other).value;
            && EmptyOrMisses(TopOf(item, i), other) && EmptyOrMisses(LeftOf(item, i), other)
            && EmptyOrMisses(RightOf(item, i), other) && EmptyOrMisses(BottomOf(item, i), other)
  {
    IntersectionEnds(item, other);
    PartEnds(item, Intersection(item, other).value);
  }

  lemma FourMiss(a: Rect, b: Rect, c: Rect, d: Rect, other: Rect)
    requires EmptyOrMisses(a, other) && EmptyOrMisses(b, other) && EmptyOrMisses(c, other) && EmptyOrMisses(d, other)
    ensures Misses(NonEmpty(a) + NonEmpty(b) + NonEmpty(c) + NonEmpty(d), HitBy(other))
  {
  }

  /** No piece overlaps what was cut out, not even when `other` is empty. */
  lemma PiecesMiss(item: Rect, other: Rect)
    requires item.Overlaps(other)
    ensures Misses(Pieces(item, other), HitBy(other))
  {
    IntersectionEnds(item, other);
    if !other.ContainsRect(item) {
      var i := Intersection(item, other).value;
      PartsMiss(item, other);
      FourMiss(TopOf(item, i), LeftOf(item, i), RightOf(item, i), BottomOf(item, i), other);
    }
  }

  /** The rectangles one round leaves unchecked. */
  function LeftOver(rects: seq<Rect>, other: Rect): seq<Rect> {
    Unchecked(rects, 0, |rects|, HitBy(other), CutBy(other))
  }

  /** The law of one round, for the weights that every split conserves. */
  lemma RoundConserves(rects: seq<Rect>, other: Rect, f: Weight)
    requires forall item: Rect :: item.Overlaps(other) ==> Splits(f, item, other)
    ensures Sum(Round(rects, other), f)
         == Sum(rects, f) - Sum(rects, Inside(f, other)) + Sum(LeftOver(rects, other), Inside(f, other))
  {
    var hit, cut, g := HitBy(other), CutBy(other), Inside(f, other);
    forall r: Rect
      ensures if hit(r) then f(r) == g(r) + Sum(cut(r), f) && Misses(cut(r), hit) else g(r) == 0
    {
      if hit(r) {
        assert Splits(f, r, other);
        PiecesMiss(r, other);
      }
    }
    SweepConserves(rects, hit, cut, f, g);
  }
}
