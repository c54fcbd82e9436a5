/** Coverage, disjointness, area and exactness of rectangle subtraction. */
module SubtractionTheorems {
  import opened Wrappers
  import opened Rectangles
  import opened Worklist
  import opened Subtraction
  import opened SubtractionLaws

  ghost predicate Covers(rects: seq<Rect>, p: Point) {
    exists k :: 0 <= k < |rects| && rects[k].Contains(p)
  }

  ghost predicate PairwiseDisjoint(rects: seq<Rect>) {
    forall p: Point, j, k :: 0 <= j < k < |rects| ==> !(rects[j].Contains(p) && rects[k].Contains(p))
  }

  /** How many of `rects` hold the cell. */
  function Count(rects: seq<Rect>, p: Point): int { Sum(rects, CountAt(p)) }

  predicate SharesCell(a: Rect, b: Rect) { a.Overlaps(b) && a.HasCells() && b.HasCells() }

  // ---- counting ---------------------------------------------------------------------------

  lemma {:induction false} CountCovers(rects: seq<Rect>, p: Point)
    ensures Count(rects, p) >= 0
    ensures Covers(rects, p) <==> Count(rects, p) >= 1
  {
    if rects != [] {
      CountCovers(rects[1..], p);
      if Covers(rects[1..], p) {
        var k :| 0 <= k < |rects[1..]| && rects[1..][k].Contains(p);
        assert rects[k + 1].Contains(p);
      }
      if Covers(rects, p) && !rects[0].Contains(p) {
        var k :| 0 <= k < |rects| && rects[k].Contains(p);
        assert rects[1..][k - 1].Contains(p);
      }
    }
  }

  lemma {:induction false} CountTwice(rects: seq<Rect>, p: Point, j: nat, k: nat)
    requires j < k < |rects| && rects[j].Contains(p) && rects[k].Contains(p)
    ensures Count(rects, p) >= 2
  {
    if j == 0 {
      assert rects[1..][k - 1].Contains(p);
      CountCovers(rects[1..], p);
    } else {
      CountTwice(rects[1..], p, j - 1, k - 1);
    }
  }

  lemma {:induction false} CountOnce(rects: seq<Rect>, p: Point)
    requires forall j, k :: 0 <= j < k < |rects| ==> !(rects[j].Contains(p) && rects[k].Contains(p))
    ensures Count(rects, p) <= 1
  {
    if rects != [] {
      CountOnce(rects[1..], p);
      CountCovers(rects[1..], p);
      if rects[0].Contains(p) {
        forall k | 0 <= k < |rects[1..]| ensures !rects[1..][k].Contains(p) {
          assert rects[1..][k] == rects[k + 1];
        }
      }
    }
  }

  lemma {:induction false} CountInside(rects: seq<Rect>, other: Rect, p: Point)
    ensures Sum(rects, Inside(CountAt(p), other)) == if other.Contains(p) then Count(rects, p) else 0
  {
    if rects != [] {
      CountInside(rects[1..], other, p);
      IntersectionCells(rects[0], other, p);
    }
  }

  /**
   * One round, cell by cell: outside `other` every cell keeps its multiplicity, and inside it
   * only the rectangles the round never checked remain.
   */
  lemma RoundCount(rects: seq<Rect>, other: Rect, p: Point)
    ensures Count(Round(rects, other), p)
         == Count(if other.Contains(p) then LeftOver(rects, other) else rects, p)
    ensures Count(Round(rects, other), p) <= Count(rects, p)
  {
    forall item: Rect | item.Overlaps(other) ensures Splits(CountAt(p), item, other) {
      CountSplits(p, item, other);
    }
    RoundConserves(rects, other, CountAt(p));
    CountInside(rects, other, p);
    CountInside(LeftOver(rects, other), other, p);
    UncheckedWithin(rects, 0, |rects|, HitBy(other), CutBy(other), CountAt(p));
  }

  lemma {:induction false} SubtractManyCount(rects: seq<Rect>, others: seq<Rect>, p: Point)
    ensures Count(SubtractMany(rects, others), p) <= Count(rects, p)
    ensures !Covers(others, p) ==> Count(SubtractMany(rects, others), p) == Count(rects, p)
    decreases others
  {
    if others != [] && rects != [] {
      RoundCount(rects, others[0], p);
      SubtractManyCount(Round(rects, others[0]), others[1..], p);
      if Covers(others[1..], p) {
        var k :| 0 <= k < |others[1..]| && others[1..][k].Contains(p);
        assert others[k + 1].Contains(p);
      }
      assert others[0].Contains(p) ==> Covers(others, p);
    }
  }

  // ---- coverage and disjointness ----------------------------------------------------------

  /** The result holds at least the cells of `rects` minus `others`, and at most those of `rects`. */
  lemma SubtractManyCoverage(rects: seq<Rect>, others: seq<Rect>, p: Point)
    ensures Covers(rects, p) && !Covers(others, p) ==> Covers(SubtractMany(rects, others), p)
    ensures Covers(SubtractMany(rects, others), p) ==> Covers(rects, p)
  {
    SubtractManyCount(rects, others, p);
    CountCovers(rects, p);
    CountCovers(SubtractMany(rects, others), p);
  }

  lemma SubtractManyDisjoint(rects: seq<Rect>, others: seq<Rect>)
    requires PairwiseDisjoint(rects)
    ensures PairwiseDisjoint(SubtractMany(rects, others))
  {
    var out := SubtractMany(rects, others);
    forall p: Point, j, k | 0 <= j < k < |out|
      ensures !(out[j].Contains(p) && out[k].Contains(p))
    {
      if out[j].Contains(p) && out[k].Contains(p) {
        CountTwice(out, p, j, k);
        SubtractManyCount(rects, others, p);
        CountOnce(rects, p);
      }
    }
  }

  // ---- area -------------------------------------------------------------------------------

  /** A round takes away exactly the area of the intersections of the rectangles it checks. */
  lemma RoundCellArea(rects: seq<Rect>, other: Rect)
    ensures Sum(Round(rects, other), Area())
         == Sum(rects, Area()) - Sum(rects, Inside(Area(), other)) + Sum(LeftOver(rects, other), Inside(Area(), other))
  {
    forall item: Rect | item.Overlaps(other) ensures Splits(Area(), item, other) {
      AreaSplits(item, other);
    }
    RoundConserves(rects, other, Area());
  }

  function WidthTimesHeight(): Weight { (r: Rect) => r.size.w * r.size.h }

  function EndsFit(): Rect -> bool {
    (r: Rect) => r.loc.x + r.size.w <= I32_MAX && r.loc.y + r.size.h <= I32_MAX
  }

  lemma PiecesFit(item: Rect, other: Rect)
    requires EndsFit()(item)
    ensures All(Pieces(item, other), EndsFit())
  {
    if item.Overlaps(other) {
      IntersectionEnds(item, other);
      SplitFits(item, Intersection(item, other).value);
    }
  }

  lemma SplitFits(item: Rect, i: Rect)
    requires EndsFit()(item) && EndsFit()(i) && item.ContainsRect(i)
    ensures All(Split(item, i), EndsFit())
  {
    var top: Rect, left: Rect := TopOf(item, i), LeftOf(item, i);
    var right: Rect, bottom: Rect := RightOf(item, i), BottomOf(item, i);
    PartEnds(item, i);
    assert EndsFit()(top) && EndsFit()(left) && EndsFit()(right) && EndsFit()(bottom);
  }

  lemma AreaOfFitting(rects: seq<Rect>)
    requires All(rects, EndsFit())
    ensures Sum(rects, Area()) == Sum(rects, WidthTimesHeight())
  {
    SumAgree(rects, EndsFit(), Area(), WidthTimesHeight());
  }

  lemma InsideOfFitting(rects: seq<Rect>, other: Rect)
    ensures Sum(rects, Inside(Area(), other)) == Sum(rects, Inside(WidthTimesHeight(), other))
  {
    forall r: Rect ensures Inside(Area(), other)(r) == Inside(WidthTimesHeight(), other)(r) {
      if r.Overlaps(other) { IntersectionEnds(r, other); }
    }
    SumAgree(rects, (r: Rect) => true, Inside(Area(), other), Inside(WidthTimesHeight(), other));
  }

  /** When no end saturates, total w * h falls by the summed w * h of the intersections removed. */
  lemma RoundArea(rects: seq<Rect>, other: Rect)
    requires All(rects, EndsFit())
    ensures Sum(Round(rects, other), WidthTimesHeight())
         == Sum(rects, WidthTimesHeight()) - Sum(rects, Inside(WidthTimesHeight(), other))
            + Sum(LeftOver(rects, other), Inside(WidthTimesHeight(), other))
  {
    forall r: Rect | EndsFit()(r) ensures All(CutBy(other)(r), EndsFit()) {
      PiecesFit(r, other);
    }
    SweepKeeps(rects, 0, |rects|, HitBy(other), CutBy(other), EndsFit());
    RoundCellArea(rects, other);
    AreaOfFitting(rects);
    AreaOfFitting(Round(rects, other));
    InsideOfFitting(rects, other);
    InsideOfFitting(LeftOver(rects, other), other);
  }

  // ---- exactness --------------------------------------------------------------------------

  /** The pure reference: every rectangle cut once, in order. */
  function Reference(rects: seq<Rect>, other: Rect): seq<Rect> {
    if rects == [] then [] else Pieces(rects[0], other) + Reference(rects[1..], other)
  }

  lemma {:induction false} ReferenceCount(rects: seq<Rect>, other: Rect, p: Point)
    ensures Count(Reference(rects, other), p) == if other.Contains(p) then 0 else Count(rects, p)
  {
    if rects != [] {
      var item := rects[0];
      ReferenceCount(rects[1..], other, p);
      SumConcat(Pieces(item, other), Reference(rects[1..], other), CountAt(p));
      IntersectionCells(item, other, p);
      if item.Overlaps(other) {
        CountSplits(p, item, other);
      } else {
        assert Pieces(item, other) == [item];
      }
    }
  }

  /** The reference subtraction holds exactly the cells of `rects` outside `other`. */
  lemma ReferenceExact(rects: seq<Rect>, other: Rect, p: Point)
    ensures Covers(Reference(rects, other), p) <==> Covers(rects, p) && !other.Contains(p)
  {
    ReferenceCount(rects, other, p);
    CountCovers(rects, p);
    CountCovers(Reference(rects, other), p);
  }

  ghost predicate Exact(rects: seq<Rect>, other: Rect) {
    forall p: Point :: Covers(Round(rects, other), p) <==> Covers(Reference(rects, other), p)
  }

  /** However long the list, the loop covers everything the reference covers. */
  lemma RoundCoversReference(rects: seq<Rect>, other: Rect, p: Point)
    ensures Covers(Reference(rects, other), p) ==> Covers(Round(rects, other), p)
  {
    ReferenceExact(rects, other, p);
    RoundCount(rects, other, p);
    CountCovers(rects, p);
    CountCovers(Round(rects, other), p);
  }

  predicate NoneShares(rects: seq<Rect>, other: Rect) {
    forall k :: 0 <= k < |rects| ==> !SharesCell(rects[k], other)
  }

  /** A round is exact exactly when no rectangle it left unchecked shares a cell with `other`. */
  lemma RoundExactIff(rects: seq<Rect>, other: Rect)
    ensures Exact(rects, other) <==> NoneShares(LeftOver(rects, other), other)
  {
    var left := LeftOver(rects, other);
    if Exact(rects, other) {
      forall k | 0 <= k < |left|
        ensures !SharesCell(left[k], other)
      {
        if SharesCell(left[k], other) {
          SharedCellIffOverlap(left[k], other);
          var p: Point :| left[k].Contains(p) && other.Contains(p);
          CountCovers(left, p);
          RoundCount(rects, other, p);
          CountCovers(Round(rects, other), p);
          ReferenceExact(rects, other, p);
        }
      }
    }
    if NoneShares(left, other) {
      forall p: Point
        ensures Covers(Round(rects, other), p) <==> Covers(Reference(rects, other), p)
      {
        RoundCount(rects, other, p);
        ReferenceExact(rects, other, p);
        CountCovers(rects, p);
        CountCovers(left, p);
        CountCovers(Round(rects, other), p);
        if other.Contains(p) {
          forall k | 0 <= k < |left| ensures !left[k].Contains(p) {
            SharedCellIffOverlap(left[k], other);
          }
        }
      }
    }
  }

  /** A round in which at most two current rectangles overlap `other` is exact. */
  lemma AtMostTwoHitsExact(rects: seq<Rect>, other: Rect)
    requires Hits(rects, HitBy(other)) <= 2
    ensures Exact(rects, other)
  {
    FewHitsAllChecked(rects, 0, HitBy(other), CutBy(other));
    RoundExactIff(rects, other);
  }

  /** `subtract_rect` is exact for every pair of rectangles. */
  lemma SubtractRectExact(self: Rect, other: Rect, p: Point)
    ensures Covers(SubtractRect(self, other), p) <==> self.Contains(p) && !other.Contains(p)
  {
    AtMostTwoHitsExact([self], other);
    ReferenceExact([self], other, p);
    assert [other][1..] == [];
    assert SubtractRect(self, other) == SubtractMany(Round([self], other), []);
    assert Covers([self], p) <==> self.Contains(p) by {
      if self.Contains(p) { assert [self][0].Contains(p); }
    }
  }

  // ---- exactness of the whole operation -----------------------------------------------------

  ghost predicate ManyExact(rects: seq<Rect>, others: seq<Rect>) {
    forall p: Point :: Covers(SubtractMany(rects, others), p) <==> Covers(rects, p) && !Covers(others, p)
  }

  /** Whatever a round leaves unchecked inside its subtrahend, a later subtrahend covers. */
  ghost predicate NoneSurvives(rects: seq<Rect>, others: seq<Rect>)
    decreases others
  {
    others == []
    || ((forall p: Point :: others[0].Contains(p) && Covers(LeftOver(rects, others[0]), p) ==> Covers(others[1..], p))
        && NoneSurvives(Round(rects, others[0]), others[1..]))
  }

  lemma CoversFirst(rects: seq<Rect>, p: Point)
    requires rects != []
    ensures Covers(rects, p) <==> rects[0].Contains(p) || Covers(rects[1..], p)
  {
    CountCovers(rects, p);
    CountCovers(rects[1..], p);
  }

  lemma RoundCovers(rects: seq<Rect>, other: Rect, p: Point)
    ensures Covers(Round(rects, other), p)
       <==> Covers(if other.Contains(p) then LeftOver(rects, other) else rects, p)
    ensures Covers(Round(rects, other), p) ==> Covers(rects, p)
  {
    RoundCount(rects, other, p);
    CountCovers(rects, p);
    CountCovers(LeftOver(rects, other), p);
    CountCovers(Round(rects, other), p);
  }

  lemma SubtractManyFirst(rects: seq<Rect>, others: seq<Rect>)
    requires others != []
    ensures SubtractMany(rects, others) == SubtractMany(Round(rects, others[0]), others[1..])
  {
  }

  /** A cell of the first subtrahend that survives its round and all later ones spoils exactness. */
  lemma ExactNeedsNoneSurviving(rects: seq<Rect>, others: seq<Rect>, p: Point)
    requires others != [] && ManyExact(rects, others)
    ensures others[0].Contains(p) && Covers(LeftOver(rects, others[0]), p) ==> Covers(others[1..], p)
    ensures Covers(SubtractMany(Round(rects, others[0]), others[1..]), p)
       <==> Covers(Round(rects, others[0]), p) && !Covers(others[1..], p)
  {
    var first, rest := others[0], others[1..];
    assert Covers(SubtractMany(rects, others), p) <==> Covers(rects, p) && !Covers(others, p);
    SubtractManyFirst(rects, others);
    RoundCovers(rects, first, p);
    CoversFirst(others, p);
    SubtractManyCoverage(Round(rects, first), rest, p);
  }

  lemma NoneSurvivingMakesExact(rects: seq<Rect>, others: seq<Rect>, p: Point)
    requires others != [] && ManyExact(Round(rects, others[0]), others[1..])
    requires others[0].Contains(p) && Covers(LeftOver(rects, others[0]), p) ==> Covers(others[1..], p)
    ensures Covers(SubtractMany(rects, others), p) <==> Covers(rects, p) && !Covers(others, p)
  {
    var first, rest := others[0], others[1..];
    assert Covers(SubtractMany(Round(rects, first), rest), p) <==> Covers(Round(rects, first), p) && !Covers(rest, p);
    SubtractManyFirst(rects, others);
    RoundCovers(rects, first, p);
    CoversFirst(others, p);
  }

  /**
   * The whole operation is exact exactly when no cell of a subtrahend survives: neither its own round,
   * in a rectangle left unchecked, nor the subtrahends after it.
   */
  lemma {:induction false} SubtractManyExactIff(rects: seq<Rect>, others: seq<Rect>)
    ensures ManyExact(rects, others) <==> NoneSurvives(rects, others)
    decreases others
  {
    if others != [] {
      SubtractManyExactIff(Round(rects, others[0]), others[1..]);
      if ManyExact(rects, others) {
        forall p: Point
          ensures others[0].Contains(p) && Covers(LeftOver(rects, others[0]), p) ==> Covers(others[1..], p)
          ensures Covers(SubtractMany(Round(rects, others[0]), others[1..]), p)
             <==> Covers(Round(rects, others[0]), p) && !Covers(others[1..], p)
        {
          ExactNeedsNoneSurviving(rects, others, p);
        }
      }
      if NoneSurvives(rects, others) {
        forall p: Point
          ensures Covers(SubtractMany(rects, others), p) <==> Covers(rects, p) && !Covers(others, p)
        {
          NoneSurvivingMakesExact(rects, others, p);
        }
      }
    } else {
      assert forall p: Point :: !Covers(others, p);
    }
  }

  ghost predicate AllRoundsExact(rects: seq<Rect>, others: seq<Rect>)
    decreases others
  {
    others != [] ==> Exact(rects, others[0]) && AllRoundsExact(Round(rects, others[0]), others[1..])
  }

  lemma {:induction false} ExactRoundsLeaveNone(rects: seq<Rect>, others: seq<Rect>)
    requires AllRoundsExact(rects, others)
    ensures NoneSurvives(rects, others)
    decreases others
  {
    if others != [] {
      forall p: Point | others[0].Contains(p) ensures !Covers(LeftOver(rects, others[0]), p) {
        RoundCovers(rects, others[0], p);
        ReferenceExact(rects, others[0], p);
      }
      ExactRoundsLeaveNone(Round(rects, others[0]), others[1..]);
    }
  }

  /** When every round is exact, the whole operation is: what is left is `rects` minus `others`. */
  lemma SubtractManyExact(rects: seq<Rect>, others: seq<Rect>, p: Point)
    requires AllRoundsExact(rects, others)
    ensures Covers(SubtractMany(rects, others), p) <==> Covers(rects, p) && !Covers(others, p)
  {
    ExactRoundsLeaveNone(rects, others);
    SubtractManyExactIff(rects, others);
  }

  lemma PartlyOutsideLeavesPieces(r: Rect, other: Rect)
    requires r.Overlaps(other) && r.HasCells()
    ensures Pieces(r, other) != [] <==> !other.ContainsRect(r)
  {
    IntersectionEnds(r, other);
  }

  /**
   * When `other` swallows no rectangle whole, a round over rectangles with cells is exact
   * exactly when the misses at the end of the check order make up for all hits but two.
   */
  lemma RoundExactClosedForm(rects: seq<Rect>, other: Rect)
    requires other.HasCells()
    requires forall k :: 0 <= k < |rects| ==> rects[k].HasCells() && !other.ContainsRect(rects[k])
    ensures var hit := HitBy(other);
            Exact(rects, other) <==> Hits(rects, hit) <= TrailingMisses(CheckOrder(rects, hit), hit) + 2
  {
    var hit, cut, left := HitBy(other), CutBy(other), LeftOver(rects, other);
    forall k | 0 <= k < |rects| && hit(rects[k]) ensures cut(rects[k]) != [] {
      PartlyOutsideLeavesPieces(rects[k], other);
    }
    AllHitsCheckedIff(rects, hit, cut);
    RoundExactIff(rects, other);
    UncheckedAreOriginals(rects, 0, |rects|, hit, cut);
    forall k | 0 <= k < |left| ensures SharesCell(left[k], other) <==> hit(left[k]) {
      assert left[k] in rects;
    }
  }

  // ---- where it is not exact ----------------------------------------------------------------

  function Rec(x: int, y: int, w: int, h: int): Rectangle { Rectangle(Point(x, y), Size(w, h)) }

  function Row(): seq<Rect> { [Rec(0, 0, 10, 10), Rec(10, 0, 10, 10), Rec(20, 0, 10, 10)] }

  function Strip(): Rect { Rec(0, 0, 30, 5) }

  /** The row with its first and last rectangles cut. */
  function CutRow(): seq<Rect> { [Rec(0, 5, 10, 5), Rec(10, 0, 10, 10), Rec(20, 5, 10, 5)] }

  lemma StripPieces()
    ensures Pieces(Row()[0], Strip()) == [CutRow()[0]] && Pieces(Row()[2], Strip()) == [CutRow()[2]]
    ensures !CutRow()[0].Overlaps(Strip())
  {
  }

  /** The second check meets the last rectangle, the third the first one's piece. */
  lemma RowRound()
    ensures Round(Row(), Strip()) == CutRow()
  {
    var hit, cut := HitBy(Strip()), CutBy(Strip());
    var next: seq<Rect> := [Row()[2], Row()[1], CutRow()[0]];
    StripPieces();
    assert SwapRemove(Row(), 0) + cut(Row()[0]) == next;
    assert Sweep(Row(), 0, 3, hit, cut) == Sweep(next, 0, 2, hit, cut);
    assert SwapRemove(next, 0) + cut(next[0]) == CutRow();
    assert Sweep(next, 0, 2, hit, cut) == Sweep(CutRow(), 0, 1, hit, cut);
  }

  /** Three rectangles in a row, a strip across their tops: the middle one is never cut. */
  lemma ThreeHitsCounterexample()
    ensures Round(Row(), Strip()) == CutRow() && CutRow()[1] == Row()[1] && !Exact(Row(), Strip())
  {
    RowRound();
    assert CutRow()[1].Contains(Point(10, 0));
    ReferenceExact(Row(), Strip(), Point(10, 0));
  }

  /** A second round with the same subtrahend makes good what the first one left, if it is exact itself. */
  lemma SecondRoundRepairs(rects: seq<Rect>, other: Rect)
    requires Exact(Round(rects, other), other)
    ensures ManyExact(rects, [other, other])
  {
    var others, last := [other, other], [other];
    assert others[1..] == last && last[1..] == [];
    ExactRoundsLeaveNone(Round(rects, other), last);
    forall p: Point | other.Contains(p) ensures Covers(last, p) { assert last[0].Contains(p); }
    SubtractManyExactIff(rects, others);
  }

  /** So exact rounds are not necessary: the strip taken out twice leaves exactly the difference. */
  lemma RepeatedStripExact()
    ensures ManyExact(Row(), [Strip(), Strip()]) && !Exact(Row(), Strip())
  {
    ThreeHitsCounterexample();
    OneOfThreeHits(CutRow(), Strip());
    AtMostTwoHitsExact(CutRow(), Strip());
    SecondRoundRepairs(Row(), Strip());
  }

  lemma OneOfThreeHits(rects: seq<Rect>, other: Rect)
    requires |rects| == 3 && !rects[0].Overlaps(other) && !rects[2].Overlaps(other)
    ensures Hits(rects, HitBy(other)) <= 2
  {
    var hit := HitBy(other);
    assert !hit(rects[0]);
    assert Hits(rects, hit) == Hits(rects[1..], hit);
    HitsAtMost(rects[1..], hit);
  }

  lemma OneHit(self: Rect, other: Rect)
    requires self.Overlaps(other)
    ensures Round([self], other) == Pieces(self, other)
  {
    var rects := [self];
    assert SwapRemove(rects, 0) + Pieces(rects[0], other) == Pieces(self, other);
    var hit, cut := HitBy(other), CutBy(other);
    assert Sweep(rects, 0, 1, hit, cut) == Sweep(Pieces(self, other), 0, 0, hit, cut);
  }

  function Outer(): Rect { Rec(0, 0, 30, 30) }

  function Hole(): Rect { Rec(10, 10, 10, 10) }

  function LargerHole(): Rect { Rec(5, 5, 20, 20) }

  function Ring(): seq<Rect> {
    [Rec(0, 0, 30, 10), Rec(0, 10, 10, 10), Rec(20, 10, 10, 10), Rec(0, 20, 30, 10)]
  }

  lemma RingIsAllHits()
    ensures var hit := HitBy(LargerHole());
            Hits(Ring(), hit) == 4 && TrailingMisses(CheckOrder(Ring(), hit), hit) == 0
  {
    var hit, ring := HitBy(LargerHole()), Ring();
    assert hit(ring[0]) && hit(ring[1]) && hit(ring[2]) && hit(ring[3]);
    AllHitsCount(ring, hit);
    CheckOrderHits(ring, hit);
    LastHitNoTrailing(CheckOrder(ring, hit), hit);
  }

  lemma {:induction false} AllHitsCount<T>(s: seq<T>, hit: T -> bool)
    requires forall k :: 0 <= k < |s| ==> hit(s[k])
    ensures Hits(s, hit) == |s|
  {
    if s != [] { AllHitsCount(s[1..], hit); }
  }

  lemma {:induction false} LastHitNoTrailing<T>(s: seq<T>, hit: T -> bool)
    requires Hits(s, hit) == |s|
    ensures TrailingMisses(s, hit) == 0
  {
    if s != [] {
      HitsAtMost(s[1..], hit);
      LastHitNoTrailing(s[1..], hit);
    }
  }

  lemma {:induction false} HitsAtMost<T>(s: seq<T>, hit: T -> bool)
    ensures Hits(s, hit) <= |s|
  {
    if s != [] { HitsAtMost(s[1..], hit); }
  }

  lemma RingIsOuterMinusHole()
    ensures Round([Outer()], Hole()) == Ring()
  {
    OneHit(Outer(), Hole());
    var i := Intersection(Outer(), Hole()).value;
    assert i == Hole();
    assert Pieces(Outer(), Hole()) == Split(Outer(), i);
  }

  /** An inexact round leaves a cell of `other` covered. */
  lemma InexactLeavesCell(rects: seq<Rect>, other: Rect) returns (p: Point)
    requires !Exact(rects, other)
    ensures other.Contains(p) && Covers(Round(rects, other), p)
  {
    p :| !(Covers(Round(rects, other), p) <==> Covers(Reference(rects, other), p));
    RoundCoversReference(rects, other, p);
    ReferenceExact(rects, other, p);
    RoundCount(rects, other, p);
    CountCovers(rects, p);
    CountCovers(Round(rects, other), p);
  }

  lemma RingInexact()
    ensures !Exact(Ring(), LargerHole())
  {
    RingIsAllHits();
    RoundExactClosedForm(Ring(), LargerHole());
  }

  lemma SubtractTwo(self: Rect, a: Rect, b: Rect)
    requires Round([self], a) != []
    ensures SubtractRects(self, [a, b]) == Round(Round([self], a), b)
  {
    assert [a, b][1..] == [b] && [b][1..] == [];
    assert SubtractMany([self], [a, b]) == SubtractMany(Round([self], a), [b]);
    assert SubtractMany(Round([self], a), [b]) == SubtractMany(Round(Round([self], a), b), []);
  }

  /** Two cuts suffice to go wrong from a single rectangle: a hole, then a larger hole around it. */
  lemma TwoCutsCounterexample() returns (p: Point)
    ensures LargerHole().Contains(p) && Covers(SubtractRects(Outer(), [Hole(), LargerHole()]), p)
  {
    RingIsOuterMinusHole();
    SubtractTwo(Outer(), Hole(), LargerHole());
    RingInexact();
    p := InexactLeavesCell(Ring(), LargerHole());
  }
}
