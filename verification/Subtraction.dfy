/** `subtract_rects_many_in_place`: the split of one rectangle and the loop over a vector. */
module Subtraction {
  import opened Wrappers
  import opened Rectangles
  import opened Worklist

  // ---- splitting one rectangle ------------------------------------------------------------

  function TopOf(item: Rect, inter: Rect): Rectangle {
    Rectangle(item.loc, Size(item.size.w, SatSub(inter.loc.y, item.loc.y)))
  }

  function LeftOf(item: Rect, inter: Rect): Rectangle {
    Rectangle(Point(item.loc.x, inter.loc.y), Size(SatSub(inter.loc.x, item.loc.x), inter.size.h))
  }

  function RightOf(item: Rect, inter: Rect): Rectangle {
    Rectangle(Point(SatAdd(inter.loc.x, inter.size.w), inter.loc.y),
              Size(SatSub(SatAdd(item.loc.x, item.size.w), SatAdd(inter.loc.x, inter.size.w)), inter.size.h))
  }

  function BottomOf(item: Rect, inter: Rect): Rectangle {
    Rectangle(Point(item.loc.x, SatAdd(inter.loc.y, inter.size.h)),
              Size(item.size.w, SatSub(SatAdd(item.loc.y, item.size.h), SatAdd(inter.loc.y, inter.size.h))))
  }

  function NonEmpty(r: Rect): (s: seq<Rect>) {
    if r.IsEmpty() then [] else [r]
  }

  /** The up to four pieces pushed for `item` around `inter`: top, left, right, bottom. */
  function Split(item: Rect, inter: Rect): (s: seq<Rect>)
    requires item.ContainsRect(inter)
    ensures |s| <= 4
  {
    NonEmpty(TopOf(item, inter)) + NonEmpty(LeftOf(item, inter))
    + NonEmpty(RightOf(item, inter)) + NonEmpty(BottomOf(item, inter))
  }

  /** What replaces `item` when `other` is taken out of it. */
  function Pieces(item: Rect, other: Rect): (s: seq<Rect>)
    ensures |s| <= 4
  {
    match Intersection(item, other)
    case None => [item]
    case Some(inter) =>
      IntersectionEnds(item, other);
      if other.ContainsRect(item) then [] else Split(item, inter)
  }

  // ---- the loop ---------------------------------------------------------------------------

  function HitBy(other: Rect): Rect -> bool { (r: Rect) => r.Overlaps(other) }

  function CutBy(other: Rect): Rect -> seq<Rect> { (r: Rect) => Pieces(r, other) }

  /** One turn of the outer loop: `other` taken out of `rects`. */
  function Round(rects: seq<Rect>, other: Rect): (out: seq<Rect>) {
    Sweep(rects, 0, |rects|, HitBy(other), CutBy(other))
  }

  function SubtractMany(rects: seq<Rect>, others: seq<Rect>): (out: seq<Rect>)
    decreases others
  {
    if others == [] || rects == [] then rects
    else SubtractMany(Round(rects, others[0]), others[1..])
  }

  /** The four conditional pushes at the end of the inner loop's body. */
  method PushPieces(rects: seq<Rect>, item: Rect, intersection: Rect) returns (out: seq<Rect>)
    requires item.ContainsRect(intersection)
    ensures out == rects + Split(item, intersection)
  {
    out := rects;
    var top := TopOf(item, intersection);
    var left := LeftOf(item, intersection);
    var right := RightOf(item, intersection);
    var bottom := BottomOf(item, intersection);
    if !top.IsEmpty() { out := out + [top]; }
    if !left.IsEmpty() { out := out + [left]; }
    if !right.IsEmpty() { out := out + [right]; }
    if !bottom.IsEmpty() { out := out + [bottom]; }
  }

  /** The inner loop: `items` checks, wherever `swap_remove` puts the rectangles meanwhile. */
  method SubtractInPlace(rects: seq<Rect>, other: Rect) returns (out: seq<Rect>)
    ensures out == Round(rects, other)
  {
    out := rects;
    var items, checked, index := |rects|, 0, 0;
    while checked != items
      invariant checked <= items && index + (items - checked) <= |out|
      invariant Sweep(out, index, items - checked, HitBy(other), CutBy(other)) == Round(rects, other)
    {
      checked := checked + 1;
      var intersection := Intersection(out[index], other);
      if intersection.None? {
        index := index + 1;
        continue;
      }
      var item := out[index];
      IntersectionEnds(item, other);
      var rest := SwapRemove(out, index);
      if other.ContainsRect(item) {
        assert rest + Pieces(item, other) == rest;
        out := rest;
      } else {
        out := PushPieces(rest, item, intersection.value);
      }
    }
  }

  method SubtractRectsManyInPlace(rects: seq<Rect>, others: seq<Rect>) returns (out: seq<Rect>)
    ensures out == SubtractMany(rects, others)
  {
    out := rects;
    for k := 0 to |others|
      invariant SubtractMany(out, others[k..]) == SubtractMany(rects, others)
    {
      if |out| == 0 {
        return;
      }
      assert others[k..][1..] == others[k + 1..];
      out := SubtractInPlace(out, others[k]);
    }
  }

  /** `subtract_rect`, `subtract_rects`: the same loop started from one rectangle. */
  function SubtractRect(self: Rect, other: Rect): seq<Rect> { SubtractMany([self], [other]) }

  function SubtractRects(self: Rect, others: seq<Rect>): seq<Rect> { SubtractMany([self], others) }

  /** A round grows n rectangles to at most 4n. */
  lemma RoundGrowth(rects: seq<Rect>, other: Rect)
    ensures |Round(rects, other)| <= 4 * |rects|
  {
    SweepGrowth(rects, 0, |rects|, HitBy(other), CutBy(other), 3);
  }
}
