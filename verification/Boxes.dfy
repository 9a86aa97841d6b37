/** Axis-aligned boxes and their intersection over union, in exact reals. */
module Boxes {
  import opened Reals

  function Max(a: real, b: real): real {
    if a < b then b else a
  }

  function Min(a: real, b: real): real {
    if b < a then b else a
  }

  /** Corner form. */
  datatype Rect = Rect(x1: real, y1: real, x2: real, y2: real)

  function Area(a: Rect): real {
    (a.x2 - a.x1) * (a.y2 - a.y1)
  }

  function Overlap(a: Rect, b: Rect): real {
    var iw := Max(0.0, Min(a.x2, b.x2) - Max(a.x1, b.x1));
    var ih := Max(0.0, Min(a.y2, b.y2) - Max(a.y1, b.y1));
    iw * ih
  }

  /** Intersection over union; zero when the union has no area. */
  function Iou(a: Rect, b: Rect): real {
    var inter := Overlap(a, b);
    var union := Area(a) + Area(b) - inter;
    if union > 0.0 then inter / union else 0.0
  }

  lemma IouSymmetric(a: Rect, b: Rect)
    ensures Iou(a, b) == Iou(b, a)
  {
    hide Area;
    assert Overlap(a, b) == Overlap(b, a) by {
      assert Min(a.x2, b.x2) == Min(b.x2, a.x2) && Max(a.x1, b.x1) == Max(b.x1, a.x1);
      assert Min(a.y2, b.y2) == Min(b.y2, a.y2) && Max(a.y1, b.y1) == Max(b.y1, a.y1);
    }
  }

  predicate Proper(a: Rect) {
    a.x1 <= a.x2 && a.y1 <= a.y2
  }

  lemma ProductMono(a: real, b: real, c: real, d: real)
    requires 0.0 <= a <= c && 0.0 <= b <= d
    ensures 0.0 <= a * b <= c * d
  {
    ProductNonNegative(a, b);
    ProductNonNegative(c - a, d);
    ProductNonNegative(a, d - b);
    assert c * d - a * b == (c - a) * d + a * (d - b);
  }

  /** The overlap fits into both boxes. */
  lemma OverlapFits(a: Rect, b: Rect)
    requires Proper(a) && Proper(b)
    ensures 0.0 <= Overlap(a, b) <= Area(a) && Overlap(a, b) <= Area(b)
  {
    var iw := Max(0.0, Min(a.x2, b.x2) - Max(a.x1, b.x1));
    var ih := Max(0.0, Min(a.y2, b.y2) - Max(a.y1, b.y1));
    ProductMono(iw, ih, a.x2 - a.x1, a.y2 - a.y1);
    ProductMono(iw, ih, b.x2 - b.x1, b.y2 - b.y1);
  }

  lemma QuotientRange(p: real, q: real)
    requires 0.0 <= p <= q && q > 0.0
    ensures 0.0 <= p / q <= 1.0 && (p / q == 1.0 <==> p == q) && (p / q == 0.0 <==> p == 0.0)
  {
    var r := p / q;
    assert r * q == p;
    if r < 0.0 { ProductPositive(-r, q); }
    if r > 1.0 { ProductPositive(r - 1.0, q); }
  }

  /** The measure lies between 0 and 1; for boxes of positive area it is 0 exactly when they do not
      overlap and 1 exactly when the overlap is all of both. */
  lemma IouRange(a: Rect, b: Rect)
    requires Proper(a) && Proper(b)
    ensures 0.0 <= Iou(a, b) <= 1.0
    ensures Area(a) > 0.0 && Area(b) > 0.0 ==>
              && (Iou(a, b) == 0.0 <==> Overlap(a, b) == 0.0)
              && (Iou(a, b) == 1.0 <==> Overlap(a, b) == Area(a) == Area(b))
  {
    OverlapFits(a, b);
    hide Overlap, Area;
    var inter := Overlap(a, b);
    var union := Area(a) + Area(b) - inter;
    if union > 0.0 { QuotientRange(inter, union); }
  }
}
