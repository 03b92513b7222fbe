/** What the overlap ratio of helpers/track_manager.hpp:53-68 measures, told from the corners of the boxes. */
module BoxOverlap {
  import opened Association

  // ----- corners

  function Larger(a: real, b: real): real {
    if a < b then b else a
  }

  function Smaller(a: real, b: real): real {
    if a < b then a else b
  }

  /** How much of the stretch from lo to hi lies between from and to. */
  function Within(lo: real, hi: real, from: real, to: real): real {
    Larger(0.0, Smaller(hi, to) - Larger(lo, from))
  }

  /** How much of the stretch from lo to hi lies before from, and how much after to. */
  function Beyond(lo: real, hi: real, from: real, to: real): real {
    Larger(0.0, Smaller(hi, from) - lo) + Larger(0.0, hi - Larger(lo, to))
  }

  /** The area of a rectangle. */
  function Rect(w: real, h: real): real {
    w * h
  }

  /** The area both boxes cover. */
  function SharedArea(a: Box, b: Box): real {
    Rect(Within(a.x, a.x + a.w, b.x, b.x + b.w), Within(a.y, a.y + a.h, b.y, b.y + b.h))
  }

  /** The area b covers and a does not: what sticks out to the sides in full height, and what is left
      above and below. */
  function OutsideArea(b: Box, a: Box): real {
    Rect(Beyond(b.x, b.x + b.w, a.x, a.x + a.w), b.h) +
    Rect(Within(b.x, b.x + b.w, a.x, a.x + a.w), Beyond(b.y, b.y + b.h, a.y, a.y + a.h))
  }

  /** The area either box covers: that of a, and of b what is not in a. */
  function CoveredArea(a: Box, b: Box): real {
    Rect(a.w, a.h) + OutsideArea(b, a)
  }

  predicate Sized(b: Box) {
    b.w > 0.0 && b.h > 0.0
  }

  /** A point strictly inside a box. */
  predicate Inside(b: Box, x: real, y: real) {
    b.x < x < b.x + b.w && b.y < y < b.y + b.h
  }

  // ----- stretches

  lemma StretchSplits(lo: real, len: real, from: real, width: real)
    requires len > 0.0 && width > 0.0
    ensures Within(lo, lo + len, from, from + width) + Beyond(lo, lo + len, from, from + width) == len
    ensures Within(lo, lo + len, from, from + width) == Within(from, from + width, lo, lo + len)
  {
  }

  /** The source's min and max give the same stretch where it is positive. */
  lemma StretchOf(a: real, aw: real, b: real, bw: real)
    ensures Larger(0.0, Min(a + aw, b + bw) - Max(a, b)) == Within(a, a + aw, b, b + bw)
  {
  }

  lemma RectIsArea(w: real, h: real)
    ensures Rect(w, h) == Area(w, h)
  {
  }

  lemma RectSplits(m: real, p: real, w: real, n: real, q: real, h: real)
    requires m + p == w && n + q == h
    ensures Rect(p, h) + Rect(m, q) == Rect(w, h) - Rect(m, n)
  {
    RectSplitsAt(m, w, n, h);
  }

  lemma RectSplitsAt(m: real, w: real, n: real, h: real)
    ensures (w - m) * h + m * (h - n) == w * h - m * n
  {
  }

  lemma RectFits(m: real, n: real, w: real, h: real)
    requires 0.0 <= m <= w && 0.0 <= n <= h && w > 0.0 && h > 0.0
    ensures 0.0 <= Rect(m, n) <= Rect(w, h) && Rect(w, h) > 0.0
    ensures Rect(m, n) > 0.0 <==> m > 0.0 && n > 0.0
    ensures Rect(m, n) == Rect(w, h) <==> m == w && n == h
  {
    AreaMonotone(m, n, w, h);
    SharedSign(m, n);
    SharedSign(w, h);
    FullProduct(m, n, w, h);
  }

  /** How long two stretches meet, and that the length fits in both. */
  lemma StretchFits(a: real, aw: real, b: real, bw: real)
    requires aw > 0.0 && bw > 0.0
    ensures var m := Within(a, a + aw, b, b + bw); 0.0 <= m <= aw && m <= bw && m == Within(b, b + bw, a, a + aw)
    ensures Within(a, a + aw, b, b + bw) == aw == bw ==> a == b
  {
  }

  /** Covered and shared area together are the two areas. */
  lemma AreasAdd(a: Box, b: Box)
    requires Sized(a) && Sized(b)
    ensures CoveredArea(a, b) + SharedArea(a, b) == Rect(a.w, a.h) + Rect(b.w, b.h)
  {
    hide Within, Beyond, Rect;
    StretchSplits(b.x, b.w, a.x, a.w);
    StretchSplits(b.y, b.h, a.y, a.h);
    var m, n := Within(b.x, b.x + b.w, a.x, a.x + a.w), Within(b.y, b.y + b.h, a.y, a.y + a.h);
    var p, q := Beyond(b.x, b.x + b.w, a.x, a.x + a.w), Beyond(b.y, b.y + b.h, a.y, a.y + a.h);
    RectSplits(m, p, b.w, n, q, b.h);
  }

  lemma SharedFits(a: Box, b: Box)
    requires Sized(a) && Sized(b)
    ensures 0.0 <= SharedArea(a, b) <= Rect(a.w, a.h) && SharedArea(a, b) <= Rect(b.w, b.h)
    ensures Rect(a.w, a.h) > 0.0 && Rect(b.w, b.h) > 0.0
  {
    hide Within, Rect;
    StretchFits(a.x, a.w, b.x, b.w);
    StretchFits(a.y, a.h, b.y, b.h);
    var m, n := Within(a.x, a.x + a.w, b.x, b.x + b.w), Within(a.y, a.y + a.h, b.y, b.y + b.h);
    RectFits(m, n, a.w, a.h);
    RectFits(m, n, b.w, b.h);
  }

  // ----- the ratio

  /** The ratio is that of the shared area to the area covered by either box. */
  lemma IouIsSharedOverCovered(a: Box, b: Box)
    requires Sized(a) && Sized(b)
    ensures CoveredArea(a, b) > 0.0
    ensures Iou(a, b) * CoveredArea(a, b) == SharedArea(a, b)
  {
    hide CoveredArea, SharedArea, Iou, Rect;
    AreasAdd(a, b);
    SharedFits(a, b);
    IouShares(a, b);
    ShareOf(SharedArea(a, b), CoveredArea(a, b));
  }

  lemma IouShares(a: Box, b: Box)
    requires Sized(a) && Sized(b)
    ensures Iou(a, b) == Share(SharedArea(a, b), Rect(a.w, a.h) + Rect(b.w, b.h) - SharedArea(a, b))
  {
    hide Min, Max, Within, Share, Rect, Area;
    StretchOf(a.x, a.w, b.x, b.w);
    StretchOf(a.y, a.h, b.y, b.h);
    RectIsArea(a.w, a.h);
    RectIsArea(b.w, b.h);
    var iw, ih := Min(a.x + a.w, b.x + b.w) - Max(a.x, b.x), Min(a.y + a.h, b.y + b.h) - Max(a.y, b.y);
    RectIsArea(iw, ih);
    NoRect(Larger(0.0, iw), Larger(0.0, ih));
    NothingShared(Rect(a.w, a.h) + Rect(b.w, b.h));
  }

  lemma NoRect(m: real, n: real)
    ensures m == 0.0 || n == 0.0 ==> Rect(m, n) == 0.0
  {
  }

  lemma NothingShared(whole: real)
    ensures Share(0.0, whole) == 0.0
  {
  }

  lemma ShareOf(part: real, whole: real)
    requires whole > 0.0
    ensures Share(part, whole) * whole == part
  {
  }

  /** The ratio does not depend on the order of the boxes. */
  lemma IouIsSymmetric(a: Box, b: Box)
    ensures Iou(a, b) == Iou(b, a)
  {
    assert Max(a.x, b.x) == Max(b.x, a.x) && Max(a.y, b.y) == Max(b.y, a.y);
    assert Min(a.x + a.w, b.x + b.w) == Min(b.x + b.w, a.x + a.w);
    assert Min(a.y + a.h, b.y + b.h) == Min(b.y + b.h, a.y + a.h);
    hide Min, Max, Area, Share;
  }

  /** The ratio is positive exactly when some point lies strictly inside both boxes. */
  lemma IouPositiveIff(a: Box, b: Box)
    requires Sized(a) && Sized(b)
    ensures Iou(a, b) > 0.0 <==> exists x, y :: Inside(a, x, y) && Inside(b, x, y)
  {
    hide Iou, CoveredArea, Rect, Within;
    IouIsSharedOverCovered(a, b);
    SharedFits(a, b);
    RatioSign(Iou(a, b), CoveredArea(a, b), SharedArea(a, b));
    StretchFits(a.x, a.w, b.x, b.w);
    StretchFits(a.y, a.h, b.y, b.h);
    RectFits(Within(a.x, a.x + a.w, b.x, b.x + b.w), Within(a.y, a.y + a.h, b.y, b.y + b.h), a.w, a.h);
    MeetIff(a, b);
  }

  lemma MeetIff(a: Box, b: Box)
    ensures (exists x, y :: Inside(a, x, y) && Inside(b, x, y)) <==>
            Within(a.x, a.x + a.w, b.x, b.x + b.w) > 0.0 && Within(a.y, a.y + a.h, b.y, b.y + b.h) > 0.0
  {
    var m, n := Within(a.x, a.x + a.w, b.x, b.x + b.w), Within(a.y, a.y + a.h, b.y, b.y + b.h);
    if m > 0.0 && n > 0.0 {
      var x, y := Larger(a.x, b.x) + m / 2.0, Larger(a.y, b.y) + n / 2.0;
      assert Inside(a, x, y) && Inside(b, x, y);
    }
  }

  lemma RatioSign(ratio: real, whole: real, part: real)
    requires whole > 0.0 && ratio * whole == part && part >= 0.0
    ensures ratio > 0.0 <==> part > 0.0
  {
    assert ratio == part / whole;
  }

  lemma SharedSign(m: real, n: real)
    requires m >= 0.0 && n >= 0.0
    ensures m * n >= 0.0 && (m * n > 0.0 <==> m > 0.0 && n > 0.0)
  {
  }

  /** The ratio is 1 exactly for equal boxes. */
  lemma IouOneIff(a: Box, b: Box)
    requires Sized(a) && Sized(b)
    ensures Iou(a, b) == 1.0 <==> a == b
  {
    hide Iou, CoveredArea, Rect, Within;
    IouIsSharedOverCovered(a, b);
    AreasAdd(a, b);
    SharedFits(a, b);
    RatioOne(Iou(a, b), CoveredArea(a, b), SharedArea(a, b));
    StretchFits(a.x, a.w, b.x, b.w);
    StretchFits(a.y, a.h, b.y, b.h);
    SameStretch(a.x, a.w);
    SameStretch(a.y, a.h);
    var m, n := Within(a.x, a.x + a.w, b.x, b.x + b.w), Within(a.y, a.y + a.h, b.y, b.y + b.h);
    RectFits(m, n, a.w, a.h);
    RectFits(m, n, b.w, b.h);
  }

  lemma SameStretch(a: real, aw: real)
    requires aw > 0.0
    ensures Within(a, a + aw, a, a + aw) == aw
  {
  }

  lemma RatioOne(ratio: real, whole: real, part: real)
    requires whole > 0.0 && ratio * whole == part
    ensures ratio == 1.0 <==> part == whole
  {
    assert ratio == part / whole;
  }

  lemma FullProduct(m: real, n: real, w: real, h: real)
    requires 0.0 <= m <= w && 0.0 <= n <= h && w > 0.0 && h > 0.0
    ensures m * n == w * h <==> m == w && n == h
  {
    if m < w {
      assert m * n <= m * h;
      assert (w - m) * h > 0.0;
    } else if n < h {
      assert w * (h - n) > 0.0;
    }
  }
}
