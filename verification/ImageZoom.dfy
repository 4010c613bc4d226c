/** Clamping, checking and growing a bounding box, over the reals. */
module ImageZoom {
  import opened Basics
  import opened RealArith

  const MIN_DIMENSION := 28.0

  datatype Box = Box(left: real, top: real, right: real, bottom: real) {
    function Width(): real {
      right - left
    }

    function Height(): real {
      bottom - top
    }
  }

  function Min(a: real, b: real): real {
    if a <= b then a else b
  }

  function Max(a: real, b: real): real {
    if a >= b then a else b
  }

  function Ceil(x: real): int {
    if x.Floor as real == x then x.Floor else x.Floor + 1
  }

  /** `_validate_bbox` */
  predicate ValidBox(b: Box) {
    && b.left < b.right && b.top < b.bottom
    && Min(b.Height(), b.Width()) != 0.0
    && Max(b.Height(), b.Width()) / Min(b.Height(), b.Width()) <= 100.0
  }

  /** A box is valid exactly when it has room in it and no side is over 100 times the other. */
  lemma ValidIff(b: Box)
    ensures ValidBox(b)
            <==> 0.0 < b.Width() <= 100.0 * b.Height() && 0.0 < b.Height() <= 100.0 * b.Width()
  {
    var w, h := b.Width(), b.Height();
    if w > 0.0 && h > 0.0 {
      HundredfoldIff(w, h);
      HundredfoldIff(h, w);
    }
  }

  lemma HundredfoldIff(x: real, y: real)
    requires y > 0.0
    ensures x / y <= 100.0 <==> x <= 100.0 * y
  {
    var q := x / y;
    assert q * y == x;
    if x <= 100.0 * y {
      assert (100.0 - q) * y >= 0.0;
    } else {
      assert (100.0 - q) * y < 0.0;
    }
  }

  function Clamp(b: Box, imageWidth: int, imageHeight: int): Box {
    Box(Max(0.0, b.left), Max(0.0, b.top), Min(imageWidth as real, b.right), Min(imageHeight as real, b.bottom))
  }

  /** Clamping is intersecting with the image: a point is in the clamped box exactly when it is in
      the box and in the image. So a clamped box with room in it is the largest inside both. */
  lemma ClampIsIntersection(b: Box, imageWidth: int, imageHeight: int, x: real, y: real)
    ensures var c := Clamp(b, imageWidth, imageHeight);
            c.left <= x <= c.right && c.top <= y <= c.bottom
            <==> && b.left <= x <= b.right && b.top <= y <= b.bottom
                 && 0.0 <= x <= imageWidth as real && 0.0 <= y <= imageHeight as real
  {
  }

  lemma ClampIsLargest(b: Box, imageWidth: int, imageHeight: int, inner: Box)
    ensures var c := Clamp(b, imageWidth, imageHeight);
            && Inside(c, imageWidth, imageHeight) && Contains(b, c)
            && (Contains(b, inner) && Inside(inner, imageWidth, imageHeight) <==> Contains(c, inner))
  {
  }

  /** The box is inside the image. */
  predicate Inside(b: Box, imageWidth: int, imageHeight: int) {
    0.0 <= b.left && b.right <= imageWidth as real && 0.0 <= b.top && b.bottom <= imageHeight as real
  }

  predicate Contains(outer: Box, inner: Box) {
    outer.left <= inner.left && inner.right <= outer.right && outer.top <= inner.top && inner.bottom <= outer.bottom
  }

  predicate TooSmall(b: Box) {
    b.Height() < MIN_DIMENSION || b.Width() < MIN_DIMENSION
  }

  /** One scaling down: x to its limit, y along with it. */
  function Fit(x: real, y: real, limit: real): (r: (real, real))
    requires x > 0.0 && y > 0.0 && limit > 0.0
    ensures r.0 > 0.0 && r.1 > 0.0
  {
    OverIs(limit, x);
    TimesPos(y, Over(limit, x));
    if x > limit then (limit, Times(y, Over(limit, x))) else (x, y)
  }

  /** The target size in the program's two steps: first until the smaller side is big enough, then
      down again to fit the image, in width and then in height. */
  function TwoStepSize(w: real, h: real, imageWidth: real, imageHeight: real): (real, real)
    requires w > 0.0 && h > 0.0 && imageWidth > 0.0 && imageHeight > 0.0
  {
    var ratio := Over(MIN_DIMENSION, Min(h, w));
    OverIs(MIN_DIMENSION, Min(h, w));
    TimesPos(w, ratio);
    TimesPos(h, ratio);
    var inWidth := Fit(Times(w, ratio), Times(h, ratio), imageWidth);
    var inHeight := Fit(inWidth.1, inWidth.0, imageHeight);
    (inHeight.1, inHeight.0)
  }

  /** The one factor that does the same. */
  function Factor(w: real, h: real, imageWidth: real, imageHeight: real): real
    requires w > 0.0 && h > 0.0
  {
    Min(Min(Over(MIN_DIMENSION, Min(h, w)), Over(imageWidth, w)), Over(imageHeight, h))
  }

  /** Scaling a side down from x * s to the limit scales the other from y * s to y * (limit / x). */
  lemma ScaleDown(x: real, y: real, s: real, limit: real)
    requires x > 0.0 && y > 0.0 && s > 0.0 && limit > 0.0
    ensures Times(x, s) > 0.0 && Times(y, s) > 0.0
    ensures Times(x, s) > limit <==> s > Over(limit, x)
    ensures Times(Times(y, s), Over(limit, Times(x, s))) == Times(y, Over(limit, x))
  {
    hide Times, Over;
    TimesPos(x, s);
    TimesPos(y, s);
    OverIs(limit, x);
    TimesLe(x, s, Over(limit, x));
    var q := Over(limit, Times(x, s));
    OverIs(limit, Times(x, s));
    TimesAssociative(x, s, q);
    TimesCancel(x, Times(s, q), Over(limit, x));
    TimesAssociative(y, s, q);
  }

  lemma FitScaled(x: real, y: real, s: real, limit: real)
    requires x > 0.0 && y > 0.0 && s > 0.0 && limit > 0.0
    ensures Times(x, s) > 0.0 && Times(y, s) > 0.0 && Min(s, Over(limit, x)) > 0.0
    ensures Fit(Times(x, s), Times(y, s), limit).0 == Times(x, Min(s, Over(limit, x)))
    ensures Fit(Times(x, s), Times(y, s), limit).1 == Times(y, Min(s, Over(limit, x)))
  {
    hide Times, Over;
    ScaleDown(x, y, s, limit);
    OverIs(limit, x);
  }

  lemma FactorAtLeastOne(w: real, h: real, imageWidth: real, imageHeight: real)
    requires 0.0 < w <= imageWidth && 0.0 < h <= imageHeight && Min(h, w) < MIN_DIMENSION
    ensures Min(h, w) > 0.0 && Factor(w, h, imageWidth, imageHeight) >= 1.0
  {
    hide Times, Over;
    OverIs(MIN_DIMENSION, Min(h, w));
    OverIs(imageWidth, w);
    OverIs(imageHeight, h);
  }

  /** The two steps scale both sides by one and the same factor, and never shrink the box. */
  lemma TwoStepIsOneFactor(w: real, h: real, imageWidth: real, imageHeight: real)
    requires 0.0 < w <= imageWidth && 0.0 < h <= imageHeight && Min(h, w) < MIN_DIMENSION
    ensures var s, r := Factor(w, h, imageWidth, imageHeight), TwoStepSize(w, h, imageWidth, imageHeight);
            s >= 1.0 && r.0 == Times(w, s) && r.1 == Times(h, s)
  {
    hide Fit, Min, Times, Over;
    FactorAtLeastOne(w, h, imageWidth, imageHeight);
    var ratio := Over(MIN_DIMENSION, Min(h, w));
    OverIs(MIN_DIMENSION, Min(h, w));
    FitScaled(w, h, ratio, imageWidth);
    FitScaled(h, w, Min(ratio, Over(imageWidth, w)), imageHeight);
  }

  /** Where an interval of `size` goes along one axis: centred, then shifted into the image. */
  function Place(center: real, size: real, limit: real): real {
    var start := if center - size / 2.0 < 0.0 then 0.0 else center - size / 2.0;
    if start + size > limit then limit - size else start
  }

  function Distance(x: real, y: real): real {
    if x <= y then y - x else x - y
  }

  /** Of all places inside the image it is the one whose centre is nearest. */
  lemma PlaceIsNearest(center: real, size: real, limit: real, other: real)
    requires 0.0 <= size <= limit && 0.0 <= other && other + size <= limit
    ensures var start := Place(center, size, limit);
            && 0.0 <= start && start + size <= limit
            && Distance(start + size / 2.0, center) <= Distance(other + size / 2.0, center)
            && (Distance(start + size / 2.0, center) == Distance(other + size / 2.0, center) ==> start == other)
  {
  }

  /** It stays inside the image and still covers the interval it grew from. */
  lemma PlaceCovers(lo: real, hi: real, size: real, limit: real)
    requires 0.0 <= lo < hi <= limit && hi - lo <= size <= limit
    ensures var start := Place((lo + hi) / 2.0, size, limit);
            0.0 <= start <= lo && hi <= start + size <= limit
  {
  }

  /** The final checks. */
  function Checked(b: Box): Option<Box> {
    if ValidBox(b) && b.bottom.Floor - b.top.Floor >= 28 && b.right.Floor - b.left.Floor >= 28 then Some(b) else None
  }

  /** The box grown to w by h about its centre, shifted into the image, and rounded outwards. */
  function Grown(b: Box, w: real, h: real, imageWidth: int, imageHeight: int): Box {
    var left := Place((b.left + b.right) / 2.0, w, imageWidth as real);
    var top := Place((b.top + b.bottom) / 2.0, h, imageHeight as real);
    Box(left.Floor as real, top.Floor as real, Ceil(left + w) as real, Ceil(top + h) as real)
  }

  /** What growing does: the box stays in the image and covers what it grew from. */
  lemma GrownCovers(b: Box, w: real, h: real, imageWidth: int, imageHeight: int)
    requires b.left < b.right && b.top < b.bottom && Inside(b, imageWidth, imageHeight)
    requires b.Width() <= w <= imageWidth as real && b.Height() <= h <= imageHeight as real
    ensures Inside(Grown(b, w, h, imageWidth, imageHeight), imageWidth, imageHeight)
    ensures Contains(Grown(b, w, h, imageWidth, imageHeight), b)
  {
    hide Place, Ceil;
    Axis(b.left, b.right, w, imageWidth);
    Axis(b.top, b.bottom, h, imageHeight);
  }

  /** One axis of the grown box. */
  lemma Axis(lo: real, hi: real, size: real, limit: int)
    requires 0.0 <= lo < hi <= limit as real && hi - lo <= size <= limit as real
    ensures var start := Place((lo + hi) / 2.0, size, limit as real);
            0.0 <= start.Floor as real <= lo && hi <= Ceil(start + size) as real <= limit as real
  {
    PlaceCovers(lo, hi, size, limit as real);
    hide Place, Ceil;
    RoundOut(Place((lo + hi) / 2.0, size, limit as real), size, limit);
  }

  lemma FactorBounds(w: real, h: real, imageWidth: real, imageHeight: real)
    requires 0.0 < w <= imageWidth && 0.0 < h <= imageHeight && Min(h, w) < MIN_DIMENSION
    ensures var s := Factor(w, h, imageWidth, imageHeight);
            s >= 1.0 && w <= Times(w, s) <= imageWidth && h <= Times(h, s) <= imageHeight
  {
    hide Times, Over;
    var s := Factor(w, h, imageWidth, imageHeight);
    FactorAtLeastOne(w, h, imageWidth, imageHeight);
    OverIs(imageWidth, w);
    OverIs(imageHeight, h);
    TimesLe(w, s, Over(imageWidth, w));
    TimesLe(h, s, Over(imageHeight, h));
    TimesLe(w, 1.0, s);
    TimesLe(h, 1.0, s);
  }

  /** Rounding outwards does not leave an image of integer size. */
  lemma RoundOut(start: real, size: real, limit: int)
    requires 0.0 <= start && start + size <= limit as real
    ensures 0.0 <= start.Floor as real <= start
    ensures start + size <= Ceil(start + size) as real <= limit as real
  {
    CeilAtMost(start + size, limit);
    FloorAtLeast(start);
  }

  lemma CeilAtMost(x: real, n: int)
    requires x <= n as real
    ensures x <= Ceil(x) as real && Ceil(x) <= n
  {
  }

  lemma FloorAtLeast(x: real)
    requires 0.0 <= x
    ensures 0.0 <= x.Floor as real <= x
  {
  }

  /** The target size, step by step. */
  method TargetSize(width: real, height: real, imageWidth: int, imageHeight: int) returns (w: real, h: real)
    requires 0.0 < width <= imageWidth as real && 0.0 < height <= imageHeight as real && Min(height, width) < MIN_DIMENSION
    ensures var r := TwoStepSize(width, height, imageWidth as real, imageHeight as real); w == r.0 && h == r.1
  {
    hide Fit;
    var ratio := MIN_DIMENSION / Min(height, width);
    OverIs(MIN_DIMENSION, Min(height, width));
    assert ratio == Over(MIN_DIMENSION, Min(height, width));
    w, h := width * ratio, height * ratio;
    assert w == Times(width, ratio) && h == Times(height, ratio);
    hide Times, Over;
    TimesPos(width, ratio);
    TimesPos(height, ratio);
    w, h := FitTo(w, h, imageWidth as real);
    h, w := FitTo(h, w, imageHeight as real);
  }

  method FitTo(x: real, y: real, limit: real) returns (x': real, y': real)
    requires x > 0.0 && y > 0.0 && limit > 0.0
    ensures x' == Fit(x, y, limit).0 && y' == Fit(x, y, limit).1
  {
    x', y' := x, y;
    if x' > limit {
      var scaleDown := limit / x';
      x' := limit;
      y' := y' * scaleDown;
    }
  }

  /** Centring, shifting and rounding, step by step. */
  method Grow(b: Box, w: real, h: real, imageWidth: int, imageHeight: int) returns (r: Box)
    ensures r == Grown(b, w, h, imageWidth, imageHeight)
  {
    var newLeft, newTop := (b.left + b.right) / 2.0 - w / 2.0, (b.top + b.bottom) / 2.0 - h / 2.0;
    if newLeft < 0.0 {
      newLeft := 0.0;
    }
    if newTop < 0.0 {
      newTop := 0.0;
    }
    if newLeft + w > imageWidth as real {
      newLeft := imageWidth as real - w;
    }
    if newTop + h > imageHeight as real {
      newTop := imageHeight as real - h;
    }
    var newRight, newBottom := newLeft + w, newTop + h;
    r := Box(newLeft.Floor as real, newTop.Floor as real, Ceil(newRight) as real, Ceil(newBottom) as real);
  }

  /** `_maybe_resize_bbox`. Whatever box is returned lies in the image, covers the clamped box, has
      sides in a ratio of at most 100 and at least 28 pixels long. A box that needs no growing is
      returned as clamped; one that does is grown by the one factor and then checked. With room to
      grow until the shorter side is 28 it is refused exactly when it rounds too long, and without
      exactly when it rounds too short. */
  method MaybeResize(bbox: Box, imageWidth: int, imageHeight: int) returns (r: Option<Box>)
    ensures r.Some? ==>
              && Inside(r.value, imageWidth, imageHeight)
              && Contains(r.value, Clamp(bbox, imageWidth, imageHeight))
              && ValidBox(r.value)
              && r.value.bottom.Floor - r.value.top.Floor >= 28
              && r.value.right.Floor - r.value.left.Floor >= 28
    ensures var b := Clamp(bbox, imageWidth, imageHeight);
            && (!ValidBox(b) ==> r == None)
            && (ValidBox(b) && b.Width() >= 28.0 && b.Height() >= 28.0 ==> r == Some(b))
            && (ValidBox(b) && (b.Width() < 28.0 || b.Height() < 28.0) ==>
                  && b.Width() > 0.0 && b.Height() > 0.0
                  && var s := Factor(b.Width(), b.Height(), imageWidth as real, imageHeight as real);
                  && s >= 1.0
                  && r == Checked(Grown(b, Times(b.Width(), s), Times(b.Height(), s), imageWidth, imageHeight))
                  && (r == None
                      <==> if s == Over(MIN_DIMENSION, Min(b.Height(), b.Width())) then
                             RoundsTooLong(b, Times(b.Width(), s), Times(b.Height(), s), imageWidth, imageHeight)
                           else RoundsTooShort(b, Times(b.Width(), s), Times(b.Height(), s), imageWidth, imageHeight)))
  {
    hide ValidBox, Factor, Grown, TwoStepSize, Times, Over, RoundsTooLong, RoundsTooShort;
    var current := Box(Max(0.0, bbox.left), Max(0.0, bbox.top),
                       Min(imageWidth as real, bbox.right), Min(imageHeight as real, bbox.bottom));
    ghost var clamped := current;
    if !ValidBox(current) {
      return None;
    }
    ClampedFacts(current, imageWidth, imageHeight);
    var height, width := current.Height(), current.Width();
    if height < MIN_DIMENSION || width < MIN_DIMENSION {
      var targetWidth, targetHeight := TargetSize(width, height, imageWidth, imageHeight);
      TwoStepIsOneFactor(width, height, imageWidth as real, imageHeight as real);
      FactorBounds(width, height, imageWidth as real, imageHeight as real);
      GrownCovers(current, targetWidth, targetHeight, imageWidth, imageHeight);
      if Factor(width, height, imageWidth as real, imageHeight as real) == Over(MIN_DIMENSION, Min(height, width)) {
        RefusedIff(current, imageWidth, imageHeight);
      } else {
        RefusedWithoutRoomIff(current, imageWidth, imageHeight);
      }
      current := Grow(current, targetWidth, targetHeight, imageWidth, imageHeight);
    } else {
      BigEnough(current);
    }
    if !ValidBox(current) {
      return None;
    }
    var finalHeight := current.bottom.Floor - current.top.Floor;
    var finalWidth := current.right.Floor - current.left.Floor;
    if finalHeight < 28 || finalWidth < 28 {
      return None;
    }
    r := Some(current);
  }

  lemma ClampedFacts(b: Box, imageWidth: int, imageHeight: int)
    requires ValidBox(b)
    ensures b.left < b.right && b.top < b.bottom
  {
  }

  /** A box at least 28 on each side spans 28 integers on each side. */
  lemma BigEnough(b: Box)
    requires !TooSmall(b)
    ensures b.bottom.Floor - b.top.Floor >= 28 && b.right.Floor - b.left.Floor >= 28
  {
    FloorsApart(b.top, b.bottom);
    FloorsApart(b.left, b.right);
  }

  lemma FloorsApart(x: real, y: real)
    requires y - x >= 28.0
    ensures y.Floor - x.Floor >= 28
  {
    assert (x.Floor + 28) as real <= y;
  }

  /** A box that can be grown until its shorter side is 28 is accepted whenever its longer side then
      is at most 2798: rounding outwards adds less than two pixels, which the ratio must allow. */
  lemma GrownAccepted(b: Box, w: real, h: real, imageWidth: int, imageHeight: int)
    requires b.left < b.right && b.top < b.bottom
    requires Min(w, h) == MIN_DIMENSION && Max(w, h) <= 2798.0
    ensures Checked(Grown(b, w, h, imageWidth, imageHeight)) == Some(Grown(b, w, h, imageWidth, imageHeight))
  {
    hide Place, Ceil;
    var left := Place((b.left + b.right) / 2.0, w, imageWidth as real);
    var top := Place((b.top + b.bottom) / 2.0, h, imageHeight as real);
    SidesWhenRounded(left, w);
    SidesWhenRounded(top, h);
    var g := Grown(b, w, h, imageWidth, imageHeight);
    RatioAtMost(Max(g.Height(), g.Width()), Min(g.Height(), g.Width()));
  }

  lemma SidesWhenRounded(start: real, size: real)
    requires size >= 28.0
    ensures Ceil(start + size) - start.Floor >= 28
    ensures size <= Ceil(start + size) as real - start.Floor as real < size + 2.0
    ensures (start.Floor as real).Floor == start.Floor && (Ceil(start + size) as real).Floor == Ceil(start + size)
  {
    FloorsApart(start, start + size);
  }

  lemma RatioAtMost(x: real, y: real)
    requires y >= 28.0 && x <= 2800.0
    ensures x / y <= 100.0
  {
  }

  predicate Whole(x: real) {
    x.Floor as real == x
  }

  /** An interval of `size` once its ends are rounded outwards. */
  function RoundedSize(start: real, size: real): int {
    Ceil(start + size) - start.Floor
  }

  /** Rounding the ends of an interval of 28 keeps its size exactly when it starts at a whole number. */
  lemma ShortRounded(start: real)
    ensures RoundedSize(start, 28.0) == if Whole(start) then 28 else 29
  {
    if Whole(start) {
      assert (start.Floor + 28) as real == start + 28.0;
    } else {
      assert (start.Floor + 28) as real < start + 28.0 < (start.Floor + 29) as real;
    }
  }

  /** When the rounded sides pass the checks. */
  lemma CheckedIff(b: Box, l: int, t: int, width: int, height: int)
    requires width > 0 && height > 0
    requires b == Box(l as real, t as real, (l + width) as real, (t + height) as real)
    ensures Checked(b) == None <==> width < 28 || height < 28 || width > 100 * height || height > 100 * width
  {
    RatioIff(width, height);
    RatioIff(height, width);
    assert b.Width() == width as real && b.Height() == height as real;
  }

  lemma RatioIff(x: int, y: int)
    requires y > 0
    ensures x as real / y as real <= 100.0 <==> x <= 100 * y
  {
    var q := x as real / y as real;
    assert q * y as real == x as real;
    if q <= 100.0 {
      assert q * y as real <= 100.0 * y as real;
      assert x as real <= (100 * y) as real;
    }
  }

  /** Rounding leaves the shorter side alone, because it starts at a whole number, and lengthens the
      longer one beyond 2800. */
  predicate RoundsTooLong(b: Box, w: real, h: real, imageWidth: int, imageHeight: int) {
    var left := Place((b.left + b.right) / 2.0, w, imageWidth as real);
    var top := Place((b.top + b.bottom) / 2.0, h, imageHeight as real);
    || (w == MIN_DIMENSION && Whole(left) && RoundedSize(top, h) > 2800)
    || (h == MIN_DIMENSION && Whole(top) && RoundedSize(left, w) > 2800)
  }

  /** A box grown until its shorter side is 28, with a longer side in the ratio allowed, is refused
      exactly when this happens. */
  lemma GrownRefusedIff(b: Box, w: real, h: real, imageWidth: int, imageHeight: int)
    requires b.left < b.right && b.top < b.bottom
    requires Min(w, h) == MIN_DIMENSION && Max(w, h) <= 2800.0
    ensures Checked(Grown(b, w, h, imageWidth, imageHeight)) == None
            <==> RoundsTooLong(b, w, h, imageWidth, imageHeight)
  {
    hide Place, Ceil, Checked, Whole;
    var left := Place((b.left + b.right) / 2.0, w, imageWidth as real);
    var top := Place((b.top + b.bottom) / 2.0, h, imageHeight as real);
    SidesWhenRounded(left, w);
    SidesWhenRounded(top, h);
    CheckedIff(Grown(b, w, h, imageWidth, imageHeight), left.Floor, top.Floor, RoundedSize(left, w), RoundedSize(top, h));
    ShortRounded(left);
    ShortRounded(top);
  }

  /** A valid box scaled so that its shorter side is 28 has a longer side of at most 2800. */
  lemma ScaledRatio(w: real, h: real)
    requires w > 0.0 && h > 0.0 && Max(h, w) / Min(h, w) <= 100.0
    ensures var s := Over(MIN_DIMENSION, Min(h, w));
            Min(Times(w, s), Times(h, s)) == MIN_DIMENSION && Max(Times(w, s), Times(h, s)) <= 2800.0
  {
    var s := Over(MIN_DIMENSION, Min(h, w));
    OverIs(MIN_DIMENSION, Min(h, w));
    AtMostHundredfold(Max(h, w), Min(h, w));
    hide Times, Over;
    ScaledLe(Min(h, w), Max(h, w), s);
    ScaledLe(Max(h, w), 100.0 * Min(h, w), s);
    HundredTimes(Min(h, w), s);
  }

  lemma AtMostHundredfold(x: real, y: real)
    requires y > 0.0 && x / y <= 100.0
    ensures x <= 100.0 * y
  {
    var q := x / y;
    assert q * y == x;
    assert q * y <= 100.0 * y;
  }

  lemma ScaledLe(x: real, y: real, s: real)
    requires x <= y && s > 0.0
    ensures Times(x, s) <= Times(y, s)
  {
    assert (y - x) * s >= 0.0;
  }

  lemma HundredTimes(x: real, s: real)
    ensures Times(100.0 * x, s) == 100.0 * Times(x, s)
  {
  }

  /** When a valid box that must grow, and has room to, is refused. */
  lemma RefusedIff(b: Box, imageWidth: int, imageHeight: int)
    requires ValidBox(b) && TooSmall(b) && Inside(b, imageWidth, imageHeight)
    requires Factor(b.Width(), b.Height(), imageWidth as real, imageHeight as real)
             == Over(MIN_DIMENSION, Min(b.Height(), b.Width()))
    ensures var s := Over(MIN_DIMENSION, Min(b.Height(), b.Width()));
            var w, h := Times(b.Width(), s), Times(b.Height(), s);
            Checked(Grown(b, w, h, imageWidth, imageHeight)) == None <==> RoundsTooLong(b, w, h, imageWidth, imageHeight)
  {
    hide Times, Over, Grown, Checked, RoundsTooLong;
    var s := Over(MIN_DIMENSION, Min(b.Height(), b.Width()));
    ScaledRatio(b.Width(), b.Height());
    GrownRefusedIff(b, Times(b.Width(), s), Times(b.Height(), s), imageWidth, imageHeight);
  }

  /** A side grown to the whole image starts at its edge and is not changed by rounding. */
  lemma WholeSide(lo: real, hi: real, limit: int)
    requires 0.0 <= lo < hi <= limit as real
    ensures Place((lo + hi) / 2.0, limit as real, limit as real) == 0.0
    ensures RoundedSize(0.0, limit as real) == limit
  {
  }

  lemma RoundedBounds(start: real, size: real)
    requires size > 0.0
    ensures size <= RoundedSize(start, size) as real < size + 2.0
    ensures RoundedSize(start, size) > 0
  {
  }

  /** A grown box with one side as long as the image and a shorter side below 28 is refused exactly
      when rounding leaves some side below 28. */
  lemma WholeSideRefusedIff(b: Box, w: real, h: real, imageWidth: int, imageHeight: int)
    requires b.left < b.right && b.top < b.bottom && Inside(b, imageWidth, imageHeight)
    requires w == imageWidth as real || h == imageHeight as real
    requires w > 0.0 && h > 0.0 && Min(w, h) < MIN_DIMENSION && w <= 100.0 * h && h <= 100.0 * w
    ensures Checked(Grown(b, w, h, imageWidth, imageHeight)) == None <==> RoundsTooShort(b, w, h, imageWidth, imageHeight)
  {
    hide Place, Checked, RoundedSize;
    var left := Place((b.left + b.right) / 2.0, w, imageWidth as real);
    var top := Place((b.top + b.bottom) / 2.0, h, imageHeight as real);
    RoundedBounds(left, w);
    RoundedBounds(top, h);
    assert Grown(b, w, h, imageWidth, imageHeight)
        == Box(left.Floor as real, top.Floor as real,
               (left.Floor + RoundedSize(left, w)) as real, (top.Floor + RoundedSize(top, h)) as real) by {
      RoundedEnds(left, w);
      RoundedEnds(top, h);
    }
    CheckedIff(Grown(b, w, h, imageWidth, imageHeight), left.Floor, top.Floor, RoundedSize(left, w), RoundedSize(top, h));
    WholeSide(b.left, b.right, imageWidth);
    WholeSide(b.top, b.bottom, imageHeight);
  }

  lemma RoundedEnds(start: real, size: real)
    ensures start.Floor + RoundedSize(start, size) == Ceil(start + size)
  {
  }

  /** Rounding leaves some side below 28. */
  predicate RoundsTooShort(b: Box, w: real, h: real, imageWidth: int, imageHeight: int) {
    || RoundedSize(Place((b.left + b.right) / 2.0, w, imageWidth as real), w) < 28
    || RoundedSize(Place((b.top + b.bottom) / 2.0, h, imageHeight as real), h) < 28
  }

  /** Scaling by the factor of a box without room fills the image on one side, leaves the shorter
      side below 28, and keeps the ratio. */
  lemma ScaledWithoutRoom(w: real, h: real, imageWidth: real, imageHeight: real)
    requires 0.0 < w <= imageWidth && 0.0 < h <= imageHeight && Min(h, w) < MIN_DIMENSION
    requires Max(h, w) / Min(h, w) <= 100.0
    requires Factor(w, h, imageWidth, imageHeight) != Over(MIN_DIMENSION, Min(h, w))
    ensures var s := Factor(w, h, imageWidth, imageHeight);
            && s >= 1.0 && Times(w, s) > 0.0 && Times(h, s) > 0.0
            && (Times(w, s) == imageWidth || Times(h, s) == imageHeight)
            && Min(Times(w, s), Times(h, s)) < MIN_DIMENSION
            && Times(w, s) <= 100.0 * Times(h, s) && Times(h, s) <= 100.0 * Times(w, s)
  {
    var s := Factor(w, h, imageWidth, imageHeight);
    FactorAtLeastOne(w, h, imageWidth, imageHeight);
    OverIs(MIN_DIMENSION, Min(h, w));
    OverIs(imageWidth, w);
    OverIs(imageHeight, h);
    AtMostHundredfold(Max(h, w), Min(h, w));
    hide Times, Over;
    TimesPos(w, s);
    TimesPos(h, s);
    TimesLe(Min(h, w), Over(MIN_DIMENSION, Min(h, w)), s);
    ScaledLe(w, 100.0 * h, s);
    ScaledLe(h, 100.0 * w, s);
    HundredTimes(h, s);
    HundredTimes(w, s);
  }

  /** When a valid box that must grow, and has no room to, is refused. */
  lemma RefusedWithoutRoomIff(b: Box, imageWidth: int, imageHeight: int)
    requires ValidBox(b) && TooSmall(b) && Inside(b, imageWidth, imageHeight)
    requires b.Width() > 0.0 && b.Height() > 0.0
    requires Factor(b.Width(), b.Height(), imageWidth as real, imageHeight as real)
             != Over(MIN_DIMENSION, Min(b.Height(), b.Width()))
    ensures var s := Factor(b.Width(), b.Height(), imageWidth as real, imageHeight as real);
            var w, h := Times(b.Width(), s), Times(b.Height(), s);
            Checked(Grown(b, w, h, imageWidth, imageHeight)) == None <==> RoundsTooShort(b, w, h, imageWidth, imageHeight)
  {
    hide Times, Over, Factor, Grown, Checked, RoundsTooShort;
    var s := Factor(b.Width(), b.Height(), imageWidth as real, imageHeight as real);
    ScaledWithoutRoom(b.Width(), b.Height(), imageWidth as real, imageHeight as real);
    WholeSideRefusedIff(b, Times(b.Width(), s), Times(b.Height(), s), imageWidth, imageHeight);
  }

  /** A valid box of ratio 100 that has room to grow, and is refused after rounding. */
  lemma RefusedThoughItFits()
    ensures var b := Box(2000.25, 99.5, 2100.25, 100.5);
            && Clamp(b, 5000, 200) == b && ValidBox(b) && TooSmall(b)
            && Factor(b.Width(), b.Height(), 5000.0, 200.0) == 28.0
            && Grown(b, 2800.0, 28.0, 5000, 200) == Box(650.0, 86.0, 3451.0, 114.0)
            && Checked(Grown(b, 2800.0, 28.0, 5000, 200)) == None
  {
    var b := Box(2000.25, 99.5, 2100.25, 100.5);
    assert Place(2050.25, 2800.0, 5000.0) == 650.25 && Place(100.0, 28.0, 200.0) == 86.0;
    assert 650.25.Floor == 650 && Ceil(3450.25) == 3451 && 86.0.Floor == 86 && Ceil(114.0) == 114;
    var g := Box(650.0, 86.0, 3451.0, 114.0);
    assert Grown(b, 2800.0, 28.0, 5000, 200) == g;
    assert g.Width() == 2801.0 && g.Height() == 28.0;
    assert 2801.0 / 28.0 > 100.0;
  }
}
