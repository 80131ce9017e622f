/** The size constraints a window manager applies to a requested resize. */
module ResizeConstraints {
  import opened Basics
  import opened Arithmetic
  import opened Geometry
  import opened WindowTree

  /** A width:height ratio of unsigned terms. */
  datatype Ratio = Ratio(width: nat, height: nat)
  {
    predicate Positive() { width > 0 && height > 0 }
  }

  datatype Limits = Limits(
    minWidth: int, minHeight: int,
    maxWidth: int, maxHeight: int,
    widthInc: Option<int>, heightInc: Option<int>,
    minAspect: Option<Ratio>, maxAspect: Option<Ratio>)
  {
    /** Increments are not zero: the code divides by them. */
    predicate Sound()
    {
      (widthInc.Some? ==> widthInc.value != 0) && (heightInc.Some? ==> heightInc.value != 0)
    }

    predicate PositiveIncrements()
    {
      (widthInc.Some? ==> widthInc.value > 0) && (heightInc.Some? ==> heightInc.value > 0)
    }
  }

  // ------------------------------------------------------------------------- aspect ratios

  /** At least as wide as the ratio asks for. */
  predicate WideEnough(s: Size, r: Ratio)
  {
    s.height * r.width <= s.width * r.height
  }

  predicate TallEnough(s: Size, r: Ratio)
  {
    s.width * r.height <= s.height * r.width
  }

  /** 4:3 is width to height: 8 by 6 has it, 7 by 6 is too narrow, 9 by 6 too wide. */
  lemma FourToThree()
    ensures WideEnough(Size(8, 6), Ratio(4, 3)) && TallEnough(Size(8, 6), Ratio(4, 3))
    ensures !WideEnough(Size(7, 6), Ratio(4, 3)) && TallEnough(Size(7, 6), Ratio(4, 3))
    ensures WideEnough(Size(9, 6), Ratio(4, 3)) && !TallEnough(Size(9, 6), Ratio(4, 3))
  {
  }

  /** Rounding division up, as (n + (d - 1)) / d. */
  function CeilDiv(n: int, d: int): int
    requires d > 0
  {
    TruncDiv(n + (d - 1), d)
  }

  /** The least c with c * d >= n. */
  lemma CeilDivLeast(n: int, d: int, k: int)
    requires n > 0 && d > 0
    ensures CeilDiv(n, d) > 0 && CeilDiv(n, d) * d >= n
    ensures k * d >= n ==> k >= CeilDiv(n, d)
  {
    var c := CeilDiv(n, d);
    DivBounds(n + (d - 1), d);
    assert (c + 1) * d == c * d + d;
    assert (c - 1) * d == c * d - d;
    if k <= c - 1 {
      MulMonotone(k, c - 1, d);
    }
    if c <= 0 {
      MulMonotone(c, 0, d);
    }
  }

  /** The corrections divide by the terms of a ratio that does not hold yet. */
  function Widened(s: Size, r: Ratio): Size
    requires WideEnough(s, r) || r.Positive()
  {
    var error := s.height * r.width - s.width * r.height;
    if error > 0 then
      if CeilDiv(error, r.height) < CeilDiv(error, r.width)
      then s.(width := s.width + CeilDiv(error, r.height))
      else s.(height := s.height - CeilDiv(error, r.width))
    else s
  }

  function Narrowed(s: Size, r: Ratio): Size
    requires TallEnough(s, r) || r.Positive()
  {
    var error := s.width * r.height - s.height * r.width;
    if error > 0 then
      if CeilDiv(error, r.height) < CeilDiv(error, r.width)
      then s.(width := s.width - CeilDiv(error, r.height))
      else s.(height := s.height + CeilDiv(error, r.width))
    else s
  }

  lemma Distribute(a: int, c: int, k: int)
    ensures (a + c) * k == a * k + c * k && (a - c) * k == a * k - c * k
  {
  }

  /** The correction ends wide enough and changes one dimension only, if any. */
  lemma WidenedSuffices(s: Size, r: Ratio)
    requires WideEnough(s, r) || r.Positive()
    ensures WideEnough(Widened(s, r), r)
    ensures WideEnough(s, r) ==> Widened(s, r) == s
    ensures Widened(s, r).width >= s.width && Widened(s, r).height <= s.height
    ensures Widened(s, r).width == s.width || Widened(s, r).height == s.height
  {
    var error := s.height * r.width - s.width * r.height;
    if error > 0 {
      var cw, ch := CeilDiv(error, r.height), CeilDiv(error, r.width);
      CeilDivLeast(error, r.height, 0);
      CeilDivLeast(error, r.width, 0);
      Distribute(s.width, cw, r.height);
      Distribute(s.height, ch, r.width);
    }
  }

  lemma NarrowedSuffices(s: Size, r: Ratio)
    requires TallEnough(s, r) || r.Positive()
    ensures TallEnough(Narrowed(s, r), r)
    ensures TallEnough(s, r) ==> Narrowed(s, r) == s
    ensures Narrowed(s, r).width <= s.width && Narrowed(s, r).height >= s.height
    ensures Narrowed(s, r).width == s.width || Narrowed(s, r).height == s.height
  {
    var error := s.width * r.height - s.height * r.width;
    if error > 0 {
      var cw, ch := CeilDiv(error, r.height), CeilDiv(error, r.width);
      CeilDivLeast(error, r.height, 0);
      CeilDivLeast(error, r.width, 0);
      Distribute(s.width, cw, r.height);
      Distribute(s.height, ch, r.width);
    }
  }

  /** The correction is the least that works: any size that is wide enough and differs in one dimension
      differs by at least as much. */
  lemma WidenedLeast(s: Size, r: Ratio, k: int)
    requires r.Positive() && !WideEnough(s, r) && k >= 0
    requires WideEnough(s.(width := s.width + k), r) || WideEnough(s.(height := s.height - k), r)
    ensures (Widened(s, r).width - s.width) + (s.height - Widened(s, r).height) <= k
  {
    var error := s.height * r.width - s.width * r.height;
    Distribute(s.width, k, r.height);
    Distribute(s.height, k, r.width);
    CeilDivLeast(error, r.height, k);
    CeilDivLeast(error, r.width, k);
  }

  lemma NarrowedLeast(s: Size, r: Ratio, k: int)
    requires r.Positive() && !TallEnough(s, r) && k >= 0
    requires TallEnough(s.(width := s.width - k), r) || TallEnough(s.(height := s.height + k), r)
    ensures (s.width - Narrowed(s, r).width) + (Narrowed(s, r).height - s.height) <= k
  {
    var error := s.width * r.height - s.height * r.width;
    Distribute(s.width, k, r.height);
    Distribute(s.height, k, r.width);
    CeilDivLeast(error, r.height, k);
    CeilDivLeast(error, r.width, k);
  }

  predicate MinSafe(s: Size, l: Limits)
  {
    l.minAspect.Some? ==> WideEnough(s, l.minAspect.value) || l.minAspect.value.Positive()
  }

  function MinStage(s: Size, l: Limits): Size
    requires MinSafe(s, l)
  {
    if l.minAspect.Some? then Widened(s, l.minAspect.value) else s
  }

  /** Neither correction divides by zero. */
  predicate AspectSafe(s: Size, l: Limits)
  {
    && MinSafe(s, l)
    && (l.maxAspect.Some? ==> TallEnough(MinStage(s, l), l.maxAspect.value) || l.maxAspect.value.Positive())
  }

  /** The width is corrected only if that is strictly cheaper: the same change of the height would not do. */
  lemma HeightPreferred(s: Size, r: Ratio)
    requires r.Positive()
    ensures !WideEnough(s, r) && Widened(s, r).width > s.width ==>
      !WideEnough(s.(height := s.height - (Widened(s, r).width - s.width)), r)
    ensures !TallEnough(s, r) && Narrowed(s, r).width < s.width ==>
      !TallEnough(s.(height := s.height + (s.width - Narrowed(s, r).width)), r)
  {
    var less, more := s.height * r.width - s.width * r.height, s.width * r.height - s.height * r.width;
    if less > 0 {
      CeilDivLeast(less, r.width, CeilDiv(less, r.height));
      Distribute(s.height, CeilDiv(less, r.height), r.width);
    } else if more > 0 {
      CeilDivLeast(more, r.width, CeilDiv(more, r.height));
      Distribute(s.height, CeilDiv(more, r.height), r.width);
    }
  }

  /** Both aspect stages, in order. */
  function AspectStage(s: Size, l: Limits): Size
    requires AspectSafe(s, l)
  {
    if l.maxAspect.Some? then Narrowed(MinStage(s, l), l.maxAspect.value) else MinStage(s, l)
  }

  /** The max ratio always holds at the end of the aspect stage; the min ratio holds too unless the max
      correction had to change the size. */
  lemma AspectStageHolds(s: Size, l: Limits)
    requires AspectSafe(s, l)
    ensures l.maxAspect.Some? ==> TallEnough(AspectStage(s, l), l.maxAspect.value)
    ensures l.minAspect.Some? && (l.maxAspect.None? || TallEnough(MinStage(s, l), l.maxAspect.value))
      ==> WideEnough(AspectStage(s, l), l.minAspect.value)
  {
    if l.minAspect.Some? {
      WidenedSuffices(s, l.minAspect.value);
    }
    if l.maxAspect.Some? {
      NarrowedSuffices(MinStage(s, l), l.maxAspect.value);
    }
  }

  /** When it did, the min ratio can fail, even with min and max the same: rounding the correction up
      overshoots. */
  lemma MinRatioCanFail()
    ensures var l := Limits(0, 0, 10, 10, None, None, Some(Ratio(2, 1)), Some(Ratio(2, 1)));
      && AspectSafe(Size(5, 2), l) && WideEnough(Size(5, 2), Ratio(2, 1))
      && AspectStage(Size(5, 2), l) == Size(5, 3) && !WideEnough(Size(5, 3), Ratio(2, 1))
  {
  }

  // ------------------------------------------------------------------------- limits and increments

  function Clamped(v: int, lo: int, hi: int): int
  {
    var raised := if lo > v then lo else v;
    if hi < raised then hi else raised
  }

  /** Clamping: a value in range stays; the minimum is enforced first, so that the maximum wins when they
      contradict each other. */
  lemma ClampedMeans(v: int, lo: int, hi: int)
    ensures lo <= v <= hi ==> Clamped(v, lo, hi) == v
    ensures v < lo <= hi ==> Clamped(v, lo, hi) == lo
    ensures v > hi || lo > hi ==> Clamped(v, lo, hi) == hi
  {
  }

  /** The nearest whole number of increments above the minimum. */
  function Snapped(v: int, lo: int, inc: int): int
    requires inc != 0
  {
    var extent := v - lo;
    if TruncMod(extent, inc) != 0 then lo + inc * TruncDiv(TruncDiv(2 * extent + inc, 2), inc) else v
  }

  function Stepped(v: int, lo: int, inc: Option<int>): int
    requires inc.Some? ==> inc.value != 0
  {
    match inc case Some(i) => Snapped(v, lo, i) case None => v
  }

  lemma HalfUp(extent: int, inc: int)
    requires extent >= 0 && inc > 0
    ensures TruncDiv(2 * extent + inc, 2) == extent + inc / 2
  {
  }

  /** Snapping: at least the minimum, a whole number of increments above it, within half an increment of
      the value, and within the maximum when the range is whole (else over by at most half). */
  lemma SnappedNearest(v: int, lo: int, hi: int, inc: int)
    requires inc > 0 && lo <= v <= hi
    ensures Snapped(v, lo, inc) >= lo && (Snapped(v, lo, inc) - lo) % inc == 0
    ensures -inc < 2 * (Snapped(v, lo, inc) - v) <= inc
    ensures 2 * (Snapped(v, lo, inc) - hi) <= inc
    ensures (hi - lo) % inc == 0 ==> Snapped(v, lo, inc) <= hi
  {
    var w := v - lo;
    if TruncMod(w, inc) != 0 {
      HalfUp(w, inc);
      var k := TruncDiv(w + inc / 2, inc);
      DivBounds(w + inc / 2, inc);
      Multiple(k, inc);
      assert Snapped(v, lo, inc) == lo + k * inc;
      assert k * inc >= 0 by { MulMonotone(0, k, inc); }
      if (hi - lo) % inc == 0 {
        WithinRange(k, inc, w, hi - lo);
      }
    } else {
      assert w == TruncDiv(w, inc) * inc;
      Multiple(TruncDiv(w, inc), inc);
    }
  }

  lemma WithinRange(k: int, inc: int, w: int, range: int)
    requires inc > 0 && range % inc == 0 && w <= range && k * inc <= w + inc / 2
    ensures k * inc <= range
  {
    var t := range / inc;
    assert range == t * inc;
    NotAbove(k, t, inc);
  }

  lemma NotAbove(k: int, t: int, inc: int)
    requires inc > 0 && k * inc < t * inc + inc
    ensures k * inc <= t * inc
  {
    if k > t {
      MulMonotone(t + 1, k, inc);
    } else {
      MulMonotone(k, t, inc);
    }
  }

  /** The extent is at least half an increment beyond the last whole increment in the range. */
  predicate RoundsOver(extent: int, range: int, inc: int)
    requires inc > 0
  {
    extent >= range - range % inc + (inc - inc / 2)
  }

  lemma MultipleOver(k: int, inc: int, range: int)
    requires inc > 0
    ensures k * inc > range <==> k > range / inc
    ensures range - range % inc == (range / inc) * inc
  {
    var t := range / inc;
    assert range == t * inc + range % inc;
    if k > t {
      MulMonotone(t + 1, k, inc);
    } else {
      MulMonotone(k, t, inc);
    }
  }

  lemma RoundedOver(k: int, inc: int, w: int, t: int)
    requires inc > 0 && k * inc <= w + inc / 2 < k * inc + inc
    ensures k > t <==> w >= t * inc + (inc - inc / 2)
  {
    if k > t {
      MulMonotone(t + 1, k, inc);
    } else {
      MulMonotone(k, t, inc);
    }
  }

  /** Exactly when snapping goes over the maximum. */
  lemma SnappedOverIff(v: int, lo: int, hi: int, inc: int)
    requires inc > 0 && lo <= v <= hi
    ensures Snapped(v, lo, inc) > hi <==> RoundsOver(v - lo, hi - lo, inc)
  {
    var w, t := v - lo, (hi - lo) / inc;
    if TruncMod(w, inc) != 0 {
      HalfUp(w, inc);
      var k := TruncDiv(w + inc / 2, inc);
      DivBounds(w + inc / 2, inc);
      assert Snapped(v, lo, inc) == lo + k * inc;
      MultipleOver(k, inc, hi - lo);
      RoundedOver(k, inc, w, t);
    } else {
      var k := TruncDiv(w, inc);
      assert w == k * inc;
      MultipleOver(k, inc, hi - lo);
      RoundedOver(k, inc, w, t);
    }
  }

  // ------------------------------------------------------------------------- the whole operation

  function FinalSize(s: Size, l: Limits): Size
    requires l.Sound() && AspectSafe(s, l)
  {
    var a := AspectStage(s, l);
    Size(Stepped(Clamped(a.width, l.minWidth, l.maxWidth), l.minWidth, l.widthInc),
         Stepped(Clamped(a.height, l.minHeight, l.maxHeight), l.minHeight, l.heightInc))
  }

  /** One dimension of the result is as the limits ask. */
  ghost predicate Obeys(v: int, clamped: int, lo: int, hi: int, inc: Option<int>)
  {
    && lo <= clamped <= hi && lo <= v
    && (inc.None? ==> v == clamped)
    && (inc.Some? ==>
          && inc.value > 0 && (v - lo) % inc.value == 0
          && -inc.value < 2 * (v - clamped) <= inc.value
          && 2 * (v - hi) <= inc.value
          && ((hi - lo) % inc.value == 0 ==> v <= hi)
          && (v > hi <==> RoundsOver(clamped - lo, hi - lo, inc.value)))
  }

  /** The final size of a restored window obeys the limits in both dimensions. */
  lemma FinalSizeObeys(s: Size, l: Limits)
    requires l.Sound() && AspectSafe(s, l)
    requires l.PositiveIncrements() && l.minWidth <= l.maxWidth && l.minHeight <= l.maxHeight
    ensures var a, f := AspectStage(s, l), FinalSize(s, l);
      && Obeys(f.width, Clamped(a.width, l.minWidth, l.maxWidth), l.minWidth, l.maxWidth, l.widthInc)
      && Obeys(f.height, Clamped(a.height, l.minHeight, l.maxHeight), l.minHeight, l.maxHeight, l.heightInc)
  {
    var a := AspectStage(s, l);
    if l.widthInc.Some? {
      SnappedNearest(Clamped(a.width, l.minWidth, l.maxWidth), l.minWidth, l.maxWidth, l.widthInc.value);
      SnappedOverIff(Clamped(a.width, l.minWidth, l.maxWidth), l.minWidth, l.maxWidth, l.widthInc.value);
    }
    if l.heightInc.Some? {
      SnappedNearest(Clamped(a.height, l.minHeight, l.maxHeight), l.minHeight, l.maxHeight, l.heightInc.value);
      SnappedOverIff(Clamped(a.height, l.minHeight, l.maxHeight), l.minHeight, l.maxHeight, l.heightInc.value);
    }
  }

  method WidenStep(s: Size, ar: Ratio) returns (size: Size)
    requires WideEnough(s, ar) || ar.Positive()
    ensures size == Widened(s, ar)
  {
    size := s;
    var error := size.height * ar.width - size.width * ar.height;
    if error > 0 {
      var widthCorrection := CeilDiv(error, ar.height);
      var heightCorrection := CeilDiv(error, ar.width);
      if widthCorrection < heightCorrection {
        size := size.(width := size.width + widthCorrection);
      } else {
        size := size.(height := size.height - heightCorrection);
      }
    }
  }

  method NarrowStep(s: Size, ar: Ratio) returns (size: Size)
    requires TallEnough(s, ar) || ar.Positive()
    ensures size == Narrowed(s, ar)
  {
    size := s;
    var error := size.width * ar.height - size.height * ar.width;
    if error > 0 {
      var heightCorrection := CeilDiv(error, ar.width);
      var widthCorrection := CeilDiv(error, ar.height);
      if widthCorrection < heightCorrection {
        size := size.(width := size.width - widthCorrection);
      } else {
        size := size.(height := size.height + heightCorrection);
      }
    }
  }

  method ClampStep(s: Size, l: Limits) returns (size: Size)
    ensures size == Size(Clamped(s.width, l.minWidth, l.maxWidth), Clamped(s.height, l.minHeight, l.maxHeight))
  {
    size := s;
    if l.minWidth > size.width { size := size.(width := l.minWidth); }
    if l.minHeight > size.height { size := size.(height := l.minHeight); }
    if l.maxWidth < size.width { size := size.(width := l.maxWidth); }
    if l.maxHeight < size.height { size := size.(height := l.maxHeight); }
  }

  method SnapStep(v: int, lo: int, inc: int) returns (r: int)
    requires inc != 0
    ensures r == Snapped(v, lo, inc)
  {
    r := v;
    var extent := v - lo;
    if TruncMod(extent, inc) != 0 {
      r := lo + inc * TruncDiv(TruncDiv(2 * extent + inc, 2), inc);
    }
  }

  /** The position follows the size at the edges being dragged. */
  function Followed(pos: Point, asked: Size, given: Size, left: bool, top: bool): Point
  {
    Point(if left then pos.x + (given.width - asked.width) else pos.x,
          if top then pos.y + (given.height - asked.height) else pos.y)
  }

  /** The position adjustment does not keep the opposite edge: the right edge of a left resize stays where the
      request put it if and only if the width was granted as asked. */
  lemma OppositeEdgeIff(pos: Point, asked: Size, given: Size, left: bool, top: bool)
    ensures var p := Followed(pos, asked, given, left, top);
      && (left ==> (p.x + given.width == pos.x + asked.width <==> given.width == asked.width))
      && (top ==> (p.y + given.height == pos.y + asked.height <==> given.height == asked.height))
  {
  }

  /** A maximised dimension stays as it is. */
  function Anchored(free: Rectangle, current: Rectangle, state: WindowState): Rectangle
  {
    match state
    case Restored => free
    case VertMaximized =>
      Rectangle(Point(free.topLeft.x, current.topLeft.y), Size(free.size.width, current.size.height))
    case HorizMaximized =>
      Rectangle(Point(current.topLeft.x, free.topLeft.y), Size(current.size.width, free.size.height))
    case _ => current
  }

  /** `constrain_resize` of a window now at `current`, in state `state`. */
  method ConstrainResize(l: Limits, state: WindowState, current: Rectangle,
                         requestedPos: Point, requestedSize: Size, leftResize: bool, topResize: bool)
    returns (pos: Point, size: Size)
    requires l.Sound() && AspectSafe(requestedSize, l)
    ensures var f := FinalSize(requestedSize, l);
      Rectangle(pos, size) == Anchored(Rectangle(Followed(requestedPos, requestedSize, f, leftResize, topResize), f), current, state)
    // Which dimensions are free: both when restored, one when maximised in the other, else none.
    ensures var f := FinalSize(requestedSize, l);
      if state == Restored || state == VertMaximized
      then size.width == f.width && pos.x == requestedPos.x + (if leftResize then f.width - requestedSize.width else 0)
      else size.width == current.size.width && pos.x == current.topLeft.x
    ensures var f := FinalSize(requestedSize, l);
      if state == Restored || state == HorizMaximized
      then size.height == f.height && pos.y == requestedPos.y + (if topResize then f.height - requestedSize.height else 0)
      else size.height == current.size.height && pos.y == current.topLeft.y
  {
    pos, size := requestedPos, requestedSize;
    if l.minAspect.Some? {
      size := WidenStep(size, l.minAspect.value);
    }
    if l.maxAspect.Some? {
      size := NarrowStep(size, l.maxAspect.value);
    }
    size := ClampStep(size, l);
    if l.widthInc.Some? {
      var width := SnapStep(size.width, l.minWidth, l.widthInc.value);
      size := size.(width := width);
    }
    if l.heightInc.Some? {
      var height := SnapStep(size.height, l.minHeight, l.heightInc.value);
      size := size.(height := height);
    }
    if leftResize { pos := pos.(x := pos.x + (size.width - requestedSize.width)); }
    if topResize { pos := pos.(y := pos.y + (size.height - requestedSize.height)); }
    match state {
      case Restored =>
      case VertMaximized =>
        pos := pos.(y := current.topLeft.y);
        size := size.(height := current.size.height);
      case HorizMaximized =>
        pos := pos.(x := current.topLeft.x);
        size := size.(width := current.size.width);
      case _ =>
        pos := current.topLeft;
        size := current.size;
    }
  }
}
