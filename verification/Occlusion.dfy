/**
  Occlusion culling in the adorning compositor: a backward walk over the scene drops the elements that
  cannot be seen. What it keeps paints the same picture.
 */
module Occlusion {
  import opened Geometry

  /** A colour with premultiplied alpha. */
  datatype Color = Color(r: real, g: real, b: real, a: real)

  /** A scene element: where it is, how it is drawn, and its contents at each point. A transformed
      element may cover any set of points (`footprint`). */
  datatype Renderable = Renderable(
    window: Rectangle,
    alpha: real,
    shaped: bool,
    transformed: bool,
    texel: Point -> Color,
    footprint: Point -> bool)

  // ------------------------------------------------------------------------- the picture

  predicate Covers(e: Renderable, p: Point)
  {
    if e.transformed then e.footprint(p) else Holds(e.window, p)
  }

  function Scaled(c: Color, k: real): Color
  {
    Color(c.r * k, c.g * k, c.b * k, c.a * k)
  }

  /** glBlendFunc(GL_ONE, GL_ONE_MINUS_SRC_ALPHA). */
  function Over(src: Color, under: Color): Color
  {
    var k := 1.0 - src.a;
    Color(src.r + k * under.r, src.g + k * under.g, src.b + k * under.b, src.a + k * under.a)
  }

  /** Opaque colours hide what is below, absent ones show it, and half of a colour shows half of it. */
  lemma Blending(src: Color, under: Color)
    ensures src.a == 1.0 ==> Over(src, under) == src
    ensures Over(Color(0.0, 0.0, 0.0, 0.0), under) == under
    ensures src.a == 0.5 ==>
      Scaled(Over(src, under), 2.0) == Color(2.0 * src.r + under.r, 2.0 * src.g + under.g, 2.0 * src.b + under.b, 1.0 + under.a)
  {
  }

  function Draw(e: Renderable, p: Point, under: Color): Color
  {
    if !Covers(e, p) then under
    else
      var src := Scaled(e.texel(p), e.alpha);
      if e.shaped || e.alpha < 1.0 then Over(src, under) else src
  }

  /** Draw the elements first to last over what is there. */
  function Paint(es: seq<Renderable>, p: Point, under: Color): Color
  {
    if es == [] then under else Paint(es[1..], p, Draw(es[0], p, under))
  }

  // ------------------------------------------------------------------------- culling

  function Clip(e: Renderable, area: Rectangle): Rectangle
  {
    Intersection(e.window, area)
  }

  /** The test of `renderable_is_occluded`. */
  predicate Occluded(e: Renderable, area: Rectangle, coverage: seq<Rectangle>)
  {
    && !e.transformed
    && (Clip(e, area) == EMPTY || exists i :: 0 <= i < |coverage| && Encloses(coverage[i], Clip(e, area)))
  }

  /** Elements that hide what lies below them inside the area. */
  predicate Covering(e: Renderable, area: Rectangle)
  {
    !e.transformed && Clip(e, area) != EMPTY && e.alpha == 1.0 && !e.shaped
  }

  /** `renderable_is_occluded`, which also extends the coverage. */
  method RenderableIsOccluded(e: Renderable, area: Rectangle, coverage: seq<Rectangle>)
    returns (occluded: bool, coverage': seq<Rectangle>)
    ensures occluded == Occluded(e, area, coverage)
    ensures coverage' == if !occluded && Covering(e, area) then coverage + [Clip(e, area)] else coverage
  {
    coverage' := coverage;
    if e.transformed {
      return false, coverage;
    }
    var clipped := Clip(e, area);
    if clipped == EMPTY {
      return true, coverage;
    }
    occluded := false;
    var i := 0;
    while i < |coverage| && !occluded
      invariant 0 <= i <= |coverage|
      invariant occluded <==> exists k :: 0 <= k < i && Encloses(coverage[k], clipped)
    {
      occluded := Encloses(coverage[i], clipped);
      i := i + 1;
    }
    if !occluded && e.alpha == 1.0 && !e.shaped {
      coverage' := coverage + [clipped];
    }
  }

  /** The coverage collected from the elements `es`, topmost (last) first. */
  function Coverage(es: seq<Renderable>, area: Rectangle): seq<Rectangle>
  {
    if es == [] then []
    else
      var above := Coverage(es[1..], area);
      if !Occluded(es[0], area, above) && Covering(es[0], area) then above + [Clip(es[0], area)] else above
  }

  /** What the walk leaves of `es`. */
  function Kept(es: seq<Renderable>, area: Rectangle): seq<Renderable>
  {
    if es == [] then []
    else if Occluded(es[0], area, Coverage(es[1..], area)) then Kept(es[1..], area)
    else [es[0]] + Kept(es[1..], area)
  }

  /** The elements told that they are occluded, in the order they are told. */
  function Told(es: seq<Renderable>, area: Rectangle): seq<Renderable>
  {
    if es == [] then []
    else if Occluded(es[0], area, Coverage(es[1..], area)) then Told(es[1..], area) + [es[0]]
    else Told(es[1..], area)
  }

  /** `remove_occlusions_from`: walks backwards, erasing while iterating. */
  method RemoveOcclusionsFrom(scene: seq<Renderable>, area: Rectangle)
    returns (elements: seq<Renderable>, told: seq<Renderable>)
    ensures elements == Kept(scene, area)
    ensures told == Told(scene, area)
    ensures elements == Visible(scene, area, 0) && told == Invisible(scene, area, 0)
  {
    elements, told := scene, [];
    var coverage: seq<Rectangle> := [];
    var it := |elements|;
    while it > 0
      invariant 0 <= it <= |scene| && it <= |elements|
      invariant elements[..it] == scene[..it] && elements[it..] == Kept(scene[it..], area)
      invariant coverage == Coverage(scene[it..], area) && told == Told(scene[it..], area)
    {
      var e := elements[it - 1];
      assert e == scene[it - 1] by { assert elements[..it][it - 1] == scene[..it][it - 1]; }
      Unfold(scene, it - 1);
      var occluded, coverage' := RenderableIsOccluded(e, area, coverage);
      coverage := coverage';
      if occluded {
        told := told + [e];
        ghost var before := elements;
        elements := elements[..it - 1] + elements[it..];
        assert elements[it - 1..] == before[it..];
        assert elements[..it - 1] == before[..it][..it - 1] == scene[..it][..it - 1] == scene[..it - 1];
      } else {
        assert elements[it - 1..] == [e] + elements[it..];
        assert elements[..it - 1] == elements[..it][..it - 1] == scene[..it][..it - 1] == scene[..it - 1];
      }
      it := it - 1;
    }
    assert elements[0..] == elements && scene[0..] == scene;
    WalkIs(scene, area);
  }

  lemma Unfold(scene: seq<Renderable>, i: nat)
    requires i < |scene|
    ensures scene[i..] != [] && scene[i..][0] == scene[i] && scene[i..][1..] == scene[i + 1..]
  {
  }

  // ------------------------------------------------------------------------- what it means

  ghost predicate Hidden(coverage: seq<Rectangle>, p: Point)
  {
    exists i :: 0 <= i < |coverage| && Holds(coverage[i], p)
  }

  lemma EnclosedPoint(outer: Rectangle, inner: Rectangle, p: Point)
    requires Encloses(outer, inner) && Holds(inner, p)
    ensures Holds(outer, p)
  {
  }

  /** An occluded element draws nothing at a point of the area that is not hidden anyway. */
  lemma OccludedDrawsNothing(e: Renderable, area: Rectangle, coverage: seq<Rectangle>, p: Point, under: Color)
    requires Occluded(e, area, coverage) && Holds(area, p) && !Hidden(coverage, p)
    ensures Draw(e, p, under) == under
  {
    if Holds(e.window, p) {
      assert Holds(Clip(e, area), p);
      var i :| 0 <= i < |coverage| && Encloses(coverage[i], Clip(e, area));
      EnclosedPoint(coverage[i], Clip(e, area), p);
      assert false;
    }
  }

  /** A covering element paints over whatever was below it. */
  lemma CoveringHides(e: Renderable, area: Rectangle, p: Point, under: Color, under': Color)
    requires Covering(e, area) && Holds(Clip(e, area), p)
    ensures Draw(e, p, under) == Draw(e, p, under')
  {
  }

  lemma HiddenBelow(es: seq<Renderable>, area: Rectangle, p: Point)
    requires es != [] && Hidden(Coverage(es, area), p) && !Hidden(Coverage(es[1..], area), p)
    ensures !Occluded(es[0], area, Coverage(es[1..], area)) && Covering(es[0], area) && Holds(Clip(es[0], area), p)
  {
    var above := Coverage(es[1..], area);
    assert forall k :: 0 <= k < |above| ==> !Holds(above[k], p);
  }

  /** The walk leaves the picture alone, whatever lies below, and wherever something above hides the
      point it does not even matter what lies below. */
  lemma {:induction false} SamePictureOver(es: seq<Renderable>, area: Rectangle, p: Point, under: Color, under': Color)
    requires Holds(area, p)
    requires under == under' || Hidden(Coverage(es, area), p)
    ensures Paint(Kept(es, area), p, under) == Paint(es, p, under')
  {
    if es != [] {
      var e, rest := es[0], es[1..];
      var above := Coverage(rest, area);
      if Hidden(above, p) {
        SamePictureOver(rest, area, p, under, Draw(e, p, under'));
        SamePictureOver(rest, area, p, Draw(e, p, under), Draw(e, p, under'));
      } else if Occluded(e, area, above) {
        assert Coverage(es, area) == above;
        OccludedDrawsNothing(e, area, above, p, under');
        SamePictureOver(rest, area, p, under, under');
      } else {
        if under != under' {
          HiddenBelow(es, area, p);
          CoveringHides(e, area, p, under, under');
        }
        SamePictureOver(rest, area, p, Draw(e, p, under), Draw(e, p, under'));
      }
      if !Occluded(e, area, above) {
        assert Kept(es, area)[1..] == Kept(rest, area);
      }
    }
  }

  /** Picture preservation: every pixel of the area comes out the same. */
  lemma SamePicture(es: seq<Renderable>, area: Rectangle, p: Point, background: Color)
    requires Holds(area, p)
    ensures Paint(Kept(es, area), p, background) == Paint(es, p, background)
  {
    SamePictureOver(es, area, p, background, background);
  }

  /** A second pass removes nothing. */
  lemma {:induction false} KeptAgain(es: seq<Renderable>, area: Rectangle)
    ensures Kept(Kept(es, area), area) == Kept(es, area)
    ensures Coverage(Kept(es, area), area) == Coverage(es, area)
  {
    if es != [] {
      KeptAgain(es[1..], area);
      if !Occluded(es[0], area, Coverage(es[1..], area)) {
        assert Kept(es, area)[1..] == Kept(es[1..], area);
      }
    }
  }

  /** Order is kept. */
  ghost predicate Subsequence(xs: seq<Renderable>, ys: seq<Renderable>)
  {
    || xs == []
    || (ys != [] && (Subsequence(xs, ys[1..]) || (xs[0] == ys[0] && Subsequence(xs[1..], ys[1..]))))
  }

  lemma {:induction false} KeptInOrder(es: seq<Renderable>, area: Rectangle)
    ensures Subsequence(Kept(es, area), es)
  {
    if es != [] {
      KeptInOrder(es[1..], area);
      if !Occluded(es[0], area, Coverage(es[1..], area)) {
        assert Kept(es, area)[1..] == Kept(es[1..], area);
      }
    }
  }

  /** Every element is visited once: it is either kept or told that it is occluded. */
  lemma {:induction false} KeptOrTold(es: seq<Renderable>, area: Rectangle)
    ensures multiset(Kept(es, area)) + multiset(Told(es, area)) == multiset(es)
  {
    if es != [] {
      KeptOrTold(es[1..], area);
      assert es == [es[0]] + es[1..];
    }
  }

  /** Which elements are kept, without reference to the walk: those that are transformed, or meet the
      area in a part no single kept covering element above encloses. */
  ghost predicate Shown(es: seq<Renderable>, area: Rectangle, i: nat)
    requires i < |es|
    decreases |es| - i
  {
    || es[i].transformed
    || (Clip(es[i], area) != EMPTY
        && !exists j :: i < j < |es| && Shown(es, area, j) && Covering(es[j], area) && Encloses(Clip(es[j], area), Clip(es[i], area)))
  }

  /** The walk's coverage at an index is made of exactly the shown covering elements above it. */
  lemma {:induction false} CoverageIs(es: seq<Renderable>, area: Rectangle, n: nat, r: Rectangle)
    requires n <= |es|
    ensures r in Coverage(es[n..], area) <==>
      exists j :: n <= j < |es| && Shown(es, area, j) && Covering(es[j], area) && Clip(es[j], area) == r
    decreases |es| - n
  {
    if n < |es| {
      Unfold(es, n);
      CoverageIs(es, area, n + 1, r);
      ShownIff(es, area, n);
    }
  }

  lemma {:induction false} ShownIff(es: seq<Renderable>, area: Rectangle, n: nat)
    requires n < |es|
    ensures Occluded(es[n], area, Coverage(es[n + 1..], area)) <==> !Shown(es, area, n)
    decreases |es| - n, 0
  {
    var above := Coverage(es[n + 1..], area);
    var clip := Clip(es[n], area);
    forall r
      ensures r in above <==> exists j :: n + 1 <= j < |es| && Shown(es, area, j) && Covering(es[j], area) && Clip(es[j], area) == r
    {
      CoverageIs(es, area, n + 1, r);
    }
    if !es[n].transformed && clip != EMPTY {
      if i :| 0 <= i < |above| && Encloses(above[i], clip) {
        assert above[i] in above;
      }
      if j :| n < j < |es| && Shown(es, area, j) && Covering(es[j], area) && Encloses(Clip(es[j], area), clip) {
        assert Clip(es[j], area) in above;
      }
    }
  }

  /** Exactly the shown elements survive. */
  lemma {:induction false} KeptAreShown(es: seq<Renderable>, area: Rectangle, n: nat)
    requires n < |es|
    ensures Kept(es[n..], area) == if Shown(es, area, n) then [es[n]] + Kept(es[n + 1..], area) else Kept(es[n + 1..], area)
  {
    Unfold(es, n);
    ShownIff(es, area, n);
  }

  // ------------------------------------------------------------------------- on points

  /** The element and the area share the point. */
  predicate Shares(e: Renderable, area: Rectangle, p: Point)
  {
    Holds(e.window, p) && Holds(area, p)
  }

  /** The upper element is opaque wherever it is drawn, and it is drawn wherever the lower one meets the area. */
  ghost predicate PaintsOver(upper: Renderable, lower: Renderable, area: Rectangle)
  {
    && !upper.transformed && !upper.shaped && upper.alpha == 1.0
    && forall p :: Shares(lower, area, p) ==> Holds(upper.window, p)
  }

  /** The element cannot be seen in the area: it does not meet it, or a single element above paints it over. */
  ghost predicate Culled(es: seq<Renderable>, area: Rectangle, i: nat)
    requires i < |es|
  {
    && !es[i].transformed
    && ((forall p :: !Shares(es[i], area, p)) || exists j :: i < j < |es| && PaintsOver(es[j], es[i], area))
  }

  lemma ClipIsShared(e: Renderable, area: Rectangle)
    ensures forall p :: Holds(Clip(e, area), p) <==> Shares(e, area, p)
    ensures Clip(e, area) == EMPTY <==> forall p :: !Shares(e, area, p)
  {
  }

  /** One clipped rectangle encloses another exactly when its element paints the other over. */
  lemma EnclosedIffPainted(upper: Renderable, lower: Renderable, area: Rectangle)
    requires exists p :: Shares(lower, area, p)
    ensures Covering(upper, area) && Encloses(Clip(upper, area), Clip(lower, area)) <==> PaintsOver(upper, lower, area)
  {
    ClipIsShared(upper, area);
    ClipIsShared(lower, area);
    var p :| Shares(lower, area, p);
    assert Holds(Clip(lower, area), p);
    EnclosesIff(Clip(upper, area), Clip(lower, area));
  }

  lemma PaintsOverAll(top: Renderable, upper: Renderable, lower: Renderable, area: Rectangle)
    requires PaintsOver(top, upper, area) && PaintsOver(upper, lower, area)
    ensures PaintsOver(top, lower, area)
  {
    forall p | Shares(lower, area, p)
      ensures Holds(top.window, p)
    {
      assert Shares(upper, area, p);
    }
  }

  /** Shown is not culled. What paints an element over need not itself be kept: if it is not, then what hides it
      hides both. */
  lemma ShownIffNotCulled(es: seq<Renderable>, area: Rectangle, i: nat)
    requires i < |es|
    ensures Shown(es, area, i) <==> !Culled(es, area, i)
  {
    ClipIsShared(es[i], area);
    if !es[i].transformed && exists p :: Shares(es[i], area, p) {
      if Culled(es, area, i) {
        var j :| i < j < |es| && PaintsOver(es[j], es[i], area);
        HiddenByShown(es, area, i, j);
      } else {
        forall j | i < j < |es|
          ensures !(Covering(es[j], area) && Encloses(Clip(es[j], area), Clip(es[i], area)))
        {
          EnclosedIffPainted(es[j], es[i], area);
        }
      }
    }
  }

  lemma HiddenByShown(es: seq<Renderable>, area: Rectangle, i: nat, j: nat)
    requires i < j < |es| && PaintsOver(es[j], es[i], area) && !es[i].transformed
    requires exists p :: Shares(es[i], area, p)
    ensures !Shown(es, area, i)
  {
    var p :| Shares(es[i], area, p);
    assert Shares(es[j], area, p);
    ClipIsShared(es[j], area);
    EnclosedIffPainted(es[j], es[i], area);
    if !Shown(es, area, j) {
      var k :| j < k < |es| && Shown(es, area, k) && Covering(es[k], area) && Encloses(Clip(es[k], area), Clip(es[j], area));
      EnclosedIffPainted(es[k], es[j], area);
      PaintsOverAll(es[k], es[j], es[i], area);
      EnclosedIffPainted(es[k], es[i], area);
    }
  }

  /** The walk's law: an element is erased, and told that it is occluded, if and only if it cannot be seen. */
  lemma ErasedIffCulled(es: seq<Renderable>, area: Rectangle, n: nat)
    requires n < |es|
    ensures Kept(es[n..], area) == (if Culled(es, area, n) then Kept(es[n + 1..], area) else [es[n]] + Kept(es[n + 1..], area))
    ensures Told(es[n..], area) == (if Culled(es, area, n) then Told(es[n + 1..], area) + [es[n]] else Told(es[n + 1..], area))
  {
    Unfold(es, n);
    ShownIff(es, area, n);
    ShownIffNotCulled(es, area, n);
  }

  /** The elements from `n` on that can be seen, in drawing order, and those that cannot, topmost first. */
  ghost function Visible(es: seq<Renderable>, area: Rectangle, n: nat): seq<Renderable>
    requires n <= |es|
    decreases |es| - n
  {
    if n == |es| then [] else if Culled(es, area, n) then Visible(es, area, n + 1) else [es[n]] + Visible(es, area, n + 1)
  }

  ghost function Invisible(es: seq<Renderable>, area: Rectangle, n: nat): seq<Renderable>
    requires n <= |es|
    decreases |es| - n
  {
    if n == |es| then [] else if Culled(es, area, n) then Invisible(es, area, n + 1) + [es[n]] else Invisible(es, area, n + 1)
  }

  lemma {:induction false} WalkFromIs(es: seq<Renderable>, area: Rectangle, n: nat)
    requires n <= |es|
    ensures Kept(es[n..], area) == Visible(es, area, n) && Told(es[n..], area) == Invisible(es, area, n)
    decreases |es| - n
  {
    if n < |es| {
      ErasedIffCulled(es, area, n);
      WalkFromIs(es, area, n + 1);
    }
  }

  /** The whole walk keeps exactly what can be seen and tells exactly the others, topmost first. */
  lemma WalkIs(es: seq<Renderable>, area: Rectangle)
    ensures Kept(es, area) == Visible(es, area, 0) && Told(es, area) == Invisible(es, area, 0)
  {
    WalkFromIs(es, area, 0);
    assert es[0..] == es;
  }
}
