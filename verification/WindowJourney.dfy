/** State requests to one window: there and back again. */
module WindowJourney {
  import opened Basics
  import opened Geometry
  import opened WindowTree
  import opened WindowManagement

  /** Requests to one window, in order. */
  ghost function AfterRequests(m: Windows, w: Window, values: seq<WindowState>, area: Rectangle, fit: Rectangle -> Rectangle): (n: Windows)
    requires w in m
    ensures w in n
    decreases |values|
  {
    if values == [] then m
    else
      AfterRequests(AfterSetState(m, w, values[0], area, fit), w, values[1..], area, fit)
  }

  ghost predicate TitlebarFits(m: Windows, w: Window)
    requires w in m
  {
    m[w].titlebar.Some? && m[w].titlebar.value in m ==> m[m[w].titlebar.value].size == TitlebarSize(m[w].size)
  }

  ghost predicate TitlebarIsChild(m: Windows, w: Window)
    requires w in m
  {
    m[w].titlebar.Some? && m[w].titlebar.value in m ==> ChildOf(m, m[w].titlebar.value, w)
  }

  /** The window's tree moved as one body; nothing else changed. */
  ghost predicate Rigid(m0: Windows, m: Windows, w: Window)
  {
    && w in m0 && SameShape(m0, m) && m[w].titlebar == m0[w].titlebar
    && (forall x :: x in m0 && !Under(m0, w, x) ==> m[x] == m0[x])
    && (forall x :: x in m0 && Under(m0, w, x) ==> Minus(m[x].pos, m[w].pos) == Minus(m0[x].pos, m0[w].pos))
  }

  /** Either back where it started, or remembering where that was. */
  ghost predicate Home(m0: Windows, m: Windows, w: Window)
    requires w in m0 && w in m
  {
    if m[w].state == Restored
    then m[w].pos == m0[w].pos && m[w].size == m0[w].size && (TitlebarFits(m0, w) ==> TitlebarFits(m, w))
    else m[w].restoreRect == Rectangle(m0[w].pos, m0[w].size)
  }

  ghost predicate Journey(m0: Windows, m: Windows, w: Window)
  {
    Rigid(m0, m, w) && Home(m0, m, w)
  }

  lemma RememberJourney(m0: Windows, m: Windows, w: Window)
    requires Forest(m0) && Journey(m0, m, w)
    ensures var n := m[w := Remembered(m[w])];
      Journey(m0, n, w) && n[w].restoreRect == Rectangle(m0[w].pos, m0[w].size)
  {
    assert Under(m0, w, w);
  }

  /** Only the window and its titlebar changed, and neither moved. */
  ghost predicate InPlace(m: Windows, n: Windows, w: Window)
  {
    && w in m && SameShape(m, n) && m[w].titlebar == n[w].titlebar
    && (forall x :: x in m ==> n[x].pos == m[x].pos)
    && (forall x :: x in m && x != w && m[w].titlebar != Some(x) ==> n[x] == m[x])
  }

  lemma TitlebarInPlace(m: Windows, w: Window, value: WindowState, size: Size)
    requires w in m
    ensures InPlace(m, WithTitlebar(m, w, value, size), w)
  {
  }

  lemma HideInPlace(m: Windows, w: Window, value: WindowState)
    requires w in m
    ensures InPlace(m, Hide(m, w, value), w)
    ensures Hide(m, w, value)[w] == m[w].(visible := false, state := value)
  {
    TitlebarInPlace(m[w := m[w].(visible := false, state := value)], w, value, m[w].size);
  }

  lemma ResizeInPlace(m: Windows, w: Window, value: WindowState, size: Size)
    requires w in m
    ensures InPlace(m, Resized(m, w, value, size), w)
    ensures Resized(m, w, value, size)[w] == m[w].(size := size, state := value, visible := true)
  {
    TitlebarInPlace(m[w := m[w].(size := size, state := value, visible := true)], w, value, size);
  }

  lemma RigidInPlace(m0: Windows, m: Windows, n: Windows, w: Window)
    requires Forest(m0) && Rigid(m0, m, w) && InPlace(m, n, w) && TitlebarIsChild(m0, w)
    ensures Rigid(m0, n, w)
  {
    assert Under(m0, w, w);
    forall x | x in m0 && !Under(m0, w, x)
      ensures n[x] == m0[x]
    {
      if m0[w].titlebar == Some(x) {
        ChildUnder(m0, w, x);
        assert false;
      }
    }
  }

  lemma RigidShift(m0: Windows, m: Windows, w: Window, d: Displacement)
    requires Rigid(m0, m, w)
    ensures Rigid(m0, Shifted(m, Subtree(m, w), d), w)
  {
    SameSubtree(m0, m, w);
    assert Under(m0, w, w);
    var n := Shifted(m, Subtree(m, w), d);
    assert forall x :: x in m0 ==> (x in Subtree(m, w) <==> Under(m0, w, x)) by {
      assert forall x :: x in m0 ==> (x in Subtree(m0, w) <==> Under(m0, w, x));
    }
  }

  lemma HideJourney(m0: Windows, m: Windows, w: Window, value: WindowState)
    requires Forest(m0) && Rigid(m0, m, w) && TitlebarIsChild(m0, w) && value != Restored
    requires m[w].restoreRect == Rectangle(m0[w].pos, m0[w].size)
    ensures Journey(m0, Hide(m, w, value), w)
  {
    HideInPlace(m, w, value);
    RigidInPlace(m0, m, Hide(m, w, value), w);
  }

  lemma RestoreTitlebar(m: Windows, w: Window, size: Size)
    requires w in m && (m[w].titlebar.Some? ==> m[w].titlebar.value != w)
    ensures w in Resized(m, w, Restored, size) && TitlebarFits(Resized(m, w, Restored, size), w)
  {
  }

  /** `Show` shifts the resized map. */
  lemma ShowRigid(m0: Windows, m: Windows, w: Window, value: WindowState, to: Rectangle)
    requires Forest(m0) && Rigid(m0, m, w) && TitlebarIsChild(m0, w)
    ensures Rigid(m0, Show(m, w, value, to), w)
    ensures Show(m, w, value, to)[w] == m[w].(size := to.size, state := value, visible := true, pos := to.topLeft)
  {
    var r := Resized(m, w, value, to.size);
    ResizeInPlace(m, w, value, to.size);
    RigidInPlace(m0, m, r, w);
    SameSubtree(m, r, w);
    RigidShift(m0, r, w, Minus(to.topLeft, m[w].pos));
    assert Under(m, w, w);
  }

  lemma ShowFits(m: Windows, w: Window, to: Rectangle)
    requires w in m && (m[w].titlebar.Some? ==> m[w].titlebar.value != w)
    ensures w in Show(m, w, Restored, to) && TitlebarFits(Show(m, w, Restored, to), w)
  {
    RestoreTitlebar(m, w, to.size);
  }

  lemma ShowJourney(m0: Windows, m: Windows, w: Window, value: WindowState, to: Rectangle)
    requires Forest(m0) && Rigid(m0, m, w) && TitlebarIsChild(m0, w) && NotOwnTitlebar(m0, w)
    requires m[w].restoreRect == Rectangle(m0[w].pos, m0[w].size)
    requires value == Restored ==> to == m[w].restoreRect
    ensures Journey(m0, Show(m, w, value, to), w)
  {
    ShowRigid(m0, m, w, value, to);
    if value == Restored {
      ShowFits(m, w, to);
    }
  }

  ghost predicate NotOwnTitlebar(m: Windows, w: Window)
    requires w in m
  {
    m[w].titlebar != Some(w)
  }

  lemma StepOnJourney(m0: Windows, m: Windows, w: Window, value: WindowState, area: Rectangle, fit: Rectangle -> Rectangle)
    requires Forest(m0) && Journey(m0, m, w) && TitlebarIsChild(m0, w)
    ensures Journey(m0, AfterSetState(m, w, value, area, fit), w)
  {
    if Known(value) {
      RememberJourney(m0, m, w);
      var n := m[w := Remembered(m[w])];
      if n[w].state != value {
        if value == Hidden || value == Minimized {
          HideJourney(m0, n, w, value);
        } else {
          assert NotOwnTitlebar(m0, w) by {
            assert !ChildOf(m0, w, w);
          }
          ShowJourney(m0, n, w, value, Destination(n[w], value, area, fit));
        }
      }
    }
  }

  lemma {:induction false} WholeJourney(m0: Windows, m: Windows, w: Window, values: seq<WindowState>, area: Rectangle, fit: Rectangle -> Rectangle)
    requires Forest(m0) && Journey(m0, m, w) && TitlebarIsChild(m0, w)
    ensures w in m && Journey(m0, AfterRequests(m, w, values, area, fit), w)
    decreases |values|
  {
    if values != [] {
      StepOnJourney(m0, m, w, values[0], area, fit);
      WholeJourney(m0, AfterSetState(m, w, values[0], area, fit), w, values[1..], area, fit);
    }
  }

  /** The round trip: requests that start and end restored leave the window where it was and as large as
      it was, with a fitting titlebar if it had one, every window below it back in place, and all others untouched. */
  lemma RoundTrip(m: Windows, w: Window, values: seq<WindowState>, area: Rectangle, fit: Rectangle -> Rectangle)
    requires Forest(m) && w in m && TitlebarIsChild(m, w) && m[w].state == Restored
    requires AfterRequests(m, w, values, area, fit)[w].state == Restored
    ensures var n := AfterRequests(m, w, values, area, fit);
      && n.Keys == m.Keys
      && n[w].pos == m[w].pos && n[w].size == m[w].size && (TitlebarFits(m, w) ==> TitlebarFits(n, w))
      && (forall x :: x in m ==> n[x].pos == m[x].pos)
      && (forall x :: x in m && !Under(m, w, x) ==> n[x] == m[x])
  {
    WholeJourney(m, m, w, values, area, fit);
  }
}
