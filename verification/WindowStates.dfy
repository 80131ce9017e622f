/** What each window state means for the window, its titlebar and everybody else. */
module WindowStates {
  import opened Basics
  import opened Geometry
  import opened WindowTree
  import opened WindowManagement
  import opened WindowJourney

  /** The place a window goes back to: where it is, if it is restored now, else where it last was restored. */
  function Home(i: Info): Rectangle
  {
    if i.state == Restored then Rectangle(i.pos, i.size) else i.restoreRect
  }

  /** The rectangle covers the columns of one and the rows of another. */
  predicate Spans(r: Rectangle, columns: Rectangle, rows: Rectangle)
  {
    && r.Left() == columns.Left() && r.Right() == columns.Right()
    && r.Top() == rows.Top() && r.Bottom() == rows.Bottom()
  }

  lemma Remembering(m: Windows, w: Window)
    requires Forest(m) && w in m && TitlebarIsChild(m, w)
    ensures var r := m[w := Remembered(m[w])];
      && Forest(r) && SameShape(m, r) && TitlebarIsChild(r, w) && r[w] == m[w].(restoreRect := Home(m[w]))
  {
    RememberShape(m, w);
  }

  lemma ShownWindow(m: Windows, w: Window, value: WindowState, to: Rectangle)
    requires Forest(m) && w in m && TitlebarIsChild(m, w)
    ensures var n := Show(m, w, value, to);
      w in n && n[w] == m[w].(size := to.size, state := value, visible := true, pos := to.topLeft)
  {
    ShowRigid(m, m, w, value, to);
  }

  /** Where the window is after a request for a state it was not yet in. */
  lemma WindowAfter(m: Windows, w: Window, value: WindowState, area: Rectangle, fit: Rectangle -> Rectangle)
    requires Forest(m) && w in m && TitlebarIsChild(m, w) && m[w].state != value && value != Unknown
    ensures w in AfterSetState(m, w, value, area, fit)
    ensures var n := AfterSetState(m, w, value, area, fit)[w];
      var now, home := Rectangle(n.pos, n.size), Home(m[w]);
      && n.state == value && n.restoreRect == home
      && (value == Restored ==> now == home)
      && (value == Maximized ==> now == area)
      && (value == HorizMaximized ==> Spans(now, area, home))
      && (value == VertMaximized ==> Spans(now, home, area))
      && (value == Fullscreen ==> now == fit(Rectangle(m[w].pos, m[w].size)))
      && (value == Hidden || value == Minimized ==> now == Rectangle(m[w].pos, m[w].size))
      && (n.visible <==> value != Hidden && value != Minimized)
  {
    var r := m[w := Remembered(m[w])];
    Remembering(m, w);
    if value == Hidden || value == Minimized {
      HideInPlace(r, w, value);
    } else {
      ShownWindow(r, w, value, Destination(r[w], value, area, fit));
    }
  }

  lemma TitlebarApart(m: Windows, w: Window, t: Window)
    requires Forest(m) && w in m && t in m && m[w].titlebar == Some(t) && TitlebarIsChild(m, w)
    ensures t != w && Under(m, w, t)
  {
    assert ChildOf(m, t, w);
    ChildUnder(m, w, t);
  }

  /** What a titlebar looks like over a window in the state `value`: shown, as wide as the window, over a
      restored or horizontally maximised one; hidden from the other states; left alone by fullscreen. */
  ghost predicate TitlebarFor(before: Info, after: Info, value: WindowState, width: int)
  {
    && (value == Restored || value == HorizMaximized ==> after.visible && after.size == Size(width, 10))
    && (value == Maximized || value == VertMaximized || value == Hidden || value == Minimized ==>
          !after.visible && after.size == before.size)
    && (value == Fullscreen ==> after.visible == before.visible && after.size == before.size)
  }

  lemma ShownTitlebar(m: Windows, w: Window, t: Window, value: WindowState, to: Rectangle)
    requires w in m && t in m && t != w && Under(m, w, t) && m[w].titlebar == Some(t)
    requires value != Hidden && value != Minimized && value != Unknown
    ensures var n := Show(m, w, value, to);
      t in n && n[t].pos == Plus(m[t].pos, Minus(to.topLeft, m[w].pos)) && TitlebarFor(m[t], n[t], value, to.size.width)
  {
  }

  lemma HiddenTitlebar(m: Windows, w: Window, t: Window, value: WindowState)
    requires w in m && t in m && t != w && m[w].titlebar == Some(t) && (value == Hidden || value == Minimized)
    ensures var n := Hide(m, w, value);
      t in n && n[t].pos == m[t].pos && TitlebarFor(m[t], n[t], value, m[w].size.width)
  {
  }

  /** What becomes of the window's titlebar; it also moves along. */
  lemma TitlebarAfterwards(m: Windows, w: Window, t: Window, value: WindowState, area: Rectangle, fit: Rectangle -> Rectangle)
    requires Forest(m) && w in m && TitlebarIsChild(m, w) && m[w].state != value && value != Unknown
    requires t in m && m[w].titlebar == Some(t)
    ensures var n := AfterSetState(m, w, value, area, fit);
      && t in n && w in n && n[t].pos == Plus(m[t].pos, Minus(n[w].pos, m[w].pos))
      && TitlebarFor(m[t], n[t], value, n[w].size.width)
  {
    var r := m[w := Remembered(m[w])];
    Remembering(m, w);
    TitlebarApart(r, w, t);
    if value == Hidden || value == Minimized {
      HideInPlace(r, w, value);
      HiddenTitlebar(r, w, t, value);
    } else {
      var to := Destination(r[w], value, area, fit);
      ShownWindow(r, w, value, to);
      ShownTitlebar(r, w, t, value, to);
    }
  }

  lemma ShownOther(m: Windows, w: Window, value: WindowState, to: Rectangle, x: Window)
    requires w in m && x in m && x != w && m[w].titlebar != Some(x)
    ensures var n := Show(m, w, value, to);
      x in n && n[x] == if Under(m, w, x) then m[x].(pos := Plus(m[x].pos, Minus(to.topLeft, m[w].pos))) else m[x]
  {
  }

  /** Nobody outside the window's tree notices; inside it everybody moves along, and only the window and its
      titlebar change otherwise. */
  lemma OthersAfter(m: Windows, w: Window, value: WindowState, area: Rectangle, fit: Rectangle -> Rectangle, x: Window)
    requires Forest(m) && w in m && TitlebarIsChild(m, w) && x in m && x != w && m[w].titlebar != Some(x)
    requires m[w].state != value && value != Unknown
    ensures var n := AfterSetState(m, w, value, area, fit);
      && x in n && w in n
      && n[x] == if Under(m, w, x) then m[x].(pos := Plus(m[x].pos, Minus(n[w].pos, m[w].pos))) else m[x]
  {
    var r := m[w := Remembered(m[w])];
    Remembering(m, w);
    SameUnder(m, r, w, x);
    if value == Hidden || value == Minimized {
      HideInPlace(r, w, value);
    } else {
      var to := Destination(r[w], value, area, fit);
      ShownWindow(r, w, value, to);
      ShownOther(r, w, value, to, x);
    }
  }

  /** A request that changes nothing: an unknown state, or the one the window is in already. */
  lemma NothingAfter(m: Windows, w: Window, value: WindowState, area: Rectangle, fit: Rectangle -> Rectangle)
    requires w in m && (value == Unknown || m[w].state == value)
    ensures var n := AfterSetState(m, w, value, area, fit);
      && n.Keys == m.Keys
      && (forall x :: x in m && x != w ==> n[x] == m[x])
      && (value == Unknown ==> n[w] == m[w])
      && (value != Unknown ==> n[w] == m[w].(restoreRect := Home(m[w])))
  {
  }

  /** A new titlebar sits on top of its window: same columns, its bottom edge on the window's top edge. */
  lemma TitlebarOnTop(m: Windows, w: Window, t: Window, info: Info)
    requires Forest(m) && Older(m, w.serial) && w.serial < t.serial && info == FreshInfo(info.parent, info.pos, info.size, info.state)
    requires info.parent.Some? ==> info.parent.value.serial < w.serial
    ensures var n := Decorated(Inserted(m, w, info), w, t, info.pos, info.size);
      && w in n && t in n && n[w].pos == info.pos && n[w].size == info.size && n[w].visible && n[w].state == info.state
      && n[w].titlebar == Some(t) && n[t].parent == Some(w) && n[t].visible && n[t].state == Restored
      && n[t].pos.x == n[w].pos.x && n[t].size.width == n[w].size.width
      && n[t].pos.y + n[t].size.height == n[w].pos.y && n[t].size.height == 10
  {
    DecoratedWindow(m, w, t, info);
  }

  /** A window that has never been restored goes back to where it was created. */
  lemma NewWindowHome(parent: Option<Window>, pos: Point, size: Size, state: WindowState)
    ensures Home(FreshInfo(parent, pos, size, state)) == Rectangle(pos, size)
  {
  }

  /** Adding a window leaves the others alone, but for its parent, whose children list grows at the end. */
  lemma AddedOthers(m: Windows, w: Window, info: Info, x: Window)
    requires Older(m, w.serial) && x in m && (info.parent.Some? ==> info.parent.value.serial < w.serial)
    ensures x in Inserted(m, w, info)
    ensures Inserted(m, w, info)[x] == if info.parent == Some(x) then m[x].(children := m[x].children + [w]) else m[x]
  {
  }

  /** Removing one leaves the others alone, but for its parent, whose children list keeps its order. */
  lemma RemovedOthers(m: Windows, w: Window, x: Window) returns (front: seq<Window>, back: seq<Window>)
    requires Forest(m) && w in m && x in m && x != w
    ensures x in Removed(m, w)
    ensures m[w].parent != Some(x) ==> Removed(m, w)[x] == m[x]
    ensures m[w].parent == Some(x) ==>
      m[x].children == front + [w] + back && Removed(m, w)[x] == m[x].(children := front + back)
  {
    front, back := [], [];
    if m[w].parent == Some(x) {
      assert ChildOf(m, w, x);
      var i :| 0 <= i < |m[x].children| && m[x].children[i] == w;
      front, back := m[x].children[..i], m[x].children[i + 1..];
      assert m[x].children == front + [w] + back;
      WithoutAt(m[x].children, w, i);
    }
  }
}
