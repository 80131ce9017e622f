/**
  The window manager object: adding and removing windows, moving and raising a tree, and the
  window-state machine.
 */
module WindowManagement {
  import opened Basics
  import opened Geometry
  import opened WindowTree

  const TITLE_BAR_HEIGHT := 10

  function TitlebarSize(window: Size): Size
  {
    Size(window.width, TITLE_BAR_HEIGHT)
  }

  function TitlebarPosition(window: Point): Point
  {
    Point(window.x, window.y - TITLE_BAR_HEIGHT)
  }

  function FreshInfo(parent: Option<Window>, pos: Point, size: Size, state: WindowState): Info
  {
    Info(parent, [], pos, size, true, state, Rectangle(pos, size), None)
  }

  function TitlebarOf(i: Info): set<Window>
  {
    match i.titlebar case Some(t) => {t} case None => {}
  }

  function TitlebarInfo(w: Window, pos: Point, size: Size): Info
  {
    FreshInfo(Some(w), TitlebarPosition(pos), TitlebarSize(size), Restored)
  }

  /** `generate_decorations_for`: a titlebar `t` above the window, as its child. */
  function Decorated(m: Windows, w: Window, t: Window, pos: Point, size: Size): Windows
    requires w in m
  {
    var n := Inserted(m, t, TitlebarInfo(w, pos, size));
    n[w := n[w].(titlebar := Some(t))]
  }

  lemma DecoratedForest(m: Windows, w: Window, t: Window, pos: Point, size: Size)
    requires Forest(m) && Older(m, t.serial) && w in m
    ensures Forest(Decorated(m, w, t, pos, size)) && Older(Decorated(m, w, t, pos, size), t.serial + 1)
    ensures w in Inserted(m, t, TitlebarInfo(w, pos, size))
  {
    var n := Inserted(m, t, TitlebarInfo(w, pos, size));
    InsertKeepsForest(m, t, TitlebarInfo(w, pos, size));
    SameForest(n, Decorated(m, w, t, pos, size));
  }

  /** What a decorated new window looks like: its only child is a titlebar of matching width above it. */
  lemma DecoratedWindow(m: Windows, w: Window, t: Window, info: Info)
    requires Forest(m) && Older(m, w.serial) && w.serial < t.serial && info == FreshInfo(info.parent, info.pos, info.size, info.state)
    requires info.parent.Some? ==> info.parent.value.serial < w.serial
    ensures var n := Decorated(Inserted(m, w, info), w, t, info.pos, info.size);
      && n.Keys == m.Keys + {w, t}
      && n[w] == info.(children := [t], titlebar := Some(t))
      && n[t] == TitlebarInfo(w, info.pos, info.size)
  {
    InsertKeepsForest(m, w, info);
    var n := Inserted(m, w, info);
    assert n[w].children == [];
    InsertKeepsForest(n, t, TitlebarInfo(w, info.pos, info.size));
  }

  /** A window leaves, and its titlebar with it. */
  function RemovedWithTitlebar(m: Windows, w: Window): Windows
    requires w in m
  {
    var n := Removed(m, w);
    match m[w].titlebar
    case Some(t) => if t in n then Removed(n, t) else n
    case None => n
  }

  // ------------------------------------------------------------------------- state changes

  /** The requests `handle_set_state` honours. */
  predicate Known(value: WindowState)
  {
    value != Unknown
  }

  /** The restore rectangle is refreshed by any honoured request made while the window is restored. */
  function Remembered(i: Info): Info
  {
    if i.state == Restored then i.(restoreRect := Rectangle(i.pos, i.size)) else i
  }

  /** Where a window goes in a state that shows it. `fit` is the display layout's size_to_output. */
  function Destination(i: Info, value: WindowState, area: Rectangle, fit: Rectangle -> Rectangle): Rectangle
  {
    match value
    case Restored => i.restoreRect
    case Maximized => area
    case HorizMaximized =>
      Rectangle(Point(area.topLeft.x, i.restoreRect.topLeft.y), Size(area.size.width, i.restoreRect.size.height))
    case VertMaximized =>
      Rectangle(Point(i.restoreRect.topLeft.x, area.topLeft.y), Size(i.restoreRect.size.width, area.size.height))
    case Fullscreen => fit(Rectangle(i.pos, i.size))
    case _ => Rectangle(i.pos, i.size)
  }

  /** What happens to the titlebar, if the window has one. */
  function TitlebarAfter(t: Info, value: WindowState, size: Size): Info
  {
    match value
    case Restored => t.(size := TitlebarSize(size), visible := true)
    case HorizMaximized => t.(size := TitlebarSize(size), visible := true)
    case Fullscreen => t
    case _ => t.(visible := false)
  }

  function WithTitlebar(m: Windows, w: Window, value: WindowState, size: Size): Windows
    requires w in m
  {
    match m[w].titlebar
    case Some(t) => if t in m && t != w then m[t := TitlebarAfter(m[t], value, size)] else m
    case None => m
  }

  /** The window is hidden where it is. */
  function Hide(m: Windows, w: Window, value: WindowState): Windows
    requires w in m
  {
    WithTitlebar(m[w := m[w].(visible := false, state := value)], w, value, m[w].size)
  }

  /** The window takes its new size and state, not yet its new place. */
  function Resized(m: Windows, w: Window, value: WindowState, size: Size): Windows
    requires w in m
  {
    WithTitlebar(m[w := m[w].(size := size, state := value, visible := true)], w, value, size)
  }

  /** The window is shown at `to`, and its whole tree moves along. */
  ghost function Show(m: Windows, w: Window, value: WindowState, to: Rectangle): Windows
    requires w in m
  {
    Shifted(Resized(m, w, value, to.size), Subtree(m, w), Minus(to.topLeft, m[w].pos))
  }

  /** The window map after a request to put `w` in state `value`. */
  ghost function AfterSetState(m: Windows, w: Window, value: WindowState, area: Rectangle, fit: Rectangle -> Rectangle): Windows
    requires w in m
  {
    if !Known(value) then m
    else
      var n := m[w := Remembered(m[w])];
      if n[w].state == value then n
      else if value == Hidden || value == Minimized then Hide(n, w, value)
      else Show(n, w, value, Destination(n[w], value, area, fit))
  }

  lemma SameLinks(m: Windows, n: Windows, w: Window)
    requires SameShape(m, n) && Forest(m)
    ensures Forest(n) && Subtree(n, w) == Subtree(m, w)
  {
    SameForest(m, n);
    SameSubtree(m, n, w);
  }

  lemma RememberShape(m: Windows, w: Window)
    requires w in m && Forest(m)
    ensures SameShape(m, m[w := Remembered(m[w])]) && Forest(m[w := Remembered(m[w])])
  {
    SameLinks(m, m[w := Remembered(m[w])], w);
  }

  lemma TitlebarShape(m: Windows, w: Window, value: WindowState, size: Size)
    requires w in m
    ensures SameShape(m, WithTitlebar(m, w, value, size)) && WithTitlebar(m, w, value, size)[w] == m[w]
  {
  }

  lemma HideShape(m: Windows, w: Window, value: WindowState)
    requires w in m && Forest(m)
    ensures SameShape(m, Hide(m, w, value)) && Forest(Hide(m, w, value)) && Hide(m, w, value)[w].state == value
  {
    TitlebarShape(m[w := m[w].(visible := false, state := value)], w, value, m[w].size);
    SameLinks(m, Hide(m, w, value), w);
  }

  lemma ResizeShape(m: Windows, w: Window, value: WindowState, size: Size)
    requires w in m && Forest(m)
    ensures SameShape(m, Resized(m, w, value, size)) && Forest(Resized(m, w, value, size))
    ensures Subtree(Resized(m, w, value, size), w) == Subtree(m, w)
    ensures Resized(m, w, value, size)[w] == m[w].(size := size, state := value, visible := true)
  {
    TitlebarShape(m[w := m[w].(size := size, state := value, visible := true)], w, value, size);
    SameLinks(m, Resized(m, w, value, size), w);
  }

  class WindowManager {
    var windows: Windows
    var next: nat
    const displayArea: Rectangle

    ghost predicate Valid()
      reads this
    {
      Forest(windows) && Older(windows, next)
    }

    constructor (displayArea: Rectangle)
      ensures Valid() && windows == map[] && this.displayArea == displayArea
    {
      windows, next := map[], 0;
      this.displayArea := displayArea;
    }

    /** `add_surface`: the window joins its live parent's children, then gets its titlebar. */
    method AddSurface(parent: Option<Window>, pos: Point, size: Size, state: WindowState, needsTitlebar: bool)
      returns (w: Window)
      requires Valid() && (parent.Some? ==> parent.value.serial < next)
      modifies this
      ensures Valid() && w == Window(old(next))
      ensures var m := Inserted(old(windows), w, FreshInfo(parent, pos, size, state));
        windows == if needsTitlebar then Decorated(m, w, Window(old(next) + 1), pos, size) else m
    {
      w := Window(next);
      InsertKeepsForest(windows, w, FreshInfo(parent, pos, size, state));
      windows := Inserted(windows, w, FreshInfo(parent, pos, size, state));
      next := next + 1;
      if needsTitlebar {
        GenerateDecorationsFor(w, pos, size);
      }
    }

    method GenerateDecorationsFor(w: Window, pos: Point, size: Size)
      requires Valid() && w in windows
      modifies this
      ensures Valid() && next == old(next) + 1
      ensures windows == Decorated(old(windows), w, Window(old(next)), pos, size)
    {
      var t := Window(next);
      DecoratedForest(windows, w, t, pos, size);
      windows := Inserted(windows, t, TitlebarInfo(w, pos, size));
      windows := windows[w := windows[w].(titlebar := Some(t))];
      next := next + 1;
    }

    /** `forget` / the erasure at the end of `remove_surface`. */
    method Remove(w: Window)
      requires Valid() && w in windows
      modifies this`windows
      ensures Valid() && windows == Removed(old(windows), w) && windows.Keys == old(windows).Keys - {w}
    {
      RemoveKeepsForest(windows, w);
      if windows[w].parent.Some? && windows[w].parent.value in windows {
        var p := windows[w].parent.value;
        var siblings := EraseFirst(windows[p].children, w);
        windows := windows[p := windows[p].(children := siblings)];
      }
      windows := windows - {w};
    }

    /** `remove_surface`: the window, and its titlebar with it. A window not in the map is an error. */
    method RemoveSurface(w: Window) returns (found: bool)
      requires Valid()
      modifies this`windows
      ensures Valid() && found == (w in old(windows))
      ensures !found ==> windows == old(windows)
      ensures found ==> windows == RemovedWithTitlebar(old(windows), w)
      ensures found ==> windows.Keys == old(windows).Keys - {w} - TitlebarOf(old(windows)[w])
    {
      if w !in windows {
        return false;
      }
      var titlebar := windows[w].titlebar;
      Remove(w);
      if titlebar.Some? && titlebar.value in windows {
        Remove(titlebar.value);
      }
      found := true;
    }

    method MoveTree(root: Window, movement: Displacement)
      requires Valid() && root in windows
      modifies this`windows
      ensures Valid()
      ensures windows == Shifted(old(windows), Subtree(old(windows), root), movement)
      decreases next - root.serial
    {
      ghost var m := windows;
      var kids := windows[root].children;
      MoveBegins(m, root, movement);
      windows := windows[root := windows[root].(pos := Plus(windows[root].pos, movement))];
      for i := 0 to |kids|
        invariant Moving(m, windows, root, i, movement)
      {
        MoveGoesOn(m, windows, root, i, movement);
        MoveTree(kids[i], movement);
      }
      MoveEnds(m, windows, root, movement);
    }

    /** The recursive lambda of `raise_tree`: inserts every window below `w`. */
    method AddChildren(w: Window, surfaces: set<Window>) returns (all: set<Window>)
      requires Valid() && w in windows
      ensures all == surfaces + (Subtree(windows, w) - {w})
      decreases next - w.serial, 0
    {
      var kids := windows[w].children;
      all := surfaces + (set c | c in kids);
      var i := 0;
      while i < |kids|
        invariant 0 <= i <= |kids|
        invariant all == surfaces + (set c | c in kids) + Reached(windows, w, i)
      {
        ReachedNext(windows, w, i);
        ChildUnder(windows, w, kids[i]);
        var more := AddChildren(kids[i], all);
        assert kids[i] in all;
        all := more;
        i := i + 1;
      }
      ReachedAll(windows, w);
      forall c | c in kids
        ensures c in Reached(windows, w, |kids|)
      {
        var j :| 0 <= j < |kids| && kids[j] == c;
        ChildUnder(windows, w, c);
      }
    }

    /** The set `raise_tree` hands to the focus controller: the root and everything below it. */
    method RaiseTree(root: Window) returns (surfaces: set<Window>)
      requires Valid() && root in windows
      ensures surfaces == Subtree(windows, root)
    {
      surfaces := AddChildren(root, {root});
      assert Under(windows, root, root);
    }

    method SetState(w: Window, value: WindowState, fit: Rectangle -> Rectangle) returns (state: WindowState)
      requires Valid() && w in windows
      modifies this`windows
      ensures Valid()
      ensures windows == AfterSetState(old(windows), w, value, displayArea, fit)
      ensures state == windows[w].state
    {
      if value == Unknown {
        return windows[w].state;
      }
      Remember(w);
      if windows[w].state == value {
        return value;
      }
      if value == Hidden || value == Minimized {
        HideWindow(w, value);
      } else {
        ShowAt(w, value, Destination(windows[w], value, displayArea, fit));
      }
      state := value;
    }

    method Remember(w: Window)
      requires Valid() && w in windows
      modifies this`windows
      ensures Valid() && windows == old(windows)[w := Remembered(old(windows)[w])]
    {
      RememberShape(windows, w);
      if windows[w].state == Restored {
        windows := windows[w := windows[w].(restoreRect := Rectangle(windows[w].pos, windows[w].size))];
      }
    }

    method HideWindow(w: Window, value: WindowState)
      requires Valid() && w in windows
      modifies this`windows
      ensures Valid() && windows == Hide(old(windows), w, value) && w in windows && windows[w].state == value
    {
      HideShape(windows, w, value);
      windows := Hide(windows, w, value);
    }

    method ShowAt(w: Window, value: WindowState, to: Rectangle)
      requires Valid() && w in windows
      modifies this`windows
      ensures Valid() && windows == Show(old(windows), w, value, to) && w in windows && windows[w].state == value
    {
      var movement := Minus(to.topLeft, windows[w].pos);
      ResizeShape(windows, w, value, to.size);
      windows := Resized(windows, w, value, to.size);
      MoveTree(w, movement);
    }
  }

  /** Erases the first match, as the loops over siblings do. */
  method EraseFirst(ws: seq<Window>, w: Window) returns (r: seq<Window>)
    ensures r == Without(ws, w)
  {
    for i := 0 to |ws|
      invariant w !in ws[..i]
    {
      if ws[i] == w {
        WithoutAt(ws, w, i);
        return ws[..i] + ws[i + 1..];
      }
    }
    WithoutAbsent(ws, w);
    r := ws;
  }
}
