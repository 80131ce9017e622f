/** What sequences of window-manager requests add up to. */
module WindowRuns {
  import opened Basics
  import opened Geometry
  import opened WindowTree
  import opened WindowManagement
  import opened WindowJourney

  /** Adding a window (with or without a titlebar), removing one, and asking for a window state. */
  datatype Request =
    | Add(info: Info, decorate: bool)
    | Remove(w: Window)
    | Change(who: Window, value: WindowState, area: Rectangle, fit: Rectangle -> Rectangle)

  /** A map of windows and the next serial. */
  datatype Desk = Desk(windows: Windows, next: nat)

  const EMPTY_DESK := Desk(map[], 0)

  /** A client can name as parent only a window that exists or existed. */
  predicate Sensible(d: Desk, r: Request)
  {
    match r
    case Add(info, _) =>
      && info == FreshInfo(info.parent, info.pos, info.size, info.state)
      && (info.parent.Some? ==> info.parent.value.serial < d.next)
    case Remove(w) => w in d.windows
    case Change(w, _, _, _) => w in d.windows
  }

  function AddedPlain(d: Desk, info: Info): Desk
  {
    Desk(Inserted(d.windows, Window(d.next), info), d.next + 1)
  }

  function WithTitle(d: Desk, w: Window, pos: Point, size: Size): Desk
    requires w in d.windows
  {
    Desk(Decorated(d.windows, w, Window(d.next), pos, size), d.next + 1)
  }

  function Added(d: Desk, info: Info, decorate: bool): Desk
  {
    if decorate then WithTitle(AddedPlain(d, info), Window(d.next), info.pos, info.size) else AddedPlain(d, info)
  }

  ghost function Serve(d: Desk, r: Request): Desk
    requires Sensible(d, r)
  {
    match r
    case Add(info, decorate) => Added(d, info, decorate)
    case Remove(w) => d.(windows := RemovedWithTitlebar(d.windows, w))
    case Change(w, value, area, fit) => d.(windows := AfterSetState(d.windows, w, value, area, fit))
  }

  ghost predicate Served(d: Desk, requests: seq<Request>, e: Desk)
    decreases |requests|
  {
    if requests == [] then d == e
    else Sensible(d, requests[0]) && Served(Serve(d, requests[0]), requests[1..], e)
  }

  // ------------------------------------------------------------------------- always a forest

  /** The window's titlebar has been handed out; while it lives it is the window's child and plain. */
  ghost predicate TitledWindow(m: Windows, w: Window, next: nat)
    requires w in m
  {
    m[w].titlebar.Some? ==>
      && m[w].titlebar.value.serial < next && TitlebarIsChild(m, w)
      && (m[w].titlebar.value in m ==> m[m[w].titlebar.value].titlebar.None?)
  }

  ghost predicate Titled(m: Windows, next: nat)
  {
    forall w :: w in m ==> TitledWindow(m, w, next)
  }

  ghost predicate IsTitlebar(m: Windows, t: Window)
  {
    exists w :: w in m && m[w].titlebar == Some(t)
  }

  ghost predicate Tidy(d: Desk)
  {
    Forest(d.windows) && Older(d.windows, d.next) && Titled(d.windows, d.next)
  }

  lemma InsertTitled(m: Windows, w: Window, info: Info)
    requires Titled(m, w.serial) && Older(m, w.serial) && info.titlebar.None?
    requires info.parent.Some? ==> info.parent.value.serial < w.serial
    ensures Titled(Inserted(m, w, info), w.serial + 1) && !IsTitlebar(Inserted(m, w, info), w)
  {
    var n := Inserted(m, w, info);
    forall x | x in n
      ensures TitledWindow(n, x, w.serial + 1) && n[x].titlebar != Some(w)
    {
      if x != w {
        assert n[x].titlebar == m[x].titlebar;
        assert TitledWindow(m, x, w.serial);
      }
    }
  }

  lemma DecorateTitled(m: Windows, w: Window, t: Window, pos: Point, size: Size)
    requires Titled(m, t.serial) && Older(m, t.serial) && w in m && !IsTitlebar(m, w)
    ensures Titled(Decorated(m, w, t, pos, size), t.serial + 1)
  {
    var i := Inserted(m, t, TitlebarInfo(w, pos, size));
    InsertTitled(m, t, TitlebarInfo(w, pos, size));
    var n := Decorated(m, w, t, pos, size);
    forall x | x in n
      ensures TitledWindow(n, x, t.serial + 1)
    {
      if x != w && x != t {
        assert n[x].titlebar == m[x].titlebar && n[x].titlebar != Some(w);
        assert TitledWindow(i, x, t.serial + 1);
      }
    }
  }

  lemma RemoveTitled(m: Windows, w: Window, next: nat)
    requires Titled(m, next) && w in m
    ensures Titled(Removed(m, w), next)
  {
    var n := Removed(m, w);
    forall x | x in n
      ensures TitledWindow(n, x, next)
    {
      assert n[x].titlebar == m[x].titlebar && TitledWindow(m, x, next);
    }
  }

  lemma AddPlainTidy(d: Desk, info: Info)
    requires Tidy(d) && Sensible(d, Add(info, false))
    ensures Tidy(AddedPlain(d, info)) && !IsTitlebar(AddedPlain(d, info).windows, Window(d.next))
  {
    InsertKeepsForest(d.windows, Window(d.next), info);
    InsertTitled(d.windows, Window(d.next), info);
  }

  lemma TitleTidy(d: Desk, w: Window, pos: Point, size: Size)
    requires Tidy(d) && w in d.windows && !IsTitlebar(d.windows, w)
    ensures Tidy(WithTitle(d, w, pos, size))
  {
    DecoratedForest(d.windows, w, Window(d.next), pos, size);
    DecorateTitled(d.windows, w, Window(d.next), pos, size);
  }

  lemma AddKeepsTidy(d: Desk, info: Info, decorate: bool)
    requires Tidy(d) && Sensible(d, Add(info, decorate))
    ensures decorate ==> Tidy(Added(d, info, true))
    ensures !decorate ==> Tidy(Added(d, info, false))
  {
    AddPlainTidy(d, info);
    if decorate {
      TitleTidy(AddedPlain(d, info), Window(d.next), info.pos, info.size);
    }
  }

  lemma RemoveOneKeepsTidy(d: Desk, w: Window)
    requires Tidy(d) && w in d.windows
    ensures Tidy(d.(windows := Removed(d.windows, w)))
  {
    RemoveKeepsForest(d.windows, w);
    RemoveTitled(d.windows, w, d.next);
  }

  lemma RemoveKeepsTidy(d: Desk, w: Window)
    requires Tidy(d) && w in d.windows
    ensures Tidy(d.(windows := RemovedWithTitlebar(d.windows, w)))
  {
    RemoveOneKeepsTidy(d, w);
    var e := d.(windows := Removed(d.windows, w));
    var t := d.windows[w].titlebar;
    if t.Some? && t.value in e.windows {
      RemoveOneKeepsTidy(e, t.value);
    }
  }

  ghost predicate SameTitlebars(m: Windows, n: Windows)
  {
    SameShape(m, n) && forall x :: x in m ==> m[x].titlebar == n[x].titlebar
  }

  lemma HideSameTitlebars(m: Windows, w: Window, value: WindowState)
    requires w in m
    ensures SameTitlebars(m, Hide(m, w, value))
  {
  }

  lemma ShowSameTitlebars(m: Windows, w: Window, value: WindowState, to: Rectangle)
    requires w in m
    ensures SameTitlebars(m, Show(m, w, value, to))
  {
    assert SameTitlebars(m, Resized(m, w, value, to.size));
  }

  lemma ChangeSameTitlebars(m: Windows, w: Window, value: WindowState, area: Rectangle, fit: Rectangle -> Rectangle)
    requires w in m
    ensures SameTitlebars(m, AfterSetState(m, w, value, area, fit))
  {
    var n := m[w := Remembered(m[w])];
    assert SameTitlebars(m, n);
    HideSameTitlebars(n, w, value);
    ShowSameTitlebars(n, w, value, Destination(n[w], value, area, fit));
  }

  lemma SameTitlebarsTidy(d: Desk, n: Windows)
    requires Tidy(d) && SameTitlebars(d.windows, n)
    ensures Tidy(d.(windows := n))
  {
    SameForest(d.windows, n);
    forall x | x in n
      ensures TitledWindow(n, x, d.next)
    {
      assert TitledWindow(d.windows, x, d.next);
    }
  }

  lemma ServeKeepsTidy(d: Desk, r: Request)
    requires Tidy(d) && Sensible(d, r)
    ensures Tidy(Serve(d, r))
  {
    match r {
      case Add(info, decorate) => AddKeepsTidy(d, info, decorate);
      case Remove(w) => RemoveKeepsTidy(d, w);
      case Change(w, value, area, fit) =>
        ChangeSameTitlebars(d.windows, w, value, area, fit);
        SameTitlebarsTidy(d, AfterSetState(d.windows, w, value, area, fit));
    }
  }

  /** The forest invariant holds after any sequence of additions, removals and state requests. */
  lemma {:induction false} AlwaysAForest(d: Desk, requests: seq<Request>, e: Desk)
    requires Tidy(d) && Served(d, requests, e)
    ensures Tidy(e)
    decreases |requests|
  {
    if requests != [] {
      ServeKeepsTidy(d, requests[0]);
      AlwaysAForest(Serve(d, requests[0]), requests[1..], e);
    }
  }

  /** The round trip, on every desk that requests can lead to: state requests to one window that start and end
      restored put it and everything below it back in place and leave all other windows alone. */
  lemma RoundTripOnAnyDesk(requests: seq<Request>, d: Desk, w: Window, values: seq<WindowState>, area: Rectangle, fit: Rectangle -> Rectangle)
    requires Served(EMPTY_DESK, requests, d) && w in d.windows && d.windows[w].state == Restored
    requires AfterRequests(d.windows, w, values, area, fit)[w].state == Restored
    ensures var m, n := d.windows, AfterRequests(d.windows, w, values, area, fit);
      && n.Keys == m.Keys && n[w].size == m[w].size && (TitlebarFits(m, w) ==> TitlebarFits(n, w))
      && (forall x :: x in m ==> n[x].pos == m[x].pos)
      && (forall x :: x in m && !Under(m, w, x) ==> n[x] == m[x])
  {
    AlwaysAForest(EMPTY_DESK, requests, d);
    assert TitledWindow(d.windows, w, d.next);
    RoundTrip(d.windows, w, values, area, fit);
  }

  // ------------------------------------------------------------------------- titlebars fit

  /** Every restored window has a titlebar of its width, if it has one. */
  ghost predicate Neat(m: Windows)
  {
    forall w :: w in m && m[w].state == Restored ==> TitlebarFits(m, w)
  }

  /** The request shows the window in a state it is not in. */
  predicate Shows(d: Desk, r: Request)
    requires Sensible(d, r)
  {
    r.Change? && Known(r.value) && r.value != Hidden && r.value != Minimized && d.windows[r.who].state != r.value
  }

  /** If the request shows a titlebar in a new state, it gets the size every restored window it belongs to
      needs. */
  ghost predicate Harmless(d: Desk, r: Request)
    requires Sensible(d, r)
  {
    Shows(d, r) ==>
      forall w :: w in d.windows && d.windows[w].titlebar == Some(r.who) && d.windows[w].state == Restored ==>
        Destination(Remembered(d.windows[r.who]), r.value, r.area, r.fit).size == TitlebarSize(d.windows[w].size)
  }

  lemma InsertNeat(m: Windows, w: Window, info: Info)
    requires Neat(m) && Titled(m, w.serial) && Older(m, w.serial) && info.titlebar.None?
    ensures Neat(Inserted(m, w, info))
  {
    var n := Inserted(m, w, info);
    forall x | x in n && n[x].state == Restored
      ensures TitlebarFits(n, x)
    {
      if x != w {
        assert TitlebarFits(m, x) && TitledWindow(m, x, w.serial);
      }
    }
  }

  /** A titlebar made for a window of the right size fits it, and disturbs no other. */
  lemma DecorateNeat(m: Windows, w: Window, t: Window, info: Info)
    requires Neat(m) && Titled(m, t.serial) && Older(m, t.serial) && w in m && m[w].size == info.size
    ensures Neat(Decorated(m, w, t, info.pos, info.size))
  {
    var i, n := Inserted(m, t, TitlebarInfo(w, info.pos, info.size)), Decorated(m, w, t, info.pos, info.size);
    InsertNeat(m, t, TitlebarInfo(w, info.pos, info.size));
    forall x | x in n && n[x].state == Restored
      ensures TitlebarFits(n, x)
    {
      if x != w {
        assert TitlebarFits(i, x);
      }
    }
  }

  lemma AddKeepsNeat(d: Desk, info: Info, decorate: bool)
    requires Tidy(d) && Neat(d.windows) && Sensible(d, Add(info, decorate))
    ensures Neat(Added(d, info, decorate).windows)
  {
    var w := Window(d.next);
    InsertNeat(d.windows, w, info);
    if decorate {
      InsertKeepsForest(d.windows, w, info);
      InsertTitled(d.windows, w, info);
      DecorateNeat(Inserted(d.windows, w, info), w, Window(d.next + 1), info);
    }
  }

  lemma RemoveOneNeat(m: Windows, w: Window)
    requires Neat(m) && w in m
    ensures Neat(Removed(m, w))
  {
    var n := Removed(m, w);
    forall x | x in n && n[x].state == Restored
      ensures TitlebarFits(n, x)
    {
      assert TitlebarFits(m, x);
    }
  }

  lemma RemoveKeepsNeat(m: Windows, w: Window)
    requires Neat(m) && w in m
    ensures Neat(RemovedWithTitlebar(m, w))
  {
    RemoveOneNeat(m, w);
    var t := m[w].titlebar;
    if t.Some? && t.value in Removed(m, w) {
      RemoveOneNeat(Removed(m, w), t.value);
    }
  }

  /** Only `w` and its titlebar have changed size, only `w` has changed state, and if `w` is restored its
      titlebar fits. */
  ghost predicate Refitted(m: Windows, n: Windows, w: Window)
  {
    && w in m && SameTitlebars(m, n)
    && (forall x :: x in m && x != w ==> n[x].state == m[x].state && (m[w].titlebar != Some(x) ==> n[x].size == m[x].size))
    && (n[w].state == Restored ==> TitlebarFits(n, w))
  }

  lemma RefittedNeat(m: Windows, n: Windows, w: Window, next: nat)
    requires Titled(m, next) && Neat(m) && Refitted(m, n, w) && !IsTitlebar(m, w)
    ensures Neat(n)
  {
    forall x | x in n && n[x].state == Restored && x != w
      ensures TitlebarFits(n, x)
    {
      assert TitlebarFits(m, x) && TitledWindow(m, x, next) && TitledWindow(m, w, next);
      assert m[x].titlebar != Some(w);
    }
  }

  lemma HideRefits(m: Windows, w: Window, value: WindowState)
    requires w in m && value != Restored
    ensures Refitted(m, Hide(m, w, value), w)
  {
    HideSameTitlebars(m, w, value);
    HideInPlace(m, w, value);
  }

  lemma ShowRefits(m: Windows, w: Window, value: WindowState, to: Rectangle)
    requires w in m && NotOwnTitlebar(m, w)
    ensures Refitted(m, Show(m, w, value, to), w)
  {
    ShowSameTitlebars(m, w, value, to);
    ResizeInPlace(m, w, value, to.size);
    if value == Restored {
      ShowFits(m, w, to);
    }
  }

  lemma ChangeKeepsNeat(d: Desk, w: Window, value: WindowState, area: Rectangle, fit: Rectangle -> Rectangle)
    requires Tidy(d) && Neat(d.windows) && w in d.windows && !IsTitlebar(d.windows, w)
    ensures Neat(AfterSetState(d.windows, w, value, area, fit))
  {
    var m := d.windows;
    if Known(value) {
      var n := m[w := Remembered(m[w])];
      assert SameTitlebars(m, n);
      SameTitlebarsTidy(d, n);
      assert Neat(n) by { RememberNeat(m, w); }
      assert !IsTitlebar(n, w);
      if n[w].state != value {
        if value == Hidden || value == Minimized {
          HideRefits(n, w, value);
          RefittedNeat(n, Hide(n, w, value), w, d.next);
        } else {
          var to := Destination(n[w], value, area, fit);
          ShowRefits(n, w, value, to);
          RefittedNeat(n, Show(n, w, value, to), w, d.next);
        }
      }
    }
  }

  lemma RememberNeat(m: Windows, w: Window)
    requires Neat(m) && w in m
    ensures Neat(m[w := Remembered(m[w])])
  {
    var n := m[w := Remembered(m[w])];
    forall x | x in n && n[x].state == Restored
      ensures TitlebarFits(n, x)
    {
      assert TitlebarFits(m, x);
    }
  }

  // ------------------------------------------------------------------------- titlebars asked to change

  /** Only the window itself has changed size, to `size`. */
  ghost predicate OnlyResized(m: Windows, n: Windows, t: Window, size: Size)
  {
    && t in m && SameTitlebars(m, n) && n[t].size == size
    && (forall x :: x in m && x != t ==> n[x].size == m[x].size && n[x].state == m[x].state)
  }

  lemma ShowOnlyResizes(m: Windows, t: Window, value: WindowState, to: Rectangle)
    requires t in m && m[t].titlebar.None?
    ensures OnlyResized(m, Show(m, t, value, to), t, to.size)
  {
    ShowSameTitlebars(m, t, value, to);
    ResizeInPlace(m, t, value, to.size);
  }

  lemma HideOnlyResizes(m: Windows, t: Window, value: WindowState)
    requires t in m && m[t].titlebar.None?
    ensures OnlyResized(m, Hide(m, t, value), t, m[t].size)
  {
    HideSameTitlebars(m, t, value);
    HideInPlace(m, t, value);
  }

  /** The size a request leaves a plain window with. */
  ghost function SizeAfter(d: Desk, r: Request): Size
    requires r.Change? && Sensible(d, r)
  {
    if Shows(d, r) then Destination(Remembered(d.windows[r.who]), r.value, r.area, r.fit).size
    else d.windows[r.who].size
  }

  lemma ChangeOnlyResizes(d: Desk, r: Request)
    requires r.Change? && Sensible(d, r) && d.windows[r.who].titlebar.None?
    ensures OnlyResized(d.windows, Serve(d, r).windows, r.who, SizeAfter(d, r))
  {
    var m, t := d.windows, r.who;
    if Known(r.value) {
      var n := m[t := Remembered(m[t])];
      assert OnlyResized(m, n, t, m[t].size);
      if n[t].state != r.value {
        if r.value == Hidden || r.value == Minimized {
          HideOnlyResizes(n, t, r.value);
        } else {
          ShowOnlyResizes(n, t, r.value, Destination(n[t], r.value, r.area, r.fit));
        }
      }
    }
  }

  /** A titlebar that changed size fits a window if and only if the new size is the window's. */
  lemma TitlebarFitsIff(d: Desk, w: Window, r: Request)
    requires Tidy(d) && w in d.windows && r.Change? && Sensible(d, r) && d.windows[w].titlebar == Some(r.who)
    ensures w in Serve(d, r).windows && Serve(d, r).windows[w].state == d.windows[w].state
    ensures TitlebarFits(Serve(d, r).windows, w) <==> SizeAfter(d, r) == TitlebarSize(d.windows[w].size)
  {
    assert TitledWindow(d.windows, w, d.next);
    ChangeOnlyResizes(d, r);
    assert !ChildOf(d.windows, w, w);
  }

  lemma TitlebarElsewhere(d: Desk, w: Window, r: Request)
    requires Tidy(d) && w in d.windows && r.Change? && Sensible(d, r) && IsTitlebar(d.windows, r.who)
    requires d.windows[w].titlebar != Some(r.who) && TitlebarFits(d.windows, w)
    ensures w in Serve(d, r).windows && TitlebarFits(Serve(d, r).windows, w)
  {
    var x :| x in d.windows && d.windows[x].titlebar == Some(r.who);
    assert TitledWindow(d.windows, x, d.next);
    ChangeOnlyResizes(d, r);
  }

  /** A change asked of a titlebar keeps the desk neat if and only if it is harmless. */
  lemma TitlebarChangeIff(d: Desk, r: Request)
    requires Tidy(d) && Neat(d.windows) && r.Change? && Sensible(d, r) && IsTitlebar(d.windows, r.who)
    ensures Neat(Serve(d, r).windows) <==> Harmless(d, r)
  {
    var m, n := d.windows, Serve(d, r).windows;
    ChangeSameTitlebars(m, r.who, r.value, r.area, r.fit);
    forall w | w in m && m[w].titlebar == Some(r.who)
      ensures n[w].state == m[w].state && (TitlebarFits(n, w) <==> SizeAfter(d, r) == TitlebarSize(m[w].size))
    {
      TitlebarFitsIff(d, w, r);
    }
    if Harmless(d, r) {
      forall w | w in n && n[w].state == Restored
        ensures TitlebarFits(n, w)
      {
        HarmlessFits(d, w, r);
      }
    } else {
      var w :| w in m && m[w].titlebar == Some(r.who) && m[w].state == Restored && SizeAfter(d, r) != TitlebarSize(m[w].size);
      assert !TitlebarFits(n, w);
    }
  }

  lemma HarmlessFits(d: Desk, w: Window, r: Request)
    requires Tidy(d) && Neat(d.windows) && r.Change? && Sensible(d, r) && IsTitlebar(d.windows, r.who) && Harmless(d, r)
    requires w in d.windows && w in Serve(d, r).windows && Serve(d, r).windows[w].state == Restored
    ensures TitlebarFits(Serve(d, r).windows, w)
  {
    var m := d.windows;
    if m[w].titlebar == Some(r.who) {
      TitlebarFitsIff(d, w, r);
      assert TitlebarFits(m, w);
    } else if w == r.who {
      var x :| x in m && m[x].titlebar == Some(r.who);
      assert TitledWindow(m, x, d.next);
      ChangeSameTitlebars(m, r.who, r.value, r.area, r.fit);
    } else {
      var x :| x in m && m[x].titlebar == Some(r.who);
      assert TitledWindow(m, x, d.next);
      ChangeOnlyResizes(d, r);
      assert m[w].state == Restored;
      TitlebarElsewhere(d, w, r);
    }
  }

  // ------------------------------------------------------------------------- all requests

  /** Exactly when a request keeps every restored window's titlebar fitting. */
  lemma NeatIff(d: Desk, r: Request)
    requires Tidy(d) && Neat(d.windows) && Sensible(d, r)
    ensures Neat(Serve(d, r).windows) <==> Harmless(d, r)
  {
    match r {
      case Add(info, decorate) => AddKeepsNeat(d, info, decorate);
      case Remove(w) => RemoveKeepsNeat(d.windows, w);
      case Change(w, value, area, fit) =>
        if IsTitlebar(d.windows, w) {
          TitlebarChangeIff(d, r);
        } else {
          ChangeKeepsNeat(d, w, value, area, fit);
        }
    }
  }

  /** Every request is harmless on the desk it meets. */
  ghost predicate AllHarmless(d: Desk, requests: seq<Request>)
    decreases |requests|
  {
    requests == []
    || (Sensible(d, requests[0]) && Harmless(d, requests[0]) && AllHarmless(Serve(d, requests[0]), requests[1..]))
  }

  /** Every desk on the way is neat. */
  ghost predicate NeatAllTheWay(d: Desk, requests: seq<Request>)
    decreases |requests|
  {
    && Neat(d.windows)
    && (requests == [] || (Sensible(d, requests[0]) && NeatAllTheWay(Serve(d, requests[0]), requests[1..])))
  }

  lemma {:induction false} NeatRunIff(d: Desk, requests: seq<Request>, e: Desk)
    requires Tidy(d) && Neat(d.windows) && Served(d, requests, e)
    ensures NeatAllTheWay(d, requests) <==> AllHarmless(d, requests)
    ensures AllHarmless(d, requests) ==> Neat(e.windows)
    decreases |requests|
  {
    if requests != [] {
      var next := Serve(d, requests[0]);
      NeatIff(d, requests[0]);
      if Harmless(d, requests[0]) {
        ServeKeepsTidy(d, requests[0]);
        NeatRunIff(next, requests[1..], e);
      } else {
        assert !NeatAllTheWay(next, requests[1..]);
      }
    }
  }

  /** Whatever is added, removed, maximised or restored, from an empty desk on: the titlebars of all restored
      windows fit on every desk on the way if and only if every request was harmless. */
  lemma TitlebarsAlwaysFitIff(requests: seq<Request>, d: Desk)
    requires Served(EMPTY_DESK, requests, d)
    ensures NeatAllTheWay(EMPTY_DESK, requests) <==> AllHarmless(EMPTY_DESK, requests)
    ensures AllHarmless(EMPTY_DESK, requests) ==> Neat(d.windows)
  {
    NeatRunIff(EMPTY_DESK, requests, d);
  }

  /** A request to any window but a titlebar is harmless. */
  lemma PoliteIsHarmless(d: Desk, r: Request)
    requires Sensible(d, r) && (r.Change? ==> !IsTitlebar(d.windows, r.who))
    ensures Harmless(d, r)
  {
  }

  lemma OneDecoratedWindow(info: Info)
    requires info == FreshInfo(None, info.pos, info.size, info.state)
    ensures Sensible(EMPTY_DESK, Add(info, true))
    ensures var d := Serve(EMPTY_DESK, Add(info, true));
      && Tidy(d) && Neat(d.windows) && Window(0) in d.windows && Window(1) in d.windows
      && d.windows[Window(0)] == info.(children := [Window(1)], titlebar := Some(Window(1)))
      && d.windows[Window(1)] == TitlebarInfo(Window(0), info.pos, info.size)
  {
    AddKeepsTidy(EMPTY_DESK, info, true);
    AddKeepsNeat(EMPTY_DESK, info, true);
    DecoratedWindow(map[], Window(0), Window(1), info);
  }

  lemma TwoServed(d: Desk, first: Request, second: Request)
    requires Sensible(d, first) && Sensible(Serve(d, first), second)
    ensures Served(d, [first, second], Serve(Serve(d, first), second))
  {
    var d1 := Serve(d, first);
    assert [first, second][1..] == [second] && [second][1..] == [];
    assert Served(d1, [second], Serve(d1, second));
  }

  /** A misfit from an empty desk: a decorated window is added, then its titlebar is asked to maximise. */
  lemma TitlebarCanMisfit(fit: Rectangle -> Rectangle) returns (requests: seq<Request>, d: Desk)
    ensures Served(EMPTY_DESK, requests, d) && |requests| == 2 && !Neat(d.windows)
  {
    var info := FreshInfo(None, Point(0, 0), Size(100, 100), Restored);
    OneDecoratedWindow(info);
    var add := Add(info, true);
    var d1 := Serve(EMPTY_DESK, add);
    var change := Change(Window(1), Maximized, Rectangle(Point(0, 0), Size(800, 600)), fit);
    assert SizeAfter(d1, change) != TitlebarSize(d1.windows[Window(0)].size);
    NeatIff(d1, change);
    TwoServed(EMPTY_DESK, add, change);
    requests, d := [add, change], Serve(d1, change);
  }
}
