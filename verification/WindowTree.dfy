/**
  The windows of the canonical window manager and the forest they form: every window remembers its
  parent (weakly: the link is dead once the parent is gone) and lists its children.
 */
module WindowTree {
  import opened Basics
  import opened Geometry

  /** A window; serials are handed out in order of creation and never reused. */
  datatype Window = Window(serial: nat)

  datatype WindowState =
    Unknown | Restored | Minimized | Maximized | VertMaximized | Fullscreen | HorizMaximized | Hidden

  datatype Info = Info(
    parent: Option<Window>,
    children: seq<Window>,
    pos: Point,
    size: Size,
    visible: bool,
    state: WindowState,
    restoreRect: Rectangle,
    titlebar: Option<Window>)

  type Windows = map<Window, Info>

  ghost predicate NoDuplicates(ws: seq<Window>)
  {
    forall i, j :: 0 <= i < j < |ws| ==> ws[i] != ws[j]
  }

  ghost predicate ChildOf(m: Windows, c: Window, p: Window)
  {
    c in m && m[c].parent == Some(p)
  }

  /** Children lists and live parent links agree, and parents are older than their children. */
  ghost predicate Forest(m: Windows)
  {
    && (forall c, p :: ChildOf(m, c, p) ==> p.serial < c.serial)
    && (forall c, p :: ChildOf(m, c, p) && p in m ==> c in m[p].children)
    && (forall c, p :: p in m && c in m[p].children ==> ChildOf(m, c, p))
    && (forall p :: p in m ==> NoDuplicates(m[p].children))
  }

  ghost predicate Older(m: Windows, next: nat)
  {
    forall w :: w in m ==> w.serial < next
  }

  /** `x` is `root` or has it among its live ancestors: the definition by parent links. */
  ghost predicate Under(m: Windows, root: Window, x: Window)
    decreases x.serial
  {
    x in m && (x == root || match m[x].parent
                            case Some(p) => p.serial < x.serial && Under(m, root, p)
                            case None => false)
  }

  ghost function Subtree(m: Windows, root: Window): set<Window>
  {
    set x | x in m && Under(m, root, x)
  }

  // ------------------------------------------------------------------------- shape of subtrees

  lemma {:induction false} UnderIsYounger(m: Windows, root: Window, x: Window)
    requires Under(m, root, x)
    ensures root.serial <= x.serial && root in m
    decreases x.serial
  {
    if x != root {
      UnderIsYounger(m, root, m[x].parent.value);
    }
  }

  lemma {:induction false} UnderTransitive(m: Windows, a: Window, b: Window, x: Window)
    requires Under(m, a, b) && Under(m, b, x)
    ensures Under(m, a, x)
    decreases x.serial
  {
    if x != b {
      UnderTransitive(m, a, b, m[x].parent.value);
    }
  }

  /** Below a root, every window is below exactly one of its children. */
  lemma {:induction false} ThroughAChild(m: Windows, root: Window, x: Window) returns (c: Window)
    requires Forest(m) && Under(m, root, x) && x != root
    ensures c in m && root in m && c in m[root].children && Under(m, c, x)
    decreases x.serial
  {
    var p := m[x].parent.value;
    UnderIsYounger(m, root, p);
    if p == root {
      c := x;
      assert ChildOf(m, x, root);
    } else {
      c := ThroughAChild(m, root, p);
    }
  }

  lemma {:induction false} SiblingsApart(m: Windows, root: Window, a: Window, b: Window, x: Window)
    requires Forest(m) && ChildOf(m, a, root) && ChildOf(m, b, root) && a != b
    requires Under(m, a, x)
    ensures !Under(m, b, x)
    decreases x.serial
  {
    if x == a {
      if Under(m, b, a) {
        UnderIsYounger(m, b, root);
        assert false;
      }
    } else if x == b {
      UnderIsYounger(m, a, root);
      assert false;
    } else {
      SiblingsApart(m, root, a, b, m[x].parent.value);
    }
  }

  lemma ChildUnder(m: Windows, root: Window, c: Window)
    requires Forest(m) && root in m && c in m[root].children
    ensures c in m && Under(m, root, c) && root.serial < c.serial && ChildOf(m, c, root)
  {
    assert ChildOf(m, c, root);
    assert Under(m, root, root);
  }

  /** The part of a subtree reached through the first `k` children. */
  ghost function Reached(m: Windows, root: Window, k: nat): set<Window>
    requires root in m && k <= |m[root].children|
  {
    set x | x in m && exists j :: 0 <= j < k && Under(m, m[root].children[j], x)
  }

  lemma ReachedAll(m: Windows, root: Window)
    requires Forest(m) && root in m
    ensures Subtree(m, root) == {root} + Reached(m, root, |m[root].children|)
    ensures root !in Reached(m, root, |m[root].children|)
  {
    var kids := m[root].children;
    forall x | x in Subtree(m, root)
      ensures x in {root} + Reached(m, root, |kids|)
    {
      if x != root {
        var c := ThroughAChild(m, root, x);
        var j :| 0 <= j < |kids| && kids[j] == c;
      }
    }
    forall x | x in Reached(m, root, |kids|)
      ensures x in Subtree(m, root) && x != root
    {
      var j :| 0 <= j < |kids| && Under(m, kids[j], x);
      ChildUnder(m, root, kids[j]);
      UnderTransitive(m, root, kids[j], x);
      UnderIsYounger(m, kids[j], x);
    }
    assert Under(m, root, root);
  }

  lemma ReachedNext(m: Windows, root: Window, k: nat)
    requires Forest(m) && root in m && k < |m[root].children|
    ensures Reached(m, root, k + 1) == Reached(m, root, k) + Subtree(m, m[root].children[k])
    ensures Reached(m, root, k) !! Subtree(m, m[root].children[k])
    ensures root !in Subtree(m, m[root].children[k])
  {
    var kids := m[root].children;
    forall x | x in Reached(m, root, k)
      ensures x !in Subtree(m, kids[k])
    {
      var j :| 0 <= j < k && Under(m, kids[j], x);
      ChildUnder(m, root, kids[j]);
      ChildUnder(m, root, kids[k]);
      SiblingsApart(m, root, kids[j], kids[k], x);
    }
    ChildUnder(m, root, kids[k]);
    if root in Subtree(m, kids[k]) {
      UnderIsYounger(m, kids[k], root);
      assert false;
    }
  }

  // ------------------------------------------------------------------------- moving

  /** Same windows, same links. */
  ghost predicate SameShape(m: Windows, n: Windows)
  {
    && m.Keys == n.Keys
    && forall w :: w in m ==> m[w].parent == n[w].parent && m[w].children == n[w].children
  }

  lemma {:induction false} SameUnder(m: Windows, n: Windows, root: Window, x: Window)
    requires SameShape(m, n)
    ensures Under(m, root, x) == Under(n, root, x)
    decreases x.serial
  {
    if x in m && x != root && m[x].parent.Some? && m[x].parent.value.serial < x.serial {
      SameUnder(m, n, root, m[x].parent.value);
    }
  }

  lemma SameSubtree(m: Windows, n: Windows, root: Window)
    requires SameShape(m, n)
    ensures Subtree(m, root) == Subtree(n, root)
  {
    forall x | x in m
      ensures Under(m, root, x) == Under(n, root, x)
    {
      SameUnder(m, n, root, x);
    }
  }

  lemma SameForest(m: Windows, n: Windows)
    requires SameShape(m, n) && Forest(m)
    ensures Forest(n)
  {
    assert forall c, p :: ChildOf(m, c, p) == ChildOf(n, c, p);
  }

  /** Every window of `s` shifted by `d`, all others as they were. */
  function Shifted(m: Windows, s: set<Window>, d: Displacement): (n: Windows)
    ensures SameShape(m, n)
  {
    map w | w in m :: if w in s then m[w].(pos := Plus(m[w].pos, d)) else m[w]
  }

  lemma ShiftedTwice(m: Windows, a: set<Window>, b: set<Window>, d: Displacement)
    requires a !! b
    ensures Shifted(Shifted(m, a, d), b, d) == Shifted(m, a + b, d)
  {
  }

  /** One turn of the loop in `move_tree`. */
  lemma MoveNext(m: Windows, root: Window, k: nat, d: Displacement)
    requires Forest(m) && root in m && k < |m[root].children|
    ensures var n := Shifted(m, {root} + Reached(m, root, k), d);
      && Forest(n) && m[root].children[k] in n
      && Shifted(n, Subtree(n, m[root].children[k]), d) == Shifted(m, {root} + Reached(m, root, k + 1), d)
  {
    var child := m[root].children[k];
    var n := Shifted(m, {root} + Reached(m, root, k), d);
    ReachedNext(m, root, k);
    ChildUnder(m, root, child);
    SameForest(m, n);
    SameSubtree(m, n, child);
    ShiftedTwice(m, {root} + Reached(m, root, k), Subtree(m, child), d);
    assert {root} + Reached(m, root, k) + Subtree(m, child) == {root} + Reached(m, root, k + 1);
  }

  /** Loop invariant of `move_tree`: the root and the subtrees of its first `k` children have moved. */
  ghost predicate Moving(m: Windows, n: Windows, root: Window, k: nat, d: Displacement)
  {
    && root in m && k <= |m[root].children|
    && n == Shifted(m, {root} + Reached(m, root, k), d)
  }

  lemma MoveBegins(m: Windows, root: Window, d: Displacement)
    requires root in m
    ensures Moving(m, m[root := m[root].(pos := Plus(m[root].pos, d))], root, 0, d)
  {
    assert Reached(m, root, 0) == {};
  }

  lemma MoveGoesOn(m: Windows, n: Windows, root: Window, k: nat, d: Displacement)
    requires Forest(m) && Moving(m, n, root, k, d) && k < |m[root].children|
    ensures Forest(n) && m[root].children[k] in n && root.serial < m[root].children[k].serial
    ensures Moving(m, Shifted(n, Subtree(n, m[root].children[k]), d), root, k + 1, d)
  {
    MoveNext(m, root, k, d);
    ChildUnder(m, root, m[root].children[k]);
  }

  lemma MoveEnds(m: Windows, n: Windows, root: Window, d: Displacement)
    requires Forest(m) && root in m && Moving(m, n, root, |m[root].children|, d)
    ensures n == Shifted(m, Subtree(m, root), d) && Forest(n) && n.Keys == m.Keys
  {
    ReachedAll(m, root);
    SameForest(m, n);
  }

  // ------------------------------------------------------------------------- adding and removing

  /** `children.push_back` on a live parent. */
  function Adopt(m: Windows, parent: Option<Window>, c: Window): Windows
  {
    match parent
    case Some(p) => if p in m then m[p := m[p].(children := m[p].children + [c])] else m
    case None => m
  }

  /** A new window enters the map and its parent's list. */
  function Inserted(m: Windows, w: Window, info: Info): (n: Windows)
    ensures w in n
  {
    Adopt(m[w := info], info.parent, w)
  }

  lemma InsertKeepsForest(m: Windows, w: Window, info: Info)
    requires Forest(m) && Older(m, w.serial) && info.children == []
    requires info.parent.Some? ==> info.parent.value.serial < w.serial
    ensures Forest(Inserted(m, w, info)) && Older(Inserted(m, w, info), w.serial + 1)
    ensures w in Inserted(m, w, info) && Inserted(m, w, info).Keys == m.Keys + {w}
    ensures Inserted(m, w, info)[w] == info
  {
    var n := Inserted(m, w, info);
    assert forall p :: p in m ==> w !in m[p].children by {
      forall p | p in m
        ensures w !in m[p].children
      {
        assert !ChildOf(m, w, p);
      }
    }
    assert forall c, p :: ChildOf(n, c, p) <==> (if c == w then info.parent == Some(p) else ChildOf(m, c, p));
    forall p | p in n
      ensures NoDuplicates(n[p].children)
      ensures forall c :: c in n[p].children <==> (p in m && c in m[p].children) || (c == w && info.parent == Some(p))
    {
      assert p != w ==> NoDuplicates(m[p].children);
    }
  }

  /** The list without its first occurrence of `w`. */
  function Without(ws: seq<Window>, w: Window): seq<Window>
  {
    if ws == [] then [] else if ws[0] == w then ws[1..] else [ws[0]] + Without(ws[1..], w)
  }

  lemma {:induction false} WithoutMembers(ws: seq<Window>, w: Window)
    requires NoDuplicates(ws)
    ensures NoDuplicates(Without(ws, w))
    ensures forall c :: c in Without(ws, w) <==> c in ws && c != w
  {
    if ws != [] {
      var rest := Without(ws[1..], w);
      assert NoDuplicates(ws[1..]) && ws[0] !in ws[1..];
      WithoutMembers(ws[1..], w);
      assert NoDuplicates([ws[0]] + rest) by {
        assert ws[0] !in rest;
      }
    }
  }

  lemma {:induction false} WithoutAt(ws: seq<Window>, w: Window, i: nat)
    requires i < |ws| && ws[i] == w && w !in ws[..i]
    ensures Without(ws, w) == ws[..i] + ws[i + 1..]
  {
    if i > 0 {
      assert ws[..i][0] == ws[0] && ws[1..][..i - 1] == ws[..i][1..];
      WithoutAt(ws[1..], w, i - 1);
    }
  }

  lemma {:induction false} WithoutAbsent(ws: seq<Window>, w: Window)
    requires w !in ws
    ensures Without(ws, w) == ws
  {
    if ws != [] {
      WithoutAbsent(ws[1..], w);
    }
  }

  /** `siblings.erase` on a live parent. */
  function Disown(m: Windows, w: Window): Windows
    requires w in m
  {
    match m[w].parent
    case Some(p) => if p in m then m[p := m[p].(children := Without(m[p].children, w))] else m
    case None => m
  }

  /** A window leaves its parent's list and the map; its children become roots. */
  function Removed(m: Windows, w: Window): Windows
    requires w in m
  {
    Disown(m, w) - {w}
  }

  lemma RemoveKeepsForest(m: Windows, w: Window)
    requires Forest(m) && w in m
    ensures Forest(Removed(m, w)) && Removed(m, w).Keys == m.Keys - {w}
  {
    var n := Removed(m, w);
    assert !ChildOf(m, w, w);
    forall p | p in n
      ensures NoDuplicates(n[p].children)
      ensures forall c :: c in n[p].children <==> c in m[p].children && c != w
    {
      WithoutMembers(m[p].children, w);
      if w in m[p].children {
        assert ChildOf(m, w, p);
      }
    }
    assert forall c, p :: ChildOf(n, c, p) <==> ChildOf(m, c, p) && c != w;
  }
}
