/**
 * The window registry and its pointer/keyboard state machines
 * (src/os/ui/WindowManager.tsx).  The registry is a class holding the window
 * list, the monotonic z counter `topZ`, the current bounds and the records of
 * a drag or resize gesture in progress.  Each React state update `setWins(v =>
 * v.map(...))` becomes an assignment of `wins` to a pure function of its old
 * value; those functions carry the properties.
 */
module WindowManager {
  import opened Wrappers
  import opened Geometry
  import Sorting

  /** One window record; `content` is opaque to the manager and is left out. */
  datatype Win = Win(
    id: int, title: string, z: int,
    x: real, y: real, w: real, h: real,
    snapped: Option<SnapSide>,
    prevX: real, prevY: real, prevW: real, prevH: real)

  const DEFAULT_W: real := 640.0
  const DEFAULT_H: real := 400.0

  /** The title-bar drag in progress (`dragRef` plus what the handlers capture). */
  datatype DragGesture = DragGesture(
    id: int, startX: real, startY: real, winX: real, winY: real,
    w: real, h: real, bounds: Bounds)

  /** The eight resize handles. */
  datatype Handle = N | S | E | W | NE | NW | SE | SW

  /** `edge.includes('e')` and its three siblings. */
  predicate HasE(hd: Handle) { hd == E || hd == NE || hd == SE }
  predicate HasW(hd: Handle) { hd == W || hd == NW || hd == SW }
  predicate HasN(hd: Handle) { hd == N || hd == NE || hd == NW }
  predicate HasS(hd: Handle) { hd == S || hd == SE || hd == SW }

  /** The resize in progress (`resizeRefLocal` plus the captured start geometry and bounds). */
  datatype ResizeGesture = ResizeGesture(
    id: int, handle: Handle, startX: real, startY: real, start: Rect, bounds: Bounds)

  datatype KeyAction = NoKeyAction | CloseWindow(closeId: int) | FocusWindow(focusId: int)

  function Geom(v: Win): Rect { Rect(v.x, v.y, v.w, v.h) }
  function PrevRect(v: Win): Rect { Rect(v.prevX, v.prevY, v.prevW, v.prevH) }

  function WithGeom(v: Win, r: Rect, s: Option<SnapSide>): Win {
    v.(x := r.x, y := r.y, w := r.w, h := r.h, snapped := s)
  }

  /** `v.map(w => w.id === id ? f(w) : w)`. */
  function MapId(ws: seq<Win>, id: int, f: Win -> Win): seq<Win> {
    seq(|ws|, i requires 0 <= i < |ws| => if ws[i].id == id then f(ws[i]) else ws[i])
  }

  function CountId(ws: seq<Win>, id: int): nat {
    if ws == [] then 0 else (if ws[0].id == id then 1 else 0) + CountId(ws[1..], id)
  }

  // ---------------------------------------------------------------- create

  /** `Math.max(0, ...wins.map(w => w.id))`. */
  function MaxId(ws: seq<Win>): (m: int)
    ensures m >= 0
    ensures forall i :: 0 <= i < |ws| ==> ws[i].id <= m
    ensures m == 0 || exists i :: 0 <= i < |ws| && ws[i].id == m
  {
    if ws == [] then 0
    else
      var r := MaxId(ws[1..]);
      if ws[0].id > r then ws[0].id else r
  }

  /** The record `create` appends: cascaded origin, clamped; `prev*` is the same geometry. */
  function NewWindow(id: int, title: string, z: int, b: Bounds, w: real, h: real): (v: Win)
    ensures v.id == id && v.title == title && v.z == z && v.w == w && v.h == h
    ensures v.snapped == None && PrevRect(v) == Geom(v)
    ensures v.x >= b.x && v.y >= b.y
    ensures MIN_W <= w <= b.w ==> v.x + w <= b.x + b.w
    ensures MIN_H <= h <= b.h ==> v.y + h <= b.y + b.h
  {
    var p := ClampTo(b, 80.0 + (id * 20) as real, 60.0 + (id * 10) as real, w, h);
    Win(id, title, z, p.x, p.y, w, h, None, p.x, p.y, w, h)
  }

  // ---------------------------------------------------------------- focus

  /**
   * `v.map(w => w.id === id ? { ...w, z: ++topZ.val } : w)`: every window with
   * the id gets the next counter value, in list order; nothing else changes.
   */
  function FocusZ(ws: seq<Win>, id: int, z0: int): (seq<Win>, int)
    decreases |ws|
  {
    if ws == [] then ([], z0)
    else if ws[0].id == id then
      var r := FocusZ(ws[1..], id, z0 + 1);
      ([ws[0].(z := z0 + 1)] + r.0, r.1)
    else
      var r := FocusZ(ws[1..], id, z0);
      ([ws[0]] + r.0, r.1)
  }

  /**
   * Focus keeps the list's length and every window without the id; each
   * window with the id keeps all but its z, which is a fresh counter value,
   * and the counter advances by the number of such windows.
   */
  lemma {:induction false} FocusSpec(ws: seq<Win>, id: int, z0: int)
    ensures var r := FocusZ(ws, id, z0);
      && |r.0| == |ws| && r.1 == z0 + CountId(ws, id)
      && (forall i :: 0 <= i < |ws| && ws[i].id != id ==> r.0[i] == ws[i])
      && (forall i :: 0 <= i < |ws| && ws[i].id == id ==>
            r.0[i] == ws[i].(z := r.0[i].z) && z0 < r.0[i].z <= r.1)
    decreases |ws|
  {
    if ws != [] {
      var z1 := if ws[0].id == id then z0 + 1 else z0;
      FocusSpec(ws[1..], id, z1);
      var r := FocusZ(ws, id, z0);
      var t := FocusZ(ws[1..], id, z1);
      forall i | 1 <= i < |ws| ensures r.0[i] == t.0[i - 1] && ws[i] == ws[1..][i - 1] {
      }
    }
  }

  lemma FocusStep(ws: seq<Win>, i: int, id: int, z: int)
    requires 0 <= i < |ws|
    ensures ws[i].id == id ==>
      FocusZ(ws[i..], id, z) == ([ws[i].(z := z + 1)] + FocusZ(ws[i + 1..], id, z + 1).0, FocusZ(ws[i + 1..], id, z + 1).1)
    ensures ws[i].id != id ==>
      FocusZ(ws[i..], id, z) == ([ws[i]] + FocusZ(ws[i + 1..], id, z).0, FocusZ(ws[i + 1..], id, z).1)
  {
    assert ws[i..][0] == ws[i] && ws[i..][1..] == ws[i + 1..];
  }

  /** Focus keeps every z at or below the counter. */
  lemma FocusKeepsBound(ws: seq<Win>, id: int, z0: int)
    requires forall i :: 0 <= i < |ws| ==> ws[i].z <= z0
    ensures z0 <= FocusZ(ws, id, z0).1 && |FocusZ(ws, id, z0).0| == |ws|
    ensures forall i :: 0 <= i < |ws| ==> FocusZ(ws, id, z0).0[i].z <= FocusZ(ws, id, z0).1
  {
    var r := FocusZ(ws, id, z0);
    FocusSpec(ws, id, z0);
    forall i | 0 <= i < |ws| ensures r.0[i].z <= r.1 {
      if ws[i].id != id {
        assert r.0[i] == ws[i];
      }
    }
  }

  /** Focusing an id that no window has changes neither the list nor the counter. */
  lemma {:induction false} FocusUnknown(ws: seq<Win>, id: int, z0: int)
    requires forall i :: 0 <= i < |ws| ==> ws[i].id != id
    ensures FocusZ(ws, id, z0) == (ws, z0)
    decreases |ws|
  {
    if ws != [] {
      FocusUnknown(ws[1..], id, z0);
      assert ws == [ws[0]] + ws[1..];
    }
  }

  lemma {:induction false} CountIdOne(ws: seq<Win>, k: int)
    requires 0 <= k < |ws|
    requires forall i :: 0 <= i < |ws| && i != k ==> ws[i].id != ws[k].id
    ensures CountId(ws, ws[k].id) == 1
    decreases |ws|
  {
    if k == 0 {
      CountIdZero(ws[1..], ws[0].id);
    } else {
      CountIdOne(ws[1..], k - 1);
    }
  }

  lemma {:induction false} CountIdZero(ws: seq<Win>, id: int)
    requires forall i :: 0 <= i < |ws| ==> ws[i].id != id
    ensures CountId(ws, id) == 0
    decreases |ws|
  {
    if ws != [] {
      CountIdZero(ws[1..], id);
    }
  }

  /** With a unique id, focus raises exactly that window to the next counter value. */
  lemma FocusUnique(ws: seq<Win>, k: int, z0: int)
    requires 0 <= k < |ws|
    requires forall i :: 0 <= i < |ws| && i != k ==> ws[i].id != ws[k].id
    ensures FocusZ(ws, ws[k].id, z0) == (ws[k := ws[k].(z := z0 + 1)], z0 + 1)
  {
    CountIdOne(ws, k);
    FocusSpec(ws, ws[k].id, z0);
    var r := FocusZ(ws, ws[k].id, z0);
    assert r.0 == ws[k := ws[k].(z := z0 + 1)] by {
      forall i | 0 <= i < |ws| ensures r.0[i] == ws[k := ws[k].(z := z0 + 1)][i] {
        if i == k {
          assert r.0[k].z == z0 + 1;
        }
      }
    }
  }

  // ---------------------------------------------------------------- close

  /** `v.filter(w => w.id !== id)`. */
  function RemoveId(ws: seq<Win>, id: int): (r: seq<Win>)
    ensures forall v :: v in r <==> v in ws && v.id != id
    ensures |r| == |ws| - CountId(ws, id)
    decreases |ws|
  {
    if ws == [] then []
    else if ws[0].id == id then RemoveId(ws[1..], id)
    else [ws[0]] + RemoveId(ws[1..], id)
  }

  /**
   * `filter` keeps the order of the windows it keeps: it distributes over
   * concatenation (with `RemoveIdOne` this fixes the result entirely).
   */
  lemma {:induction false} RemoveIdConcat(a: seq<Win>, b: seq<Win>, id: int)
    ensures RemoveId(a + b, id) == RemoveId(a, id) + RemoveId(b, id)
    decreases |a|
  {
    if a == [] {
      assert a + b == b;
    } else {
      assert (a + b)[0] == a[0] && (a + b)[1..] == a[1..] + b;
      RemoveIdConcat(a[1..], b, id);
      if a[0].id != id {
        assert [a[0]] + (RemoveId(a[1..], id) + RemoveId(b, id)) == ([a[0]] + RemoveId(a[1..], id)) + RemoveId(b, id);
      }
    }
  }

  /** A single window is kept exactly when its id differs. */
  lemma RemoveIdOne(v: Win, id: int)
    ensures RemoveId([v], id) == if v.id == id then [] else [v]
  {
    assert [v][1..] == [];
  }

  /** Closing an id that no window has leaves the list as it was. */
  lemma {:induction false} RemoveUnknown(ws: seq<Win>, id: int)
    requires forall i :: 0 <= i < |ws| ==> ws[i].id != id
    ensures RemoveId(ws, id) == ws
    decreases |ws|
  {
    if ws != [] {
      RemoveUnknown(ws[1..], id);
      assert ws == [ws[0]] + ws[1..];
    }
  }

  /** The first window with the id (the record the title-bar handler closes over). */
  function FindWin(ws: seq<Win>, id: int): (r: Option<Win>)
    ensures r.Some? ==> r.value in ws && r.value.id == id
    ensures r.None? ==> forall i :: 0 <= i < |ws| ==> ws[i].id != id
    decreases |ws|
  {
    if ws == [] then None
    else if ws[0].id == id then Some(ws[0])
    else FindWin(ws[1..], id)
  }

  // ---------------------------------------------------------------- drag

  /** Pointer-down on a snapped window: its `prev*` geometry becomes live, unsnapped. */
  function Unsnapped(v: Win): Win {
    WithGeom(v, PrevRect(v), None)
  }

  /** Window origin for a pointer at (px, py): the drag origin plus the pointer delta, clamped. */
  function DragPos(g: DragGesture, px: real, py: real): Point {
    ClampTo(g.bounds, g.winX + (px - g.startX), g.winY + (py - g.startY), g.w, g.h)
  }

  /** Release with a snap target: stamp `prev*` with the current geometry, then commit the canonical rectangle. */
  function Snapped(v: Win, b: Bounds, side: SnapSide): (r: Win)
    ensures PrevRect(r) == Geom(v) && Geom(r) == SnapRect(b, side) && r.snapped == Some(side)
    ensures r.id == v.id && r.title == v.title && r.z == v.z
  {
    WithGeom(v.(prevX := v.x, prevY := v.y, prevW := v.w, prevH := v.h), SnapRect(b, side), Some(side))
  }

  /** Snapping and then starting a new drag brings back exactly the pre-snap geometry. */
  lemma SnapThenUnsnap(v: Win, b: Bounds, side: SnapSide)
    ensures Geom(Unsnapped(Snapped(v, b, side))) == Geom(v)
    ensures Unsnapped(Snapped(v, b, side)).snapped == None
  {
  }

  // ---------------------------------------------------------------- double-click

  /** Title double-click: restore `prev*` from a top snap, otherwise stamp `prev*` and maximize. */
  function ToggleMax(v: Win, b: Bounds): Win {
    if v.snapped == Some(Top) then WithGeom(v, PrevRect(v), None)
    else Snapped(v, b, Top)
  }

  /** Two double-clicks on a window that is not top-snapped restore its geometry, unsnapped. */
  lemma ToggleMaxTwice(v: Win, b: Bounds)
    requires v.snapped != Some(Top)
    ensures Geom(ToggleMax(ToggleMax(v, b), b)) == Geom(v)
    ensures ToggleMax(ToggleMax(v, b), b).snapped == None
    ensures ToggleMax(v, b).snapped == Some(Top) && Geom(ToggleMax(v, b)) == SnapRect(b, Top)
  {
  }

  /**
   * From a left, right or bottom snap the first double-click stores the
   * snapped rectangle itself in `prev*`, so the second one returns to that
   * rectangle (unsnapped), not to the geometry before the snap.
   */
  lemma ToggleMaxFromSideSnap(v: Win, b: Bounds, side: SnapSide)
    requires side != Top
    ensures Geom(ToggleMax(ToggleMax(Snapped(v, b, side), b), b)) == SnapRect(b, side)
    ensures ToggleMax(ToggleMax(Snapped(v, b, side), b), b).snapped == None
  {
  }

  // ---------------------------------------------------------------- resize

  /**
   * The geometry of one resize move.  Handles with an east or west edge give
   * at least the minimum width, with a north or south edge at least the
   * minimum height; the origin is clamped into the bounds and the size capped
   * so that, on bounds at least the minimum size, the window stays inside.
   */
  function ResizeRect(g: ResizeGesture, px: real, py: real): (r: Rect)
    ensures r.x >= g.bounds.x && r.y >= g.bounds.y
    ensures HasE(g.handle) || HasW(g.handle) ==> r.w >= MIN_W
    ensures HasN(g.handle) || HasS(g.handle) ==> r.h >= MIN_H
    ensures r.w <= Max(MIN_W, g.bounds.w - (r.x - g.bounds.x))
    ensures r.h <= Max(MIN_H, g.bounds.h - (r.y - g.bounds.y))
    ensures g.bounds.w >= MIN_W ==> r.x + r.w <= g.bounds.x + g.bounds.w
    ensures g.bounds.h >= MIN_H ==> r.y + r.h <= g.bounds.y + g.bounds.h
  {
    var b := g.bounds;
    var dx := px - g.startX;
    var dy := py - g.startY;
    var nw :=
      if HasE(g.handle) then Max(MIN_W, g.start.w + dx)
      else if HasW(g.handle) then Max(MIN_W, g.start.w - dx)
      else g.start.w;
    var nh :=
      if HasS(g.handle) then Max(MIN_H, g.start.h + dy)
      else if HasN(g.handle) then Max(MIN_H, g.start.h - dy)
      else g.start.h;
    var nx := if HasW(g.handle) then g.start.x + dx else g.start.x;
    var ny := if HasN(g.handle) then g.start.y + dy else g.start.y;
    var c := ClampTo(b, nx, ny, nw, nh);
    var maxW := Max(MIN_W, b.w - (c.x - b.x));
    var maxH := Max(MIN_H, b.h - (c.y - b.y));
    Rect(c.x, c.y, Min(nw, maxW), Min(nh, maxH))
  }

  /**
   * A west-handle move that neither hits the minimum width nor the clamp
   * keeps the east edge where it was.
   */
  lemma WestResizeKeepsEastEdge(g: ResizeGesture, px: real, py: real)
    requires g.handle == W
    requires g.start.w - (px - g.startX) >= MIN_W
    requires g.bounds.x <= g.start.x + (px - g.startX)
    requires g.start.x + g.start.w <= g.bounds.x + g.bounds.w
    requires g.start.w - (px - g.startX) <= g.bounds.w
    ensures ResizeRect(g, px, py).x + ResizeRect(g, px, py).w == g.start.x + g.start.w
  {
  }

  // ---------------------------------------------------------------- keyboard

  const ZDesc: (Win, Win) -> bool := (a: Win, b: Win) => a.z >= b.z
  const ZAsc: (Win, Win) -> bool := (a: Win, b: Win) => a.z <= b.z

  lemma ZOrdersConsistent()
    ensures Sorting.TotalPreorder(ZDesc) && Sorting.TotalPreorder(ZAsc)
  {
  }

  /** `[...wins].sort((a, b) => b.z - a.z)[0]`. */
  function Active(ws: seq<Win>): Win
    requires |ws| > 0
  {
    Sorting.SortPerm(ws, ZDesc);
    Sorting.SortBy(ws, ZDesc)[0]
  }

  /** The active window is a window of the list with the highest z. */
  lemma ActiveIsTopmost(ws: seq<Win>)
    requires |ws| > 0
    ensures Active(ws) in ws
    ensures forall v :: v in ws ==> v.z <= Active(ws).z
  {
    ZOrdersConsistent();
    Sorting.SortedFirstIsLeast(ws, ZDesc);
  }

  /** `findIndex(w => w.id === id)`. */
  function FindIndex(s: seq<Win>, id: int): (k: int)
    ensures -1 <= k < |s|
    ensures k >= 0 ==> s[k].id == id && forall j :: 0 <= j < k ==> s[j].id != id
    ensures k == -1 ==> forall j :: 0 <= j < |s| ==> s[j].id != id
    decreases |s|
  {
    if s == [] then -1
    else if s[0].id == id then 0
    else
      var k := FindIndex(s[1..], id);
      if k == -1 then -1 else k + 1
  }

  /** Ctrl/Meta+Tab: the window after the active one in ascending z order, wrapping round. */
  function CycleTarget(ws: seq<Win>): Win
    requires |ws| > 0
  {
    Sorting.SortPerm(ws, ZAsc);
    var sorted := Sorting.SortBy(ws, ZAsc);
    var idx := FindIndex(sorted, Active(ws).id);
    sorted[(idx + 1) % |sorted|]
  }

  /** The keydown decision: Escape or Ctrl/Meta+W closes the active window; Ctrl/Meta+Tab cycles. */
  function KeyDecision(ws: seq<Win>, key: string, meta: bool, ctrl: bool): (r: KeyAction)
    ensures ws == [] ==> r == NoKeyAction
    ensures r.CloseWindow? <==> ws != [] && (key == "Escape" || ((meta || ctrl) && (key == "w" || key == "W")))
    ensures r.CloseWindow? ==> r.closeId == Active(ws).id
    ensures r.FocusWindow? <==> ws != [] && (meta || ctrl) && key == "Tab"
    ensures r.FocusWindow? ==> r.focusId == CycleTarget(ws).id
  {
    if ws == [] then NoKeyAction
    else
      var isMeta := meta || ctrl;
      if key == "Escape" then CloseWindow(Active(ws).id)
      else if isMeta && (key == "w" || key == "W") then CloseWindow(Active(ws).id)
      else if isMeta && key == "Tab" then FocusWindow(CycleTarget(ws).id)
      else NoKeyAction
  }

  predicate DistinctWindows(ws: seq<Win>) {
    forall i, j :: 0 <= i < j < |ws| ==> ws[i].z != ws[j].z && ws[i].id != ws[j].id
  }

  lemma {:induction false} OccursOnce(ws: seq<Win>, q: int)
    requires 0 <= q < |ws|
    requires DistinctWindows(ws)
    ensures multiset(ws)[ws[q]] == 1
    decreases |ws|
  {
    assert ws == [ws[0]] + ws[1..];
    if q == 0 {
      forall j | 1 <= j < |ws| ensures ws[j] != ws[0] {
        assert ws[0].z != ws[j].z;
      }
      assert ws[0] !in ws[1..];
    } else {
      OccursOnce(ws[1..], q - 1);
      assert ws[0].z != ws[q].z;
    }
  }

  /** In an ascending-z permutation of distinct windows, the unique topmost one comes last. */
  lemma TopmostComesLast(ws: seq<Win>, sorted: seq<Win>, a: Win)
    requires |ws| > 0 && DistinctWindows(ws)
    requires multiset(sorted) == multiset(ws) && |sorted| == |ws|
    requires Sorting.Sorted(sorted, ZAsc)
    requires a in ws && forall v :: v in ws ==> v.z <= a.z
    ensures sorted[|sorted| - 1] == a
  {
    var n := |ws|;
    var last := sorted[n - 1];
    assert a in multiset(sorted);
    var t :| 0 <= t < n && sorted[t] == a;
    if t < n - 1 {
      assert ZAsc(sorted[t], sorted[n - 1]);
    }
    assert last.z >= a.z;
    assert last in multiset(ws);
    var p :| 0 <= p < n && ws[p] == last;
    var q :| 0 <= q < n && ws[q] == a;
    if p < q {
      assert false;
    } else if q < p {
      assert false;
    }
  }

  /** ... and no earlier element of that permutation shares its id. */
  lemma TopmostIdOnlyLast(ws: seq<Win>, sorted: seq<Win>, a: Win)
    requires |ws| > 0 && DistinctWindows(ws)
    requires multiset(sorted) == multiset(ws) && |sorted| == |ws|
    requires sorted[|sorted| - 1] == a
    ensures FindIndex(sorted, a.id) == |sorted| - 1
  {
    var n := |ws|;
    assert a in multiset(ws);
    var q :| 0 <= q < n && ws[q] == a;
    OccursOnce(ws, q);
    assert sorted == sorted[..n - 1] + [a];
    assert multiset(sorted[..n - 1])[a] == 0;
    forall k | 0 <= k < n - 1 ensures sorted[k].id != a.id {
      assert sorted[k] in sorted[..n - 1];
      assert sorted[k] != a;
      assert sorted[k] in multiset(ws);
      var r :| 0 <= r < n && ws[r] == sorted[k];
      if r < q {
        assert ws[r].id != ws[q].id;
      } else {
        assert ws[q].id != ws[r].id;
      }
    }
  }

  /**
   * With distinct z values and ids the active window comes last in ascending
   * z order, so Ctrl/Meta+Tab always focuses the window with the lowest z.
   */
  lemma CycleFocusesLowest(ws: seq<Win>)
    requires |ws| > 0
    requires DistinctWindows(ws)
    ensures CycleTarget(ws) in ws
    ensures forall v :: v in ws ==> CycleTarget(ws).z <= v.z
  {
    ZOrdersConsistent();
    var sorted := Sorting.SortBy(ws, ZAsc);
    Sorting.SortPerm(ws, ZAsc);
    Sorting.SortSorted(ws, ZAsc);
    Sorting.SortedFirstIsLeast(ws, ZAsc);
    var a := Active(ws);
    ActiveIsTopmost(ws);
    TopmostComesLast(ws, sorted, a);
    TopmostIdOnlyLast(ws, sorted, a);
    var n := |sorted|;
    assert (n - 1 + 1) % n == 0;
    assert CycleTarget(ws) == sorted[0];
  }

  // ---------------------------------------------------------------- load

  function ZOr1(z: int): int { if z == 0 then 1 else z }

  /** `Math.max(...saved.map(r => r.z || 1), 1)`: the counter restored on load. */
  function RestoredTopZ(ws: seq<Win>): (m: int)
    ensures m >= 1
    ensures forall i :: 0 <= i < |ws| ==> ws[i].z <= m
    ensures m == 1 || exists i :: 0 <= i < |ws| && ZOr1(ws[i].z) == m
    decreases |ws|
  {
    if ws == [] then 1
    else
      var r := RestoredTopZ(ws[1..]);
      if ZOr1(ws[0].z) > r then ZOr1(ws[0].z) else r
  }

  // ---------------------------------------------------------------- the registry

  class WindowManager {
    var wins: seq<Win>
    var topZ: int
    var bounds: Bounds
    var drag: Option<DragGesture>
    var snapTarget: Option<SnapSide>
    var resize: Option<ResizeGesture>

    /** No window's z exceeds the counter, so the next value issued is above all of them. */
    ghost predicate Valid()
      reads this
    {
      topZ >= 1 && forall i :: 0 <= i < |wins| ==> wins[i].z <= topZ
    }

    constructor ()
      ensures Valid()
      ensures wins == [] && topZ == 1 && bounds == Rect(0.0, 0.0, 0.0, 0.0)
      ensures drag == None && snapTarget == None && resize == None
    {
      wins := [];
      topZ := 1;
      bounds := Rect(0.0, 0.0, 0.0, 0.0);
      drag := None;
      snapTarget := None;
      resize := None;
    }

    /** The viewport listener: new bounds; existing windows are not re-clamped. */
    method SetBounds(b: Bounds)
      modifies this`bounds
      ensures bounds == b
    {
      bounds := b;
    }

    /** Rehydrate the saved window list; a non-empty one also restores the counter. */
    method RestoreState(saved: seq<Win>)
      requires Valid()
      modifies this`wins, this`topZ
      ensures Valid()
      ensures |saved| > 0 ==> wins == saved && topZ == RestoredTopZ(saved)
      ensures |saved| == 0 ==> wins == old(wins) && topZ == old(topZ)
    {
      if |saved| > 0 {
        wins := saved;
        topZ := RestoredTopZ(saved);
      }
    }

    /** `api.create`: a fresh id and a z above every z issued so far. */
    method Create(title: string, w: Option<real>, h: Option<real>) returns (id: int)
      requires Valid()
      modifies this`wins, this`topZ
      ensures Valid()
      ensures id == MaxId(old(wins)) + 1 && id >= 1
      ensures forall i :: 0 <= i < |old(wins)| ==> old(wins)[i].id < id && old(wins)[i].z < topZ
      ensures topZ == old(topZ) + 1
      ensures wins == old(wins) + [NewWindow(id, title, topZ, bounds, w.GetOr(DEFAULT_W), h.GetOr(DEFAULT_H))]
    {
      id := MaxId(wins) + 1;
      topZ := topZ + 1;
      wins := wins + [NewWindow(id, title, topZ, bounds, w.GetOr(DEFAULT_W), h.GetOr(DEFAULT_H))];
    }

    /** `api.focus`: the map with a side-effecting counter, written as the loop it is. */
    method Focus(id: int)
      requires Valid()
      modifies this`wins, this`topZ
      ensures Valid()
      ensures (wins, topZ) == FocusZ(old(wins), id, old(topZ))
    {
      var ws := wins;
      ghost var goal := FocusZ(ws, id, topZ);
      var z := topZ;
      var out: seq<Win> := [];
      var i := 0;
      assert ws[i..] == ws;
      while i < |ws|
        invariant 0 <= i <= |ws|
        invariant out + FocusZ(ws[i..], id, z).0 == goal.0
        invariant FocusZ(ws[i..], id, z).1 == goal.1
      {
        FocusStep(ws, i, id, z);
        if ws[i].id == id {
          z := z + 1;
          out := out + [ws[i].(z := z)];
        } else {
          out := out + [ws[i]];
        }
        i := i + 1;
      }
      assert ws[i..] == [];
      assert FocusZ(ws[i..], id, z) == ([], z);
      assert out == goal.0 && z == goal.1;
      FocusKeepsBound(ws, id, old(topZ));
      wins := out;
      topZ := z;
    }

    /** `api.close`: drop every window with the id. */
    method Close(id: int)
      requires Valid()
      modifies this`wins
      ensures Valid()
      ensures wins == RemoveId(old(wins), id)
    {
      wins := RemoveId(wins, id);
    }

    /**
     * `onTitlePointerDown`: focus; a snapped window gets its `prev*` geometry
     * back, unsnapped; the drag starts from the (restored) origin.
     */
    method TitlePointerDown(id: int, px: real, py: real)
      requires Valid()
      modifies this`wins, this`topZ, this`drag, this`snapTarget
      ensures Valid()
      ensures topZ == FocusZ(old(wins), id, old(topZ)).1
      ensures FindWin(old(wins), id).None? ==>
        wins == FocusZ(old(wins), id, old(topZ)).0 && drag == old(drag) && snapTarget == old(snapTarget)
      ensures FindWin(old(wins), id).Some? ==>
        var win := FindWin(old(wins), id).value;
        var focused := FocusZ(old(wins), id, old(topZ)).0;
        var restored := if win.snapped.Some? then Unsnapped(win) else win;
        && wins == (if win.snapped.Some? then MapId(focused, id, (v: Win) => WithGeom(v, PrevRect(win), None)) else focused)
        && drag == Some(DragGesture(id, px, py, restored.x, restored.y, restored.w, restored.h, bounds))
        && snapTarget == None
    {
      var found := FindWin(wins, id);
      Focus(id);
      if found.Some? {
        var win := found.value;
        var restored := win;
        if win.snapped.Some? {
          wins := MapId(wins, id, (v: Win) => WithGeom(v, PrevRect(win), None));
          restored := Unsnapped(win);
        }
        drag := Some(DragGesture(id, px, py, restored.x, restored.y, restored.w, restored.h, bounds));
        snapTarget := None;
      }
    }

    /** One pointer move of a drag: new clamped origin and the current snap target. */
    method DragMove(px: real, py: real, shift: bool)
      requires Valid()
      modifies this`wins, this`snapTarget
      ensures Valid()
      ensures old(drag).None? ==> wins == old(wins) && snapTarget == old(snapTarget)
      ensures old(drag).Some? ==>
        var g := old(drag).value;
        var p := DragPos(g, px, py);
        && snapTarget == SnapTarget(g.bounds, px, py, shift)
        && wins == MapId(old(wins), g.id, (v: Win) => v.(x := p.x, y := p.y))
    {
      if drag.Some? {
        var g := drag.value;
        var p := DragPos(g, px, py);
        snapTarget := SnapTarget(g.bounds, px, py, shift);
        wins := MapId(wins, g.id, (v: Win) => v.(x := p.x, y := p.y));
      }
    }

    /** Pointer release: commit the snap target, if any, and end the gesture. */
    method DragUp()
      requires Valid()
      modifies this`wins, this`drag, this`snapTarget
      ensures Valid()
      ensures drag == None && snapTarget == None
      ensures old(drag).None? || old(snapTarget).None? ==> wins == old(wins)
      ensures old(drag).Some? && old(snapTarget).Some? ==>
        var g := old(drag).value;
        var side := old(snapTarget).value;
        wins == MapId(old(wins), g.id, (v: Win) => Snapped(v, g.bounds, side))
    {
      var target := snapTarget;
      snapTarget := None;
      if drag.Some? {
        var g := drag.value;
        drag := None;
        if target.Some? {
          var side := target.value;
          wins := MapId(wins, g.id, (v: Win) => Snapped(v, g.bounds, side));
        }
      }
    }

    /** `onTitleDoubleClick`: maximize / restore toggle. */
    method TitleDoubleClick(id: int)
      requires Valid()
      modifies this`wins
      ensures Valid()
      ensures var b := bounds; wins == MapId(old(wins), id, (v: Win) => ToggleMax(v, b))
    {
      var b := bounds;
      wins := MapId(wins, id, (v: Win) => ToggleMax(v, b));
    }

    /** `onResizePointerDown`: focus, clear the snap state (keeping `prev*`), start the gesture. */
    method ResizePointerDown(id: int, handle: Handle, px: real, py: real)
      requires Valid()
      modifies this`wins, this`topZ, this`resize
      ensures Valid()
      ensures topZ == FocusZ(old(wins), id, old(topZ)).1
      ensures FindWin(old(wins), id).None? ==>
        wins == FocusZ(old(wins), id, old(topZ)).0 && resize == old(resize)
      ensures FindWin(old(wins), id).Some? ==>
        var win := FindWin(old(wins), id).value;
        var focused := FocusZ(old(wins), id, old(topZ)).0;
        && wins == (if win.snapped.Some? then MapId(focused, id, (v: Win) => v.(snapped := None)) else focused)
        && resize == Some(ResizeGesture(id, handle, px, py, Geom(win), bounds))
    {
      var found := FindWin(wins, id);
      Focus(id);
      if found.Some? {
        var win := found.value;
        if win.snapped.Some? {
          wins := MapId(wins, id, (v: Win) => v.(snapped := None));
        }
        resize := Some(ResizeGesture(id, handle, px, py, Geom(win), bounds));
      }
    }

    /** One pointer move of a resize: the new geometry is live at once. */
    method ResizeMove(px: real, py: real)
      requires Valid()
      modifies this`wins
      ensures Valid()
      ensures old(resize).None? ==> wins == old(wins)
      ensures old(resize).Some? ==>
        var g := resize.value;
        var r := ResizeRect(g, px, py);
        wins == MapId(old(wins), g.id, (v: Win) => v.(x := r.x, y := r.y, w := r.w, h := r.h))
    {
      if resize.Some? {
        var g := resize.value;
        var r := ResizeRect(g, px, py);
        wins := MapId(wins, g.id, (v: Win) => v.(x := r.x, y := r.y, w := r.w, h := r.h));
      }
    }

    /** Resize release: stop listening; the geometry is already applied. */
    method ResizeUp()
      modifies this`resize
      ensures resize == None
    {
      resize := None;
    }

    /** The window manager's own keydown handler. */
    method OnKey(key: string, meta: bool, ctrl: bool)
      requires Valid()
      modifies this`wins, this`topZ
      ensures Valid()
      ensures match KeyDecision(old(wins), key, meta, ctrl)
        case NoKeyAction => wins == old(wins) && topZ == old(topZ)
        case CloseWindow(cid) => wins == RemoveId(old(wins), cid) && topZ == old(topZ)
        case FocusWindow(fid) => (wins, topZ) == FocusZ(old(wins), fid, old(topZ))
    {
      var act := KeyDecision(wins, key, meta, ctrl);
      match act {
        case NoKeyAction =>
        case CloseWindow(cid) => Close(cid);
        case FocusWindow(fid) => Focus(fid);
      }
    }
  }
}
