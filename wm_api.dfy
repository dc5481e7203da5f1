/**
 * The window observer and operations registry (src/os/wm/api.ts): the
 * "top window" rule, the subscriber feed of window snapshots and the `ops`
 * object the shell's other components call.
 */
module WmApi {
  import opened Wrappers
  import opened Geometry

  /** The public view of one window. */
  datatype WinMeta = WinMeta(
    id: int, title: string, z: int,
    x: real, y: real, w: real, h: real, snapped: Option<SnapSide>)

  /** `wins.reduce((a, b) => a.z > b.z ? a : b)`: a left fold that keeps `a` only when strictly higher. */
  function ReduceTop(ws: seq<WinMeta>): (t: WinMeta)
    requires |ws| > 0
    ensures t in ws
    ensures forall v :: v in ws ==> v.z <= t.z
    decreases |ws|
  {
    if |ws| == 1 then ws[0]
    else
      var a := ReduceTop(ws[..|ws| - 1]);
      var b := ws[|ws| - 1];
      assert forall v :: v in ws ==> v in ws[..|ws| - 1] || v == b;
      if a.z > b.z then a else b
  }

  /**
   * The fold picks the LAST window of highest z: given the index k of a
   * window of maximal z with only lower windows after it, the fold returns it.
   */
  lemma {:induction false} ReduceTopIsLastMax(ws: seq<WinMeta>, k: int)
    requires 0 <= k < |ws|
    requires forall j :: 0 <= j < |ws| ==> ws[j].z <= ws[k].z
    requires forall j :: k < j < |ws| ==> ws[j].z < ws[k].z
    ensures ReduceTop(ws) == ws[k]
    decreases |ws|
  {
    var n := |ws|;
    if n > 1 {
      var pre := ws[..n - 1];
      if k < n - 1 {
        ReduceTopIsLastMax(pre, k);
      } else {
        var a := ReduceTop(pre);
        assert a in ws;
      }
    }
  }

  /** `topWindowId`: null on an empty list, otherwise the id the fold selects. */
  function TopWindowId(ws: seq<WinMeta>): (r: Option<int>)
    ensures r.None? <==> ws == []
    ensures r.Some? ==> exists v :: v in ws && v.id == r.value && forall u :: u in ws ==> u.z <= v.z
  {
    if ws == [] then None else Some(ReduceTop(ws).id)
  }

  // ---------------------------------------------------------------- the feed

  /** A subscriber, by identity (the callback object held in `subs`). */
  type Subscriber = int

  /** One call of each subscriber, in `subs` order, with the same snapshot. */
  function Broadcast(subs: seq<Subscriber>, snap: seq<WinMeta>): (r: seq<(Subscriber, seq<WinMeta>)>)
    ensures |r| == |subs|
    ensures forall d :: d in r ==> d.1 == snap && d.0 in subs
  {
    seq(|subs|, i requires 0 <= i < |subs| => (subs[i], snap))
  }

  /** Every subscriber receives the snapshot exactly once. */
  lemma BroadcastReachesAll(subs: seq<Subscriber>, snap: seq<WinMeta>)
    requires forall i, j :: 0 <= i < j < |subs| ==> subs[i] != subs[j]
    ensures forall s :: s in subs ==> multiset(Broadcast(subs, snap))[(s, snap)] == 1
  {
    var r := Broadcast(subs, snap);
    forall s | s in subs ensures multiset(r)[(s, snap)] == 1 {
      var k :| 0 <= k < |subs| && subs[k] == s;
      assert r == r[..k] + [r[k]] + r[k + 1..];
      assert (s, snap) !in r[..k] by {
        forall i | 0 <= i < k ensures r[..k][i] != (s, snap) {
          assert r[i] == (subs[i], snap);
        }
      }
      assert (s, snap) !in r[k + 1..] by {
        forall j | k + 1 <= j < |r| ensures r[j] != (s, snap) {
          assert r[j] == (subs[j], snap);
        }
      }
    }
  }

  /** `subs.delete(fn)` on an insertion-ordered set. */
  function Without(subs: seq<Subscriber>, fn: Subscriber): (r: seq<Subscriber>)
    ensures forall s :: s in r <==> s in subs && s != fn
    decreases |subs|
  {
    if subs == [] then []
    else if subs[0] == fn then Without(subs[1..], fn)
    else [subs[0]] + Without(subs[1..], fn)
  }

  lemma {:induction false} WithoutKeepsDistinct(subs: seq<Subscriber>, fn: Subscriber)
    requires forall i, j :: 0 <= i < j < |subs| ==> subs[i] != subs[j]
    ensures forall i, j :: 0 <= i < j < |Without(subs, fn)| ==> Without(subs, fn)[i] != Without(subs, fn)[j]
    decreases |subs|
  {
    if subs != [] {
      WithoutKeepsDistinct(subs[1..], fn);
      if subs[0] != fn {
        assert subs[0] !in Without(subs[1..], fn);
      }
    }
  }

  /**
   * The module-level observer state: whether a window provider has been
   * installed, the subscriber set and the log of every subscriber call.
   * The provider is asked for a fresh snapshot on every notify and
   * subscribe; what it answers at that moment is the `current` argument of
   * those methods, and the default provider answers [].  Each subscriber
   * call is wrapped in a try/catch, so a throwing subscriber is simply one
   * more entry of the log and never cuts the broadcast short.
   */
  class WindowFeed {
    var installed: bool
    var subs: seq<Subscriber>
    var deliveries: seq<(Subscriber, seq<WinMeta>)>

    /** `subs` is a set: no subscriber twice. */
    ghost predicate Valid()
      reads this
    {
      forall i, j :: 0 <= i < j < |subs| ==> subs[i] != subs[j]
    }

    constructor ()
      ensures Valid()
      ensures !installed && subs == [] && deliveries == []
    {
      installed := false;
      subs := [];
      deliveries := [];
    }

    /** What `getSnap()` returns now: the provider's answer, or [] before one is installed. */
    function GetSnap(current: seq<WinMeta>): (snap: seq<WinMeta>)
      reads this
      ensures installed ==> snap == current
      ensures !installed ==> snap == []
    {
      if installed then current else []
    }

    /** `notifyWindowsUpdate`: take one fresh snapshot and hand it to every subscriber. */
    method NotifyWindowsUpdate(current: seq<WinMeta>)
      requires Valid()
      modifies this`deliveries
      ensures Valid()
      ensures deliveries == old(deliveries) + Broadcast(subs, GetSnap(current))
    {
      var snap := GetSnap(current);
      var i := 0;
      while i < |subs|
        invariant 0 <= i <= |subs|
        invariant deliveries == old(deliveries) + Broadcast(subs[..i], snap)
      {
        deliveries := deliveries + [(subs[i], snap)];
        i := i + 1;
        assert Broadcast(subs[..i], snap) == Broadcast(subs[..i - 1], snap) + [(subs[i - 1], snap)];
      }
      assert subs[..i] == subs;
    }

    /** `setWindowProvider`: install the provider, then notify everyone with what it returns now. */
    method SetWindowProvider(current: seq<WinMeta>)
      requires Valid()
      modifies this`installed, this`deliveries
      ensures Valid()
      ensures installed
      ensures deliveries == old(deliveries) + Broadcast(subs, current)
    {
      installed := true;
      NotifyWindowsUpdate(current);
    }

    /** `subscribe`: add to the set and call the new subscriber once with a fresh snapshot. */
    method Subscribe(fn: Subscriber, current: seq<WinMeta>)
      requires Valid()
      modifies this`subs, this`deliveries
      ensures Valid()
      ensures subs == if fn in old(subs) then old(subs) else old(subs) + [fn]
      ensures deliveries == old(deliveries) + [(fn, GetSnap(current))]
    {
      if fn !in subs {
        assert forall i :: 0 <= i < |subs| ==> subs[i] != fn;
        subs := subs + [fn];
      }
      deliveries := deliveries + [(fn, GetSnap(current))];
    }

    /** The function `subscribe` returns: `subs.delete(fn)`, removing exactly that subscriber. */
    method Unsubscribe(fn: Subscriber) returns (removed: bool)
      requires Valid()
      modifies this`subs
      ensures Valid()
      ensures removed <==> fn in old(subs)
      ensures subs == Without(old(subs), fn)
    {
      removed := fn in subs;
      var rest := Without(subs, fn);
      WithoutKeepsDistinct(subs, fn);
      assert forall i, j :: 0 <= i < j < |rest| ==> rest[i] != rest[j];
      subs := rest;
    }
  }

  // ---------------------------------------------------------------- ops

  /** A callback slot: the built-in default or a caller-supplied function (by identity). */
  datatype Handler = Default | Supplied(tag: int)

  /** The argument of `setOps`: focus and close are required, the extensions optional. */
  datatype OpsArg = OpsArg(focus: Handler, close: Handler, activeId: Option<Handler>, command: Option<Handler>)

  class OpsRegistry {
    var focus: Handler
    var close: Handler
    var activeId: Handler
    var command: Handler

    constructor ()
      ensures focus == Default && close == Default && activeId == Default && command == Default
    {
      focus := Default;
      close := Default;
      activeId := Default;
      command := Default;
    }

    /** `setOps`: focus and close always replaced; activeId and command only when supplied. */
    method SetOps(o: OpsArg)
      modifies this
      ensures focus == o.focus && close == o.close
      ensures activeId == (if o.activeId.Some? then o.activeId.value else old(activeId))
      ensures command == (if o.command.Some? then o.command.value else old(command))
    {
      focus := o.focus;
      close := o.close;
      if o.activeId.Some? {
        activeId := o.activeId.value;
      }
      if o.command.Some? {
        command := o.command.value;
      }
    }
  }
}
