/**
 * The toast centre (src/os/notifications/api.ts): a bounded, newest-first
 * list of toasts with a module-level id counter and listener set.  The
 * clock is an input (`now`), each emitted copy is appended to a log, and
 * each `setTimeout` auto-dismiss is recorded as (toast id, delay).
 */
module Notifications {
  import opened Wrappers
  import Sorting

  datatype Level = Info | Success | Warning | Error

  datatype Toast = Toast(
    id: int, title: Option<string>, body: Option<string>,
    level: Level, ts: int, ttl: Option<int>)

  /** `Partial<Toast>`: each field the caller may supply. */
  datatype ToastInput = ToastInput(
    id: Option<int>, title: Option<string>, body: Option<string>,
    level: Option<Level>, ts: Option<int>, ttl: Option<int>)

  const MAX_ITEMS: nat := 50
  const DEFAULT_TTL: int := 4000

  /** `{ id: seq, ts: now, level: 'info', ...t }`: caller fields win over the defaults. */
  function MakeToast(t: ToastInput, counter: int, now: int): (item: Toast)
    ensures item.id == (if t.id.Some? then t.id.value else counter)
    ensures item.ts == (if t.ts.Some? then t.ts.value else now)
    ensures item.level == (if t.level.Some? then t.level.value else Info)
    ensures item.title == t.title && item.body == t.body && item.ttl == t.ttl
  {
    Toast(t.id.GetOr(counter), t.title, t.body, t.level.GetOr(Info), t.ts.GetOr(now), t.ttl)
  }

  /** `[item, ...toasts].slice(0, MAX_ITEMS)`. */
  function PushBounded(item: Toast, list: seq<Toast>): (r: seq<Toast>)
    ensures |r| == if |list| + 1 <= MAX_ITEMS then |list| + 1 else MAX_ITEMS
    ensures r[0] == item
    ensures r[1..] == list[..|r| - 1]
  {
    var full := [item] + list;
    if |full| <= MAX_ITEMS then full else full[..MAX_ITEMS]
  }

  /** `toasts.filter(t => t.id !== id)`. */
  function RemoveToast(list: seq<Toast>, id: int): (r: seq<Toast>)
    ensures forall t :: t in r <==> t in list && t.id != id
    ensures |r| <= |list|
    ensures |r| == |list| <==> forall i :: 0 <= i < |list| ==> list[i].id != id
    decreases |list|
  {
    if list == [] then []
    else if list[0].id == id then RemoveToast(list[1..], id)
    else [list[0]] + RemoveToast(list[1..], id)
  }

  /**
   * `filter` keeps the order of the toasts it keeps: it distributes over
   * concatenation (with `RemoveToastOne` this fixes the result entirely).
   */
  lemma {:induction false} RemoveToastConcat(a: seq<Toast>, b: seq<Toast>, id: int)
    ensures RemoveToast(a + b, id) == RemoveToast(a, id) + RemoveToast(b, id)
    decreases |a|
  {
    if a == [] {
      assert a + b == b;
    } else {
      assert (a + b)[1..] == a[1..] + b;
      RemoveToastConcat(a[1..], b, id);
    }
  }

  /** A single toast is kept exactly when its id differs. */
  lemma RemoveToastOne(t: Toast, id: int)
    ensures RemoveToast([t], id) == if t.id == id then [] else [t]
  {
    assert [t][1..] == [];
  }

  /** Dismissing an id no toast carries changes nothing. */
  lemma {:induction false} RemoveUnknownToast(list: seq<Toast>, id: int)
    requires forall i :: 0 <= i < |list| ==> list[i].id != id
    ensures RemoveToast(list, id) == list
    decreases |list|
  {
    if list != [] {
      RemoveUnknownToast(list[1..], id);
      assert list == [list[0]] + list[1..];
    }
  }

  /** A second dismiss of the same id is a no-op. */
  lemma RemoveToastIdempotent(list: seq<Toast>, id: int)
    ensures RemoveToast(RemoveToast(list, id), id) == RemoveToast(list, id)
  {
    var r := RemoveToast(list, id);
    assert forall i :: 0 <= i < |r| ==> r[i] in r;
    RemoveUnknownToast(r, id);
  }

  /** `(a, b) => b.ts - a.ts`, read as "a may come first". */
  const TsDesc: (Toast, Toast) -> bool := (a: Toast, b: Toast) => b.ts - a.ts <= 0

  lemma TsDescIsPreorder()
    ensures Sorting.TotalPreorder(TsDesc)
  {
  }

  class ToastCenter {
    var counter: int
    var toasts: seq<Toast>
    var listeners: set<int>
    /** Every listener call: who was called, with which copy of the list. */
    var emitted: seq<(set<int>, seq<Toast>)>
    var timers: seq<(int, int)>

    ghost predicate Valid()
      reads this
    {
      |toasts| <= MAX_ITEMS
    }

    constructor ()
      ensures Valid()
      ensures counter == 1 && toasts == [] && listeners == {} && emitted == [] && timers == []
    {
      counter := 1;
      toasts := [];
      listeners := {};
      emitted := [];
      timers := [];
    }

    /** `notify`: always consume a counter value; prepend, cap, emit; schedule the auto-dismiss. */
    method Notify(t: ToastInput, now: int) returns (id: int)
      requires Valid()
      modifies this
      ensures Valid()
      ensures counter == old(counter) + 1
      ensures id == (if t.id.Some? then t.id.value else old(counter))
      ensures toasts == PushBounded(MakeToast(t, old(counter), now), old(toasts))
      ensures emitted == old(emitted) + [(listeners, toasts)]
      ensures listeners == old(listeners)
      ensures var ttl := t.ttl.GetOr(DEFAULT_TTL);
        timers == if ttl > 0 then old(timers) + [(id, ttl + 10)] else old(timers)
    {
      var item := MakeToast(t, counter, now);
      counter := counter + 1;
      toasts := PushBounded(item, toasts);
      emitted := emitted + [(listeners, toasts)];
      var ttl := item.ttl.GetOr(DEFAULT_TTL);
      if ttl > 0 {
        timers := timers + [(item.id, ttl + 10)];
      }
      id := item.id;
    }

    /** `dismiss`: drop every toast with the id; emit only if the list got shorter. */
    method Dismiss(id: int)
      requires Valid()
      modifies this`toasts, this`emitted
      ensures Valid()
      ensures toasts == RemoveToast(old(toasts), id)
      ensures emitted == if |toasts| != |old(toasts)| then old(emitted) + [(listeners, toasts)] else old(emitted)
    {
      var before := |toasts|;
      toasts := RemoveToast(toasts, id);
      if |toasts| != before {
        emitted := emitted + [(listeners, toasts)];
      }
    }

    /** `clearAll`: empty the list, emitting only when it was non-empty. */
    method ClearAll()
      requires Valid()
      modifies this`toasts, this`emitted
      ensures Valid()
      ensures toasts == []
      ensures emitted == if old(toasts) != [] then old(emitted) + [(listeners, [])] else old(emitted)
    {
      if |toasts| > 0 {
        toasts := [];
        emitted := emitted + [(listeners, toasts)];
      }
    }

    /** `history`: a copy sorted newest first; the stored list is untouched. */
    method History() returns (h: seq<Toast>)
      ensures multiset(h) == multiset(toasts)
      ensures Sorting.Sorted(h, TsDesc)
    {
      h := Sorting.SortBy(toasts, TsDesc);
      Sorting.SortPerm(toasts, TsDesc);
      TsDescIsPreorder();
      Sorting.SortSorted(toasts, TsDesc);
    }

    /** `subscribe`: add the listener and hand it, and only it, a copy of the list. */
    method Subscribe(fn: int)
      modifies this`listeners, this`emitted
      ensures listeners == old(listeners) + {fn}
      ensures emitted == old(emitted) + [({fn}, toasts)]
    {
      listeners := listeners + {fn};
      emitted := emitted + [({fn}, toasts)];
    }

    /** The unsubscribe function `subscribe` returns. */
    method Unsubscribe(fn: int)
      modifies this`listeners
      ensures listeners == old(listeners) - {fn}
    {
      listeners := listeners - {fn};
    }
  }
}
