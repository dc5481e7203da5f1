/**
 * The start menu's list bookkeeping (src/os/ui/StartMenu.tsx): pinned apps,
 * the most-recently-used list, the derived lists and the search filter.
 * localStorage slots are abstracted to what `JSON.parse` makes of them.
 */
module StartMenu {
  import opened Wrappers
  import opened Strings
  import Sorting

  datatype AppMeta = AppMeta(id: string, name: string)

  /** One registry property, in the object's own key order. */
  datatype Entry = Entry(key: string, meta: AppMeta)
  type Registry = seq<Entry>

  /** A stored list: nothing (or ""), text `JSON.parse` rejects, or a list of ids. */
  datatype ListSlot = Missing | Garbled | Items(ids: seq<string>)

  const MRU_LIMIT: nat := 20

  /** `loadPins` / `loadMRU`: the stored list, or [] when missing or unparseable. */
  function LoadList(slot: ListSlot): (r: seq<string>)
    ensures slot.Items? ==> r == slot.ids
    ensures !slot.Items? ==> r == []
  {
    if slot.Items? then slot.ids else []
  }

  /** `apps[id]`: the value of the first property with that key. */
  function Get(reg: Registry, id: string): (r: Option<AppMeta>)
    ensures r.Some? ==> Entry(id, r.value) in reg
    ensures r.None? ==> forall e :: e in reg ==> e.key != id
    decreases |reg|
  {
    if reg == [] then None
    else if reg[0].key == id then Some(reg[0].meta)
    else Get(reg[1..], id)
  }

  /** `p.filter(x => x !== id)`. */
  function RemoveAll(p: seq<string>, id: string): (r: seq<string>)
    ensures forall x :: x in r <==> x in p && x != id
    ensures |r| <= |p|
    decreases |p|
  {
    if p == [] then []
    else if p[0] == id then RemoveAll(p[1..], id)
    else [p[0]] + RemoveAll(p[1..], id)
  }

  /**
   * `filter` keeps the order of what it keeps: it distributes over
   * concatenation (with `RemoveAllOne` this fixes the result entirely).
   */
  lemma {:induction false} RemoveAllConcat(p: seq<string>, q: seq<string>, id: string)
    ensures RemoveAll(p + q, id) == RemoveAll(p, id) + RemoveAll(q, id)
    decreases |p|
  {
    if p == [] {
      assert p + q == q;
    } else {
      assert (p + q)[1..] == p[1..] + q;
      RemoveAllConcat(p[1..], q, id);
    }
  }

  /** A single entry is kept exactly when it differs from the id. */
  lemma RemoveAllOne(x: string, id: string)
    ensures RemoveAll([x], id) == if x == id then [] else [x]
  {
    assert [x][1..] == [];
  }

  lemma {:induction false} RemoveAbsent(p: seq<string>, id: string)
    requires id !in p
    ensures RemoveAll(p, id) == p
    decreases |p|
  {
    if p != [] {
      RemoveAbsent(p[1..], id);
      assert p == [p[0]] + p[1..];
    }
  }

  predicate Distinct(p: seq<string>) {
    forall i, j :: 0 <= i < j < |p| ==> p[i] != p[j]
  }

  /** Position of the first occurrence of `x` in `p`. */
  function FirstIndex(p: seq<string>, x: string): (k: nat)
    requires x in p
    ensures k < |p| && p[k] == x && x !in p[..k]
    decreases |p|
  {
    if p[0] == x then 0 else 1 + FirstIndex(p[1..], x)
  }

  lemma {:induction false} FirstIndexSnoc(p: seq<string>, y: string, x: string)
    requires x in p
    ensures FirstIndex(p + [y], x) == FirstIndex(p, x)
    decreases |p|
  {
    if p[0] != x {
      assert (p + [y])[1..] == p[1..] + [y];
      FirstIndexSnoc(p[1..], y, x);
    }
  }

  /** `[...new Set(p)]`: each id once, in order of first occurrence. */
  function Dedupe(p: seq<string>): (r: seq<string>)
    ensures forall x :: x in r <==> x in p
    ensures Distinct(r)
    decreases |p|
  {
    if p == [] then []
    else
      var d := Dedupe(p[..|p| - 1]);
      var last := p[|p| - 1];
      assert forall x :: x in p <==> x in p[..|p| - 1] || x == last;
      if last in d then d else d + [last]
  }

  /** The deduplicated list is ordered by first occurrence in the input. */
  lemma {:induction false} DedupeFirstOccurrenceOrder(p: seq<string>)
    ensures forall i, j :: 0 <= i < j < |Dedupe(p)| ==>
      FirstIndex(p, Dedupe(p)[i]) < FirstIndex(p, Dedupe(p)[j])
    decreases |p|
  {
    if p != [] {
      var pre := p[..|p| - 1];
      var last := p[|p| - 1];
      assert p == pre + [last];
      DedupeFirstOccurrenceOrder(pre);
      var d := Dedupe(pre);
      forall x | x in d ensures FirstIndex(p, x) == FirstIndex(pre, x) {
        FirstIndexSnoc(pre, last, x);
      }
      if last !in d {
        assert last !in pre;
        assert FirstIndex(p, last) == |p| - 1;
        forall i, j | 0 <= i < j < |d| + 1 ensures
          FirstIndex(p, (d + [last])[i]) < FirstIndex(p, (d + [last])[j])
        {
          assert (d + [last])[i] == d[i];
          if j < |d| {
            assert (d + [last])[j] == d[j];
          }
        }
      }
    }
  }

  /** A list without repeats is its own deduplication. */
  lemma {:induction false} DedupeDistinct(p: seq<string>)
    requires Distinct(p)
    ensures Dedupe(p) == p
    decreases |p|
  {
    if p != [] {
      var pre := p[..|p| - 1];
      DedupeDistinct(pre);
      assert p[|p| - 1] !in pre;
      assert p == pre + [p[|p| - 1]];
    }
  }

  /** `bumpMRU` on the loaded list: the id moves to the front, the list keeps at most 20 entries. */
  function BumpMRU(cur: seq<string>, id: string): (r: seq<string>)
    ensures |r| == if |RemoveAll(cur, id)| + 1 <= MRU_LIMIT then |RemoveAll(cur, id)| + 1 else MRU_LIMIT
    ensures r[0] == id && id !in r[1..]
    ensures r[1..] == RemoveAll(cur, id)[..|r| - 1]
  {
    var rest := RemoveAll(cur, id);
    var full := [id] + rest;
    if |full| <= MRU_LIMIT then
      assert full[1..] == rest;
      full
    else
      assert full[..MRU_LIMIT][1..] == rest[..MRU_LIMIT - 1];
      assert forall x :: x in rest[..MRU_LIMIT - 1] ==> x in rest;
      assert id !in rest;
      assert id !in rest[..MRU_LIMIT - 1];
      full[..MRU_LIMIT]
  }

  /** `togglePin`: remove every occurrence of a pinned id, otherwise pin it at the front. */
  function TogglePin(p: seq<string>, id: string): (r: seq<string>)
    ensures id in r <==> id !in p
    ensures forall x :: x != id ==> (x in r <==> x in p)
    ensures id !in p ==> r == [id] + p
    ensures id in p ==> r == RemoveAll(p, id)
  {
    if id in p then RemoveAll(p, id) else [id] + p
  }

  /** Pinning and then unpinning an id that was not pinned restores the list. */
  lemma ToggleTwice(p: seq<string>, id: string)
    requires id !in p
    ensures TogglePin(TogglePin(p, id), id) == p
  {
    RemoveAbsent(p, id);
  }

  /** `localeCompare`, as an order on names. */
  const ByName: (AppMeta, AppMeta) -> bool := (a: AppMeta, b: AppMeta) => StrLe(a.name, b.name)

  lemma ByNameIsPreorder()
    ensures Sorting.TotalPreorder(ByName)
  {
    forall a: AppMeta, b: AppMeta ensures ByName(a, b) || ByName(b, a) {
      StrLeTotal(a.name, b.name);
    }
    forall a: AppMeta, b: AppMeta, c: AppMeta | ByName(a, b) && ByName(b, c) ensures ByName(a, c) {
      StrLeTrans(a.name, b.name, c.name);
    }
  }

  function Values(reg: Registry): seq<AppMeta> {
    seq(|reg|, i requires 0 <= i < |reg| => reg[i].meta)
  }

  /** `allList`: the registry's apps sorted by name. */
  function AllList(reg: Registry): seq<AppMeta> {
    Sorting.SortBy(Values(reg), ByName)
  }

  /** `allList` holds every registered app once and is ordered by name. */
  lemma AllListSpec(reg: Registry)
    ensures multiset(AllList(reg)) == multiset(Values(reg))
    ensures Sorting.Sorted(AllList(reg), ByName)
  {
    Sorting.SortPerm(Values(reg), ByName);
    ByNameIsPreorder();
    Sorting.SortSorted(Values(reg), ByName);
  }

  /** `ids.map(id => apps[id]).filter(Boolean)`: stored order, unknown ids skipped. */
  function Resolve(ids: seq<string>, reg: Registry): (r: seq<AppMeta>)
    ensures |r| <= |ids|
    ensures forall m :: m in r <==> exists id :: id in ids && Get(reg, id) == Some(m)
    decreases |ids|
  {
    if ids == [] then []
    else
      var rest := Resolve(ids[1..], reg);
      assert forall id :: id in ids <==> id == ids[0] || id in ids[1..];
      match Get(reg, ids[0])
      case Some(m) => [m] + rest
      case None => rest
  }

  /** Resolving keeps the stored order: it distributes over concatenation, one id at a time. */
  lemma {:induction false} ResolveConcat(p: seq<string>, q: seq<string>, reg: Registry)
    ensures Resolve(p + q, reg) == Resolve(p, reg) + Resolve(q, reg)
    decreases |p|
  {
    if p == [] {
      assert p + q == q;
    } else {
      assert (p + q)[1..] == p[1..] + q;
      ResolveConcat(p[1..], q, reg);
    }
  }

  /** A single id resolves to its app, or to nothing when it is not registered. */
  lemma ResolveOne(id: string, reg: Registry)
    ensures Resolve([id], reg) == if Get(reg, id).Some? then [Get(reg, id).value] else []
  {
    assert [id][1..] == [];
  }

  /** The search test: name or id contains the query, ignoring case. */
  predicate Matches(m: AppMeta, q: string) {
    Contains(LowerStr(m.name), LowerStr(q)) || Contains(LowerStr(m.id), LowerStr(q))
  }

  /** `filtered`: everything for an empty query, otherwise the matching apps in list order. */
  function Filtered(all: seq<AppMeta>, q: string): (r: seq<AppMeta>)
    ensures q == [] ==> r == all
    ensures forall m :: m in r <==> m in all && (q == [] || Matches(m, q))
    ensures |r| <= |all|
    decreases |all|
  {
    if q == [] then all
    else if all == [] then []
    else
      var rest := Filtered(all[1..], q);
      assert forall m :: m in all <==> m == all[0] || m in all[1..];
      if Matches(all[0], q) then [all[0]] + rest else rest
  }

  /** The search filter works piece by piece, so the matches keep the list's order. */
  lemma {:induction false} FilteredConcat(a: seq<AppMeta>, b: seq<AppMeta>, q: string)
    ensures Filtered(a + b, q) == Filtered(a, q) + Filtered(b, q)
    decreases |a|
  {
    if q == [] {
    } else if a == [] {
      assert a + b == b;
    } else {
      assert (a + b)[0] == a[0] && (a + b)[1..] == a[1..] + b;
      FilteredConcat(a[1..], b, q);
      if Matches(a[0], q) {
        assert [a[0]] + (Filtered(a[1..], q) + Filtered(b, q)) == ([a[0]] + Filtered(a[1..], q)) + Filtered(b, q);
      }
    }
  }

  /** One app is kept exactly when the query is empty or it matches. */
  lemma FilteredOne(m: AppMeta, q: string)
    ensures Filtered([m], q) == if q == [] || Matches(m, q) then [m] else []
  {
    assert [m][1..] == [];
  }

  /** The start menu's state: the pin list in view, the two storage slots and whether it is open. */
  class StartMenuState {
    var pins: seq<string>
    var pinSlot: ListSlot
    var mruSlot: ListSlot
    var open: bool
    var spawnRequests: seq<string>

    constructor (pinStored: ListSlot, mruStored: ListSlot)
      ensures pins == LoadList(pinStored) && pinSlot == pinStored && mruSlot == mruStored
      ensures !open && spawnRequests == []
    {
      pins := LoadList(pinStored);
      pinSlot := pinStored;
      mruSlot := mruStored;
      open := false;
      spawnRequests := [];
    }

    /**
     * `togglePin`: the view gets the toggled list, storage its deduplication
     * (`savePins`) when `setItem` succeeds; a failing write is swallowed.
     */
    method TogglePinAction(id: string, storeOk: bool)
      modifies this`pins, this`pinSlot
      ensures pins == TogglePin(old(pins), id)
      ensures pinSlot == if storeOk then Items(Dedupe(pins)) else old(pinSlot)
    {
      pins := TogglePin(pins, id);
      if storeOk {
        pinSlot := Items(Dedupe(pins));
      }
    }

    /**
     * `spawn`: ask the kernel (whether or not it throws, the throw is
     * swallowed and the rest runs), bump the MRU list loaded from storage
     * when `setItem` succeeds, and close the menu.
     */
    method Spawn(id: string, storeOk: bool)
      modifies this`mruSlot, this`open, this`spawnRequests
      ensures spawnRequests == old(spawnRequests) + [id]
      ensures mruSlot == if storeOk then Items(BumpMRU(LoadList(old(mruSlot)), id)) else old(mruSlot)
      ensures !open
    {
      spawnRequests := spawnRequests + [id];
      if storeOk {
        mruSlot := Items(BumpMRU(LoadList(mruSlot), id));
      }
      open := false;
    }
  }
}
