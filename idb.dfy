/**
 * The IndexedDB file-system backend (src/os/fs/idb.ts).  The object store is
 * a map from normalized path to file text; directories are not stored and
 * exist only as key prefixes, so `list` reconstructs them from the keys.
 */
module IdbFs {
  import opened Wrappers
  import opened Strings
  import opened Paths
  import opened DirEntries
  import Sorting

  /** `normalize(path).replace(/\/$/, '') + '/'`: the prefix of every key under `path`. */
  function ListBase(path: string): string {
    DropTrailingSlash(Normalize(path)) + "/"
  }

  /** A key strictly below `base` (it starts with `base` and something follows). */
  predicate Listed(base: string, k: string) {
    |base| < |k| && k[..|base|] == base
  }

  /** `k.slice(base.length)`. */
  function Rest(base: string, k: string): string
    requires Listed(base, k)
  {
    k[|base|..]
  }

  /** `rest.split('/')[0]`: the child of `base` the key lies in. */
  function Seg(base: string, k: string): (n: string)
    requires Listed(base, k)
    ensures '/' !in n
  {
    SplitOn(Rest(base, k), '/')[0]
  }

  /** A file when nothing but the name follows `base`, a directory otherwise. */
  function KindAt(base: string, k: string): Kind
    requires Listed(base, k)
  {
    if '/' in Rest(base, k) then Dir else File
  }

  /** The key a child file named `n` would have. */
  lemma ChildFileKey(base: string, n: string)
    requires '/' !in n && n != ""
    ensures Listed(base, base + n)
    ensures Rest(base, base + n) == n && Seg(base, base + n) == n && KindAt(base, base + n) == File
  {
    var k := base + n;
    assert k[..|base|] == base;
    assert k[|base|..] == n;
    SplitOnSingle(n, '/');
  }

  /** A file key is exactly `base` plus its (non-empty) segment; a directory key is longer. */
  lemma KeyOfKind(base: string, k: string)
    requires Listed(base, k)
    ensures KindAt(base, k) == File ==> Seg(base, k) != "" && k == base + Seg(base, k)
    ensures KindAt(base, k) == Dir ==> k != base + Seg(base, k)
  {
    var rest := Rest(base, k);
    assert k == base + rest;
    if KindAt(base, k) == File {
      SplitOnSingle(rest, '/');
    }
  }

  /** The names of a listing, in order. */
  function Names(rows: seq<DirEntry>): seq<string> {
    seq(|rows|, i requires 0 <= i < |rows| => rows[i].name)
  }

  /**
   * What the `seen` map and its insertion order say after the keys `done`:
   * every name comes from a key below `base` and every such key has its
   * name recorded; a name is a file exactly when its own key was seen.
   */
  ghost predicate SeenOk(base: string, done: seq<string>, order: seq<string>, seen: map<string, Kind>) {
    && Sorting.Distinct(order)
    && (forall n :: n in order <==> n in seen)
    && (forall n :: n in seen ==> '/' !in n)
    && (forall n :: n in seen ==> ChildOf(base, done, n))
    && (forall k :: k in done && Listed(base, k) ==> Seg(base, k) in seen)
    && (forall n :: n in seen ==> (seen[n] == File <==> n != "" && base + n in done))
  }

  /** One pass of the loop body: record the key's segment unless it is already a file. */
  function Record(base: string, k: string, order: seq<string>, seen: map<string, Kind>): (seq<string>, map<string, Kind>) {
    if !Listed(base, k) then (order, seen)
    else
      var seg := Seg(base, k);
      var kind := KindAt(base, k);
      if seg !in seen then (order + [seg], seen[seg := kind])
      else if seen[seg] == Dir && kind == File then (order, seen[seg := kind])
      else (order, seen)
  }

  /** The loop body of `list`: set the segment's kind if it is new, or upgrade a directory to a file. */
  method RecordKey(base: string, k: string, order: seq<string>, seen: map<string, Kind>)
    returns (order': seq<string>, seen': map<string, Kind>)
    ensures (order', seen') == Record(base, k, order, seen)
  {
    order', seen' := order, seen;
    if !Listed(base, k) {
      return;
    }
    var seg := Seg(base, k);
    var kind := KindAt(base, k);
    if seg !in seen || (seen[seg] == Dir && kind == File) {
      if seg !in seen {
        order' := order + [seg];
      }
      seen' := seen[seg := kind];
    }
  }

  lemma RecordKeepsSeenOk(base: string, done: seq<string>, k: string, order: seq<string>, seen: map<string, Kind>)
    requires SeenOk(base, done, order, seen)
    ensures SeenOk(base, done + [k], Record(base, k, order, seen).0, Record(base, k, order, seen).1)
  {
    var done' := done + [k];
    var (order', seen') := Record(base, k, order, seen);
    assert forall x :: x in done' <==> x in done || x == k;
    if Listed(base, k) {
      var seg := Seg(base, k);
      KeyOfKind(base, k);
      if seg !in seen {
        assert !(seg != "" && base + seg in done) by {
          if seg != "" && base + seg in done {
            ChildFileKey(base, seg);
          }
        }
        assert forall t :: 0 <= t < |order| ==> order[t] != seg;
      }
      forall n | n in seen' && n != seg
        ensures seen'[n] == File <==> n != "" && base + n in done'
      {
        if n != "" && base + n == k {
          ChildFileKey(base, n);
        }
      }
    } else {
      forall n | n in seen && n != "" ensures base + n != k {
        if n != "" && base + n == k {
          ChildFileKey(base, n);
        }
      }
    }
  }

  /** Some key below `base` lies in the child `n`. */
  predicate ChildOf(base: string, keys: seq<string>, n: string) {
    exists k :: k in keys && Listed(base, k) && Seg(base, k) == n
  }

  /**
   * What `list` promises about its rows: each names a child of `base`
   * holding one of the keys, every key below `base` has its child listed,
   * a row is a file exactly when `base` plus its name is itself a key, no
   * name appears twice, directories precede files and each kind is in name
   * order.
   */
  ghost predicate ListingOk(base: string, keys: seq<string>, rows: seq<DirEntry>) {
    && (forall e :: e in rows ==> ChildOf(base, keys, e.name))
    && (forall k :: k in keys && Listed(base, k) ==> exists e :: e in rows && e.name == Seg(base, k))
    && (forall e :: e in rows ==> (e.kind == File <==> e.name != "" && base + e.name in keys))
    && Sorting.Distinct(Names(rows))
    && (forall i, j :: 0 <= i < j < |rows| ==> !(rows[i].kind == File && rows[j].kind == Dir))
    && (forall i, j :: 0 <= i < j < |rows| && rows[i].kind == rows[j].kind ==> StrLe(rows[i].name, rows[j].name))
  }

  /** Every sorted row is one of the `seen` entries. */
  lemma RowsFromSeen(order: seq<string>, seen: map<string, Kind>, unsorted: seq<DirEntry>)
    requires forall n :: n in order ==> n in seen
    requires |unsorted| == |order|
    requires forall t :: 0 <= t < |order| ==> unsorted[t] == DirEntry(order[t], seen[order[t]])
    ensures multiset(SortRows(unsorted)) == multiset(unsorted)
    ensures forall e :: e in SortRows(unsorted) ==> e.name in seen && e.kind == seen[e.name]
    ensures forall n :: n in order ==> DirEntry(n, seen[n]) in SortRows(unsorted)
  {
    var rows := SortRows(unsorted);
    SortRowsSpec(unsorted);
    forall e | e in rows ensures e.name in seen && e.kind == seen[e.name] {
      assert e in multiset(unsorted);
    }
    forall n | n in order ensures DirEntry(n, seen[n]) in rows {
      var t :| 0 <= t < |order| && order[t] == n;
      assert unsorted[t] in multiset(rows);
    }
  }

  /** Rows built from distinct names keep distinct names once sorted. */
  lemma SortedNamesDistinct(order: seq<string>, seen: map<string, Kind>, unsorted: seq<DirEntry>)
    requires Sorting.Distinct(order)
    requires forall n :: n in order ==> n in seen
    requires |unsorted| == |order|
    requires forall t :: 0 <= t < |order| ==> unsorted[t] == DirEntry(order[t], seen[order[t]])
    ensures Sorting.Distinct(Names(SortRows(unsorted)))
  {
    var rows := SortRows(unsorted);
    SortRowsSpec(unsorted);
    assert Sorting.Distinct(Names(unsorted)) by {
      forall a, b | 0 <= a < b < |unsorted| ensures Names(unsorted)[a] != Names(unsorted)[b] {
        assert order[a] != order[b];
      }
    }
    forall e, f | e in unsorted && f in unsorted && e.name == f.name ensures e == f {
      var a :| 0 <= a < |unsorted| && unsorted[a] == e;
      var b :| 0 <= b < |unsorted| && unsorted[b] == f;
    }
    NamesStayDistinct(unsorted, rows);
  }

  /** The sorted rows built from a complete `seen` map meet the listing's promises. */
  lemma ListingSpec(base: string, keys: seq<string>, order: seq<string>, seen: map<string, Kind>, unsorted: seq<DirEntry>)
    requires SeenOk(base, keys, order, seen)
    requires |unsorted| == |order|
    requires forall t :: 0 <= t < |order| ==> unsorted[t] == DirEntry(order[t], seen[order[t]])
    ensures ListingOk(base, keys, SortRows(unsorted))
  {
    SortRowsSpec(unsorted);
    RowsFromSeen(order, seen, unsorted);
    var rows := SortRows(unsorted);
    forall k | k in keys && Listed(base, k) ensures exists e :: e in rows && e.name == Seg(base, k) {
      assert DirEntry(Seg(base, k), seen[Seg(base, k)]) in rows;
    }
    SortedNamesDistinct(order, seen, unsorted);
  }

  /** The first loop of `list`: the `seen` map over all keys, with its insertion order. */
  method CollectSeen(base: string, keys: seq<string>) returns (order: seq<string>, seen: map<string, Kind>)
    ensures SeenOk(base, keys, order, seen)
  {
    seen := map[];
    order := [];
    var i := 0;
    while i < |keys|
      invariant 0 <= i <= |keys|
      invariant SeenOk(base, keys[..i], order, seen)
    {
      var k := keys[i];
      RecordKeepsSeenOk(base, keys[..i], k, order, seen);
      order, seen := RecordKey(base, k, order, seen);
      assert keys[..i + 1] == keys[..i] + [k];
      i := i + 1;
    }
    assert keys[..i] == keys;
  }

  /** The rows in `seen`'s insertion order. */
  function Entries(order: seq<string>, seen: map<string, Kind>): (rows: seq<DirEntry>)
    requires forall n :: n in order ==> n in seen
    ensures |rows| == |order|
    ensures forall t :: 0 <= t < |order| ==> rows[t] == DirEntry(order[t], seen[order[t]])
  {
    seq(|order|, t requires 0 <= t < |order| => DirEntry(order[t], seen[order[t]]))
  }

  /** The second loop of `list` and the sort after it. */
  method ToRows(order: seq<string>, seen: map<string, Kind>) returns (rows: seq<DirEntry>)
    requires forall n :: n in order ==> n in seen
    ensures rows == SortRows(Entries(order, seen))
  {
    var unsorted: seq<DirEntry> := [];
    var j := 0;
    while j < |order|
      invariant 0 <= j <= |order|
      invariant unsorted == Entries(order[..j], seen)
    {
      unsorted := unsorted + [DirEntry(order[j], seen[order[j]])];
      j := j + 1;
    }
    assert order[..j] == order;
    rows := SortRows(unsorted);
  }

  /**
   * `list(path)` over the store's keys: one row per child of the directory,
   * named by the first segment below it.  A child is a file exactly when its
   * own key is stored, a directory when only deeper keys mention it.  No
   * name is listed twice, directories come first and each kind is in name
   * order.
   */
  method List(path: string, keys: seq<string>) returns (rows: seq<DirEntry>)
    ensures ListingOk(ListBase(path), keys, rows)
  {
    var base := ListBase(path);
    var order, seen := CollectSeen(base, keys);
    rows := ToRows(order, seen);
    ListingSpec(base, keys, order, seen, Entries(order, seen));
  }

  /** Rows whose names are distinct keep distinct names under any reordering. */
  lemma NamesStayDistinct(unsorted: seq<DirEntry>, rows: seq<DirEntry>)
    requires multiset(rows) == multiset(unsorted)
    requires Sorting.Distinct(Names(unsorted))
    requires forall e, f :: e in unsorted && f in unsorted && e.name == f.name ==> e == f
    ensures Sorting.Distinct(Names(rows))
  {
    assert Sorting.Distinct(unsorted) by {
      forall a, b | 0 <= a < b < |unsorted| ensures unsorted[a] != unsorted[b] {
        assert Names(unsorted)[a] != Names(unsorted)[b];
      }
    }
    Sorting.PermKeepsDistinct(unsorted, rows);
    forall a, b | 0 <= a < b < |rows| ensures Names(rows)[a] != Names(rows)[b] {
      assert rows[a] in multiset(unsorted) && rows[b] in multiset(unsorted);
    }
  }

  /** The object store: normalized path to text.  Directories are implicit. */
  class Store {
    var files: map<string, string>

    constructor ()
      ensures files == map[]
    {
      files := map[];
    }

    /** `readText`: the stored text, or the error "not found". */
    method ReadText(path: string) returns (r: Result<string, string>)
      ensures Normalize(path) in files ==> r == Ok(files[Normalize(path)])
      ensures Normalize(path) !in files ==> r == Err("not found")
    {
      var key := Normalize(path);
      if key in files {
        r := Ok(files[key]);
      } else {
        r := Err("not found");
      }
    }

    /** `writeText`: put under the normalized path, replacing any earlier text. */
    method WriteText(path: string, text: string)
      modifies this
      ensures files == old(files)[Normalize(path) := text]
    {
      files := files[Normalize(path) := text];
    }

    /** `remove`: delete exactly the normalized key; the `recursive` flag is ignored. */
    method Remove(path: string, recursive: bool)
      modifies this
      ensures files == old(files) - {Normalize(path)}
    {
      files := files - {Normalize(path)};
    }
  }

  /** Paths that normalize alike name the same file: writing one and reading the other gives the text back. */
  method WriteThenRead(s: Store, p: string, q: string, text: string) returns (r: Result<string, string>)
    requires Normalize(p) == Normalize(q)
    modifies s
    ensures r == Ok(text)
  {
    s.WriteText(p, text);
    r := s.ReadText(q);
  }

  /** After `remove`, reading any spelling of the path fails with "not found". */
  method RemoveThenRead(s: Store, p: string, q: string) returns (r: Result<string, string>)
    requires Normalize(p) == Normalize(q)
    modifies s
    ensures r == Err("not found")
  {
    s.Remove(p, false);
    r := s.ReadText(q);
  }

  /** A written file shows up, as a file, in the listing of its parent directory. */
  lemma WrittenFileIsListed(init: seq<string>, name: string)
    requires AllSegments(init) && IsSegment(name)
    ensures Listed(ListBase("/" + JoinWith(init, '/')), "/" + JoinWith(init + [name], '/'))
    ensures Seg(ListBase("/" + JoinWith(init, '/')), "/" + JoinWith(init + [name], '/')) == name
    ensures KindAt(ListBase("/" + JoinWith(init, '/')), "/" + JoinWith(init + [name], '/')) == File
  {
    var dir := "/" + JoinWith(init, '/');
    NormalizeCanonical(init);
    if init == [] {
      TopLevelText(name);
    } else {
      RootedJoinKeepsEnd(init);
      NestedText(init, name);
    }
    assert ListBase(dir) + name == "/" + JoinWith(init + [name], '/');
    ChildFileKey(ListBase(dir), name);
  }
}
