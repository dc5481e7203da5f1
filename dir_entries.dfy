/**
 * Directory rows and the ordering both listings use
 * (src/os/apps/terminal/worker.ts `listDir`, src/os/fs/idb.ts `list`):
 * directories before files, then by name.
 */
module DirEntries {
  import opened Strings
  import Sorting

  datatype Kind = File | Dir

  datatype DirEntry = DirEntry(name: string, kind: Kind)

  /**
   * `(a, b) => a.kind === b.kind ? a.name.localeCompare(b.name) : (a.kind === 'dir' ? -1 : 1)`,
   * read as "a may come before b".
   */
  const DirsFirst: (DirEntry, DirEntry) -> bool :=
    (a: DirEntry, b: DirEntry) => if a.kind == b.kind then StrLe(a.name, b.name) else a.kind == Dir

  lemma DirsFirstIsPreorder()
    ensures Sorting.TotalPreorder(DirsFirst)
  {
    forall a: DirEntry, b: DirEntry ensures DirsFirst(a, b) || DirsFirst(b, a) {
      StrLeTotal(a.name, b.name);
    }
    forall a: DirEntry, b: DirEntry, c: DirEntry | DirsFirst(a, b) && DirsFirst(b, c)
      ensures DirsFirst(a, c)
    {
      if a.kind == b.kind && b.kind == c.kind {
        StrLeTrans(a.name, b.name, c.name);
      }
    }
  }

  /** The sort both listings end with. */
  function SortRows(rows: seq<DirEntry>): seq<DirEntry> {
    Sorting.SortBy(rows, DirsFirst)
  }

  /**
   * The sorted listing holds the same rows; every directory precedes every
   * file, and rows of one kind are in name order.
   */
  lemma SortRowsSpec(rows: seq<DirEntry>)
    ensures multiset(SortRows(rows)) == multiset(rows)
    ensures forall i, j :: 0 <= i < j < |SortRows(rows)| ==>
      !(SortRows(rows)[i].kind == File && SortRows(rows)[j].kind == Dir)
    ensures forall i, j :: 0 <= i < j < |SortRows(rows)| && SortRows(rows)[i].kind == SortRows(rows)[j].kind ==>
      StrLe(SortRows(rows)[i].name, SortRows(rows)[j].name)
  {
    Sorting.SortPerm(rows, DirsFirst);
    DirsFirstIsPreorder();
    Sorting.SortSorted(rows, DirsFirst);
    var r := SortRows(rows);
    forall i, j | 0 <= i < j < |r| ensures !(r[i].kind == File && r[j].kind == Dir) {
      assert DirsFirst(r[i], r[j]);
    }
    forall i, j | 0 <= i < j < |r| && r[i].kind == r[j].kind ensures StrLe(r[i].name, r[j].name) {
      assert DirsFirst(r[i], r[j]);
    }
  }
}
