/**
 * The file-system backend switch (src/os/fs/index.ts): which store
 * (`opfs` or `idb`) serves requests, the persisted choice, and the wrapper
 * that falls back to IndexedDB for good when OPFS reports that it cannot
 * write.  What an operation does on a backend is an input: `run(b)` is the
 * outcome the operation would have on backend `b`.
 */
module FsBackend {
  import opened Wrappers
  import opened Strings

  datatype Backend = Opfs | Idb

  /** The value `setItem("fs.backend", …)` stores. */
  function Name(b: Backend): string {
    match b
    case Opfs => "opfs"
    case Idb => "idb"
  }

  const BACKEND_KEY: string := "fs.backend"

  /**
   * A thrown error: its `code` property, if any, and the text
   * `String(e?.message || e || "")` the wrapper inspects.
   */
  datatype FsError = FsError(code: Option<string>, message: string)

  const UNSUPPORTED_CODE: string := "OPFS_WRITE_UNSUPPORTED"
  const UNSUPPORTED_TEXT: string := "opfs:write-unsupported"

  /** `isUnsupported`: the OPFS-cannot-write code, or the marker anywhere in the message. */
  function IsUnsupported(e: FsError): (b: bool)
    ensures b <==> e.code == Some(UNSUPPORTED_CODE) || exists i :: OccursAt(e.message, UNSUPPORTED_TEXT, i)
  {
    ContainsIff(e.message, UNSUPPORTED_TEXT);
    e.code == Some(UNSUPPORTED_CODE) || Contains(e.message, UNSUPPORTED_TEXT)
  }

  /** A message mentioning the marker is unsupported whatever its code and surrounding text. */
  lemma MarkerAnywhere(code: Option<string>, before: string, after: string)
    ensures IsUnsupported(FsError(code, before + UNSUPPORTED_TEXT + after))
  {
    var m := before + UNSUPPORTED_TEXT + after;
    assert m[|before|..|before| + |UNSUPPORTED_TEXT|] == UNSUPPORTED_TEXT;
    assert OccursAt(m, UNSUPPORTED_TEXT, |before|);
  }

  /**
   * The module state: OPFS availability (fixed at load), the selected
   * `impl`, and the `fs.backend` entry of local storage.  Writes to local
   * storage may throw and are then ignored; `storeOk` says whether one
   * succeeds.
   */
  class Selector {
    const hasOpfs: bool
    var impl: Backend
    var stored: Option<string>

    /** OPFS is never selected when it is not available. */
    predicate Valid()
      reads this
    {
      impl == Opfs ==> hasOpfs
    }

    /** `let impl = hasOPFS ? opfs : idb`. */
    constructor (hasOpfs: bool, stored: Option<string>)
      ensures Valid()
      ensures this.hasOpfs == hasOpfs && this.stored == stored
      ensures impl == Opfs <==> hasOpfs
    {
      this.hasOpfs := hasOpfs;
      this.stored := stored;
      impl := if hasOpfs then Opfs else Idb;
    }

    /**
     * The current selection.  `getBackend` is imported by the controller
     * but not exported by src/os/fs/index.ts; this is the reading the
     * controller evidently relies on.
     */
    function GetBackend(): (b: Backend)
      reads this
      requires Valid()
      ensures b == Opfs ==> hasOpfs
    {
      impl
    }

    /** `switchToIdb`: select idb and try to persist the choice. */
    method SwitchToIdb(storeOk: bool)
      modifies this`impl, this`stored
      ensures Valid()
      ensures impl == Idb
      ensures stored == if storeOk then Some(Name(Idb)) else old(stored)
    {
      impl := Idb;
      if storeOk {
        stored := Some(Name(Idb));
      }
    }

    /** `setBackend(mode)`: persist the request; honour "opfs" only when OPFS is available. */
    method SetBackend(mode: Backend, storeOk: bool)
      modifies this`impl, this`stored
      ensures Valid()
      ensures impl == Opfs <==> mode == Opfs && hasOpfs
      ensures stored == if storeOk then Some(Name(mode)) else old(stored)
    {
      if storeOk {
        stored := Some(Name(mode));
      }
      if mode == Opfs && hasOpfs {
        impl := Opfs;
      } else {
        impl := Idb;
      }
    }

    /**
     * One wrapped operation (`list`, `readText`, `writeText`, `mkdir` or
     * `remove`): run it on the selected backend; on an unsupported error
     * switch to idb and run it once more there, whatever that gives; any
     * other error is passed on and the selection is kept.
     */
    method Call<T>(run: Backend -> Result<T, FsError>, storeOk: bool) returns (r: Result<T, FsError>)
      requires Valid()
      modifies this`impl, this`stored
      ensures Valid()
      ensures run(old(impl)).Ok? ==> r == run(old(impl)) && impl == old(impl) && stored == old(stored)
      ensures run(old(impl)).Err? && IsUnsupported(run(old(impl)).error) ==>
        r == run(Idb) && impl == Idb && stored == (if storeOk then Some(Name(Idb)) else old(stored))
      ensures run(old(impl)).Err? && !IsUnsupported(run(old(impl)).error) ==>
        r == run(old(impl)) && impl == old(impl) && stored == old(stored)
    {
      r := run(impl);
      if r.Err? && IsUnsupported(r.error) {
        SwitchToIdb(storeOk);
        r := run(Idb);
      }
    }

    /** `ensureHome` is forwarded to the selected backend without any fallback. */
    method EnsureHome(run: Backend -> Result<(), FsError>) returns (r: Result<(), FsError>)
      requires Valid()
      ensures r == run(impl)
    {
      r := run(impl);
    }
  }

  /** Once on idb, a wrapped call stays on idb and runs the operation there exactly as asked. */
  method IdbIsSticky<T>(s: Selector, run: Backend -> Result<T, FsError>, storeOk: bool) returns (r: Result<T, FsError>)
    requires s.Valid() && s.impl == Idb
    modifies s
    ensures s.impl == Idb && r == run(Idb)
  {
    r := s.Call(run, storeOk);
  }

  /** Without OPFS every wrapped call is served by idb. */
  method NoOpfsMeansIdb<T>(s: Selector, run: Backend -> Result<T, FsError>, storeOk: bool) returns (r: Result<T, FsError>)
    requires s.Valid() && !s.hasOpfs
    modifies s
    ensures s.impl == Idb && r == run(Idb)
  {
    r := s.Call(run, storeOk);
  }
}
