/**
 * JSON documents kept by the system (src/os/system/storage.ts): written to
 * the OPFS file at the normalized path when that works, otherwise to an
 * IndexedDB key-value store under the path exactly as given; read back from
 * the file first and from the key-value store after.  Both stores are maps;
 * how the OPFS handle behaves on a given call is an input.
 */
module SystemStorage {
  import opened Wrappers
  import opened Paths

  /**
   * What the OPFS file handle offers on this call: a usable file (with
   * `getFile` or a sync access handle, for reading and for writing), a
   * handle with neither capability, or a failure somewhere on the way
   * (no OPFS, a missing directory or file, a write that throws).
   */
  datatype Handle = Usable | NoCapability | Throws

  class DocStore {
    /** OPFS files, by normalized path. */
    var files: map<string, string>
    /** The IndexedDB fallback, by the path as the caller wrote it. */
    var fallback: map<string, string>

    constructor ()
      ensures files == map[] && fallback == map[]
    {
      files := map[];
      fallback := map[];
    }

    /** `writeJSON`: the file when the handle is usable, otherwise the fallback store. */
    method WriteJSON(path: string, text: string, h: Handle)
      modifies this
      ensures h == Usable ==> files == old(files)[Normalize(path) := text] && fallback == old(fallback)
      ensures h != Usable ==> files == old(files) && fallback == old(fallback)[path := text]
    {
      if h == Usable {
        files := files[Normalize(path) := text];
        return;
      }
      fallback := fallback[path := text];
    }

    /**
     * `readJSON`: the parsed file when the handle is usable, the file exists
     * and parses; otherwise the parsed fallback entry; the default when the
     * fallback has no entry or it does not parse.
     */
    method ReadJSON<T>(path: string, def: T, h: Handle, parse: string -> Option<T>) returns (r: T)
      ensures h == Usable && Normalize(path) in files && parse(files[Normalize(path)]).Some? ==>
        r == parse(files[Normalize(path)]).value
      ensures !(h == Usable && Normalize(path) in files && parse(files[Normalize(path)]).Some?) ==>
        r == (if path in fallback && parse(fallback[path]).Some? then parse(fallback[path]).value else def)
      ensures path !in fallback && !(h == Usable && Normalize(path) in files) ==> r == def
    {
      if h == Usable && Normalize(path) in files {
        var v := parse(files[Normalize(path)]);
        if v.Some? {
          return v.value;
        }
      }
      if path in fallback {
        var v := parse(fallback[path]);
        if v.Some? {
          return v.value;
        }
        return def;
      }
      return def;
    }
  }

  /**
   * A document written and read back with the same handle behaviour comes
   * back as written, whichever store took it.
   */
  method WriteThenRead<T>(s: DocStore, path: string, text: string, h: Handle, def: T, parse: string -> Option<T>)
    returns (r: T)
    requires parse(text).Some?
    modifies s
    ensures r == parse(text).value
  {
    s.WriteJSON(path, text, h);
    r := s.ReadJSON(path, def, h, parse);
  }

  /**
   * The fallback is keyed by the raw path: a document that fell back under
   * one spelling is not found under any other spelling, even one that
   * normalizes to the same file.
   */
  method FallbackIsByRawPath<T>(s: DocStore, p: string, q: string, text: string, h: Handle, def: T, parse: string -> Option<T>)
    returns (r: T)
    requires p != q && q !in s.fallback
    requires h != Usable
    modifies s
    ensures r == def
  {
    s.WriteJSON(p, text, h);
    r := s.ReadJSON(q, def, h, parse);
  }
}
