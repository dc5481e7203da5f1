/**
 * The title-keyed window-geometry store (src/os/session/session.ts).  The
 * stored text and the JSON parser are inputs: `parse` stands for
 * `JSON.parse` followed by the object test, `serialize` for
 * `JSON.stringify`.  The pending animation-frame write is a field.
 */
module Session {
  import opened Wrappers
  import opened Geometry

  datatype WinGeom = WinGeom(x: real, y: real, w: real, h: real, snapped: Option<SnapSide>)
  type GeomMap = map<string, WinGeom>

  /** What `JSON.parse` makes of the stored text. */
  datatype JsonDoc =
    | Unparseable            // JSON.parse throws
    | NonObject              // null or a primitive
    | Object(geom: GeomMap)  // an object (cast as is)

  const KEY: string := "webos.session.geom.v1"

  /** `loadGeom`: empty or missing text, a parse failure and a non-object all give the empty map. */
  function LoadGeom(stored: Option<string>, parse: string -> JsonDoc): (m: GeomMap)
    ensures stored.None? || stored == Some("") ==> m == map[]
    ensures stored.Some? && stored.value != "" && parse(stored.value).Object? ==> m == parse(stored.value).geom
    ensures stored.Some? && stored.value != "" && !parse(stored.value).Object? ==> m == map[]
  {
    if stored.None? || stored.value == "" then map[]
    else match parse(stored.value)
      case Object(g) => g
      case _ => map[]
  }

  /** `getGeomFor`: the entry under the title, or null. */
  function GetGeomFor(stored: Option<string>, parse: string -> JsonDoc, title: string): (r: Option<WinGeom>)
    ensures r.Some? <==> title in LoadGeom(stored, parse)
    ensures r.Some? ==> r.value == LoadGeom(stored, parse)[title]
  {
    var m := LoadGeom(stored, parse);
    if title in m then Some(m[title]) else None
  }

  /**
   * When the serializer and the parser agree on a map, what the flushed
   * write stores is what the next load returns.  This is an immediate
   * consequence of `LoadGeom`'s contract under that agreement; it is kept
   * to state the save/load round trip in one place.
   */
  lemma LoadAfterWrite(m: GeomMap, serialize: GeomMap -> string, parse: string -> JsonDoc, title: string)
    requires serialize(m) != ""
    requires parse(serialize(m)) == Object(m)
    ensures LoadGeom(Some(serialize(m)), parse) == m
    ensures GetGeomFor(Some(serialize(m)), parse, title) == (if title in m then Some(m[title]) else None)
  {
  }

  /** The stored text and the write scheduled for the next animation frame. */
  class GeomStore {
    var stored: Option<string>
    var pending: Option<GeomMap>

    constructor (initial: Option<string>)
      ensures stored == initial && pending == None
    {
      stored := initial;
      pending := None;
    }

    /** `saveGeom`: cancel any scheduled write and schedule this map instead. */
    method SaveGeom(m: GeomMap)
      modifies this`pending
      ensures pending == Some(m)
    {
      pending := Some(m);
    }

    /**
     * The animation frame: write the pending map (a failing `setItem` is
     * swallowed and leaves the old text) and clear the marker.
     */
    method FrameTick(serialize: GeomMap -> string, writeOk: bool)
      modifies this
      ensures pending == None
      ensures old(pending).Some? && writeOk ==> stored == Some(serialize(old(pending).value))
      ensures old(pending).None? || !writeOk ==> stored == old(stored)
    {
      if pending.Some? {
        if writeOk {
          stored := Some(serialize(pending.value));
        }
        pending := None;
      }
    }
  }

  /** Two saves in one frame: only the later map is written. */
  method SaveTwiceThenFlush(s: GeomStore, a: GeomMap, b: GeomMap, serialize: GeomMap -> string)
    modifies s
    ensures s.stored == Some(serialize(b)) && s.pending == None
  {
    s.SaveGeom(a);
    s.SaveGeom(b);
    s.FrameTick(serialize, true);
  }
}
