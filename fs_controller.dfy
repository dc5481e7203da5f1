/**
 * The controller that ties the backend choice to the settings stored under
 * "webos.features.v1" (src/os/fs/controller.ts).  The stored text and its
 * JSON parse are inputs; OPFS availability is the selector's.
 */
module FsController {
  import opened Wrappers
  import opened FsBackend

  const FEAT_KEY: string := "webos.features.v1"

  /**
   * What `JSON.parse` yields for the features text: a parse failure, `null`
   * (reading a property of it throws), or a value whose `fsMode` property is
   * absent or has the given text (any other value reads the same as text
   * other than "opfs" and "idb").
   */
  datatype FeatDoc = Unparseable | NullDoc | Doc(fsMode: Option<string>)

  /** `readFeatures`: `JSON.parse(stored || "{}")`, with `{}` on a parse failure. */
  function ReadFeatures(stored: Option<string>, parse: string -> FeatDoc): (f: FeatDoc)
    ensures stored.None? || stored == Some("") ==> f == parse("{}") || f == Doc(None)
    ensures f != Unparseable
    ensures stored.Some? && stored.value != "" && parse(stored.value) != Unparseable ==> f == parse(stored.value)
  {
    var text := if stored.None? || stored.value == "" then "{}" else stored.value;
    match parse(text)
    case Unparseable => Doc(None)
    case d => d
  }

  /**
   * An empty object has no `fsMode`: with a faithful parser, missing text
   * reads as auto.  An immediate consequence of `ReadFeatures`' contract,
   * kept to name the default the controller starts from.
   */
  lemma MissingFeaturesAreEmpty(parse: string -> FeatDoc)
    requires parse("{}") == Doc(None)
    ensures ReadFeatures(None, parse) == Doc(None)
    ensures ReadFeatures(Some(""), parse) == Doc(None)
  {
  }

  /**
   * `decideBackend`: idb when asked for idb, otherwise (opfs, auto, missing
   * or anything else) OPFS exactly when it is available.  `None` when
   * reading `fsMode` throws (the features value is null).
   */
  function DecideBackend(f: FeatDoc, hasOpfs: bool): (r: Option<Backend>)
    requires f != Unparseable
    ensures r.None? <==> f.NullDoc?
    ensures r == Some(Idb) <==> f.Doc? && (f.fsMode == Some("idb") || !hasOpfs)
    ensures r == Some(Opfs) <==> f.Doc? && f.fsMode != Some("idb") && hasOpfs
  {
    match f
    case NullDoc => None
    case Doc(m) =>
      var mode := if m.None? || m.value == "" then "auto" else m.value;
      if mode == "opfs" then Some(if hasOpfs then Opfs else Idb)
      else if mode == "idb" then Some(Idb)
      else Some(if hasOpfs then Opfs else Idb)
  }

  /** The decision never selects OPFS where it is missing, and "idb" always wins. */
  lemma DecisionRespectsAvailability(f: FeatDoc, hasOpfs: bool)
    requires f != Unparseable
    ensures DecideBackend(f, false) != Some(Opfs)
    ensures DecideBackend(Doc(Some("idb")), hasOpfs) == Some(Idb)
    ensures f.Doc? && f.fsMode != Some("idb") ==> DecideBackend(f, hasOpfs) == DecideBackend(Doc(None), hasOpfs)
  {
  }

  /**
   * The controller state: the `inited` flag, whether the storage listener
   * is installed, and the number of `ensureHome` requests it made.
   */
  class Controller {
    var inited: bool
    var listening: bool
    var homeRequests: nat
    const sel: Selector

    constructor (sel: Selector)
      ensures this.sel == sel && !inited && !listening && homeRequests == 0
    {
      this.sel := sel;
      inited := false;
      listening := false;
      homeRequests := 0;
    }

    /**
     * `initFsController`: on the first call only, apply the stored choice
     * (skipped when deciding throws), ask for the home directory and start
     * listening to storage events.
     */
    method Init(stored: Option<string>, parse: string -> FeatDoc, storeOk: bool)
      requires sel.Valid()
      modifies this, sel
      ensures sel.Valid()
      ensures old(inited) ==> inited && listening == old(listening) && homeRequests == old(homeRequests)
      ensures old(inited) ==> sel.impl == old(sel.impl) && sel.stored == old(sel.stored)
      ensures !old(inited) ==> inited && listening && homeRequests == old(homeRequests) + 1
      ensures !old(inited) ==>
        match DecideBackend(ReadFeatures(stored, parse), sel.hasOpfs)
        case None => sel.impl == old(sel.impl) && sel.stored == old(sel.stored)
        case Some(d) => sel.impl == d && sel.stored == (if storeOk then Some(Name(d)) else old(sel.stored))
    {
      if inited {
        return;
      }
      inited := true;
      var desired := DecideBackend(ReadFeatures(stored, parse), sel.hasOpfs);
      if desired.Some? {
        sel.SetBackend(desired.value, storeOk);
      }
      homeRequests := homeRequests + 1;
      listening := true;
    }

    /**
     * The `storage` listener as intended, reading `getBackend` as the current
     * selection: events for other keys are ignored; for the features key the
     * backend changes only when the decision differs from the current one.
     */
    method OnStorage(key: string, stored: Option<string>, parse: string -> FeatDoc, storeOk: bool)
      requires sel.Valid()
      modifies sel
      ensures sel.Valid()
      ensures !listening || key != FEAT_KEY ==> sel.impl == old(sel.impl) && sel.stored == old(sel.stored)
      ensures listening && key == FEAT_KEY ==>
        match DecideBackend(ReadFeatures(stored, parse), sel.hasOpfs)
        case None => sel.impl == old(sel.impl) && sel.stored == old(sel.stored)
        case Some(d) =>
          if d == old(sel.impl) then sel.impl == old(sel.impl) && sel.stored == old(sel.stored)
          else sel.impl == d && sel.stored == (if storeOk then Some(Name(d)) else old(sel.stored))
    {
      if !listening || key != FEAT_KEY {
        return;
      }
      var desired := DecideBackend(ReadFeatures(stored, parse), sel.hasOpfs);
      if desired.Some? && desired.value != sel.GetBackend() {
        sel.SetBackend(desired.value, storeOk);
      }
    }

    /**
     * The `storage` listener as written: src/os/fs/index.ts exports no
     * `getBackend`, so the comparison at src/os/fs/controller.ts:45 calls an
     * undefined import.  The call throws before `setBackend` is reached and
     * the `catch` swallows it, so no event changes the selection.
     */
    method OnStorageAsWritten(key: string, stored: Option<string>, parse: string -> FeatDoc)
      requires sel.Valid()
      ensures sel.Valid()
      ensures sel.impl == old(sel.impl) && sel.stored == old(sel.stored)
    {
      if listening && key == FEAT_KEY {
        // `readFeatures` and `decideBackend` run; the `getBackend()` call throws.
      }
    }
  }

  /**
   * The listener as written and the intended one part ways: with OPFS
   * available and selected at start-up, another tab storing `fsMode` "idb"
   * leaves OPFS in place as written, but switches to idb as intended.
   */
  method ListenerDiscrepancy() returns (asWritten: Backend, intended: Backend)
    ensures asWritten == Opfs && intended == Idb
  {
    var text := "{\"fsMode\":\"idb\"}";
    var parse := (t: string) => if t == "{}" then Doc(None) else Doc(Some("idb"));
    var s1 := new Selector(true, None);
    var c1 := new Controller(s1);
    c1.Init(None, parse, true);
    c1.OnStorageAsWritten(FEAT_KEY, Some(text), parse);
    asWritten := s1.impl;
    var s2 := new Selector(true, None);
    var c2 := new Controller(s2);
    c2.Init(None, parse, true);
    c2.OnStorage(FEAT_KEY, Some(text), parse, true);
    intended := s2.impl;
  }
}
