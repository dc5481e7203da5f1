/**
 * The global keyboard shortcut table (src/os/ui/Hotkeys.tsx): one keydown
 * event, the platform and the modifier state decide at most one action.
 */
module Hotkeys {
  import opened Wrappers
  import opened Strings

  datatype HotkeyAction =
    | NoHotkey
    | Command(name: string)  // forwarded to `ops.command`
    | ToggleStart
    | Run

  datatype KeyEvent = KeyEvent(key: string, alt: bool, ctrl: bool, meta: bool)

  /** The command an arrow key stands for, for either platform's snap chord. */
  function ArrowCommand(k: string): Option<string> {
    if k == "arrowleft" then Some("snap-left")
    else if k == "arrowright" then Some("snap-right")
    else if k == "arrowup" then Some("maximize")
    else if k == "arrowdown" then Some("restore")
    else None
  }

  /** The modifier that arms the Space/R/M bindings: Option on a Mac, the Windows key elsewhere. */
  predicate LauncherChord(isMac: bool, e: KeyEvent) {
    if isMac then e.alt else e.meta
  }

  /** The modifier that arms the arrow bindings. */
  predicate SnapChord(isMac: bool, e: KeyEvent) {
    if isMac then (e.ctrl && e.alt) || e.meta else e.meta
  }

  /** The `onKey` decision chain, on the lower-cased key. */
  function Decide(isMac: bool, e: KeyEvent): (r: HotkeyAction)
    // Alt+Tab cycles on every platform, before anything else.
    ensures e.alt && LowerStr(e.key) == "tab" ==> r == Command("cycle-next")
    // Arrows with the platform's snap chord.
    ensures !(e.alt && LowerStr(e.key) == "tab") && SnapChord(isMac, e) && ArrowCommand(LowerStr(e.key)).Some?
      ==> r == Command(ArrowCommand(LowerStr(e.key)).value)
    // Space / R / M with the platform's launcher chord.
    ensures r == ToggleStart <==> LauncherChord(isMac, e) && LowerStr(e.key) == " "
    ensures r == Run <==> LauncherChord(isMac, e) && LowerStr(e.key) == "r"
    ensures r == Command("minimize-all") <==> LauncherChord(isMac, e) && LowerStr(e.key) == "m"
    // Nothing else produces an action.
    ensures r != NoHotkey <==>
      (e.alt && LowerStr(e.key) == "tab")
      || (SnapChord(isMac, e) && ArrowCommand(LowerStr(e.key)).Some?)
      || (LauncherChord(isMac, e) && LowerStr(e.key) in {" ", "r", "m"})
  {
    var key := LowerStr(e.key);
    if e.alt && key == "tab" then Command("cycle-next")
    else if isMac then
      var macSnapChord := (e.ctrl && e.alt) || e.meta;
      if macSnapChord && ArrowCommand(key).Some? then Command(ArrowCommand(key).value)
      else if e.alt && key == " " then ToggleStart
      else if e.alt && key == "r" then Run
      else if e.alt && key == "m" then Command("minimize-all")
      else NoHotkey
    else if e.meta then
      if ArrowCommand(key).Some? then Command(ArrowCommand(key).value)
      else if key == "m" then Command("minimize-all")
      else if key == " " then ToggleStart
      else if key == "r" then Run
      else NoHotkey
    else NoHotkey
  }

  /** Keys are compared lower-cased: two spellings that lower-case alike decide alike. */
  lemma CaseInsensitive(isMac: bool, e: KeyEvent, key2: string)
    requires LowerStr(key2) == LowerStr(e.key)
    ensures Decide(isMac, e.(key := key2)) == Decide(isMac, e)
  {
  }

  /** Off a Mac, no arrow command without the Windows key. */
  lemma NoArrowWithoutMeta(e: KeyEvent)
    requires !e.meta
    ensures !Decide(false, e).Command? || Decide(false, e).name == "cycle-next"
  {
  }
}
