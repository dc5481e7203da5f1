# webOS core, modelled in Dafny

webOS is a desktop that runs in a browser tab. This project models its core logic:

- **Window manager.** Windows are created, focused, dragged with edge snapping, resized, maximized by double-click and closed from the keyboard.
- **Window-list feed.** Windows are published to subscribers, and the window manager installs its operations.
- **Desktop services.**
  - The global hotkey table.
  - The per-title geometry store with frame-deferred saving.
  - The toast notification centre.
  - The start menu's pins, most-recently-used list, sorted app list and search.
- **File system.**
  - Path normalization and splitting.
  - The IndexedDB backend's directory listing and key-value file store.
  - The OPFS/IndexedDB backend switch, which falls back to IndexedDB when OPFS cannot write.
  - The settings-driven backend controller.
  - The system JSON document store.
- **Terminal.**
  - The in-page line editor.
  - The command worker's line parsing, `cd`, `rm`, `mv`/`cp` and tab completion.
- **Editor.** Language detection from a file name.

## How the model is built

- **Values become datatypes and functions.** This covers geometry, window records, toasts, paths, directory entries, key events and IPC messages.
- **State the source updates in place becomes classes.** The window registry, the window feed, the toast centre, the geometry store, the shell, the line editor, the backend selector, the controller and the stores are classes. Their methods state their entire new state in terms of the specification functions.
- **Loops become methods with invariants.** The two loops of the IndexedDB `list` are methods: key collection and row building. Path normalization is also a loop.

Parts of the environment are inputs:

- browser storage, for both its content and whether a write succeeds;
- what `JSON.parse` yields;
- whether a path exists and its kind;
- the result of a file-system operation on a given backend;
- the current time and the pointer position.

Shared pieces:

- Strings are `seq<char>`, a sequence of Unicode scalar values. The source's strings are UTF-16 code units; the two agree inside the Basic Multilingual Plane (see "## Left out").
- Coordinates are `real`.
- Array sorting is a stable insertion sort with the source's comparator. That comparator is proved to be a total preorder.
- `localeCompare` is modelled as the order of Unicode scalar values (Dafny `char`s).

## Model

| member | source | states |
|---|---|---|
| Strings.SplitJoin | src/os/fs/util.ts:3-5 | splitting a `/`-join of separator-free parts gives the parts back |
| Strings.JoinSplit | src/os/fs/util.ts:3-5 | joining the pieces of a split gives the original text back |
| Strings.SplitOn | src/os/fs/util.ts:3 | `split` yields at least one piece and no piece contains the separator |
| Strings.SplitOnConcat | src/os/fs/util.ts:3 | splitting `a + sep + b` yields `a` followed by the pieces of `b` |
| Strings.ContainsIff | src/os/fs/index.ts:22 | `includes` holds exactly when the text occurs at some position |
| Strings.LastIndexOf | src/os/apps/terminal/worker.ts:424 | `lastIndexOf` returns the last position holding the character, or -1 when it is absent |
| Strings.TrimStart | src/os/apps/terminal/worker.ts:267 | the result is a suffix of the input, all removed characters are white space, and it starts with a non-space character |
| Strings.TrimEnd | src/os/apps/terminal/worker.ts:267 | the result is a prefix of the input, all removed characters are white space, and it ends with a non-space character |
| Strings.StrLeTotal | src/os/fs/idb.ts:65 | the name order used for `localeCompare` relates any two names |
| Strings.StrLeTrans | src/os/fs/idb.ts:65 | the name order is transitive |
| Strings.StrLeAntisym | src/os/fs/idb.ts:65 | names ordered both ways are equal |
| Sorting.SortPerm | src/os/ui/WindowManager.tsx:281 | sorting returns a permutation of its input |
| Sorting.SortSorted | src/os/ui/WindowManager.tsx:281 | under a total preorder, the sorted sequence is ordered |
| Sorting.SortedFirstIsLeast | src/os/ui/WindowManager.tsx:275 | the first element after sorting is in the input and is least in the order |
| Geometry.ClampTo | src/os/ui/WindowManager.tsx:43-47 | the position is never left of or above the bounds; an in-range coordinate is kept; a window no smaller than the minimum and no larger than the bounds ends inside them |
| Geometry.ClampIdempotent | src/os/ui/WindowManager.tsx:43-47 | clamping a clamped position changes nothing |
| Geometry.SnapTarget | src/os/ui/WindowManager.tsx:132-147 | there is no target with Shift or when the pointer is near no edge; otherwise the target is the first edge near the pointer in the order left, right, top, bottom |
| Geometry.SnapRect | src/os/ui/WindowManager.tsx:180-183 | every snapped rectangle is at least the minimum size and is anchored to the bounds on the sides it touches |
| Geometry.SnapRectsTile | src/os/ui/WindowManager.tsx:180-183 | with room for the minimum sizes, snap rectangles lie inside the bounds; left and right halves meet; the right half and the bottom half reach the far edges; top snap is the whole area |
| WindowManager.MaxId | src/os/ui/WindowManager.tsx:93 | the result is at least 0, at least every window id, and is 0 or the id of some window |
| WindowManager.NewWindow | src/os/ui/WindowManager.tsx:95-96 | a new window has the requested title, size and z; it is unsnapped; its saved geometry is its own; and it is placed inside the bounds |
| WindowManager.FocusSpec | src/os/ui/WindowManager.tsx:99 | focusing raises z exactly for windows with the id, each to a fresh counter value above the old top; all other windows are unchanged |
| WindowManager.FocusKeepsBound | src/os/ui/WindowManager.tsx:99 | after focusing, the counter is still at least every window's z |
| WindowManager.FocusUnknown | src/os/ui/WindowManager.tsx:99 | focusing an absent id changes neither the windows nor the counter |
| WindowManager.FocusUnique | src/os/ui/WindowManager.tsx:99 | focusing a window whose id is unique gives it z = old top + 1 and leaves the other windows alone |
| WindowManager.RemoveId | src/os/ui/WindowManager.tsx:100 | closing keeps exactly the windows with other ids, and the length drops by the number of windows with that id |
| WindowManager.RemoveUnknown | src/os/ui/WindowManager.tsx:100 | closing an absent id changes nothing |
| WindowManager.RemoveIdConcat | src/os/ui/WindowManager.tsx:100 | closing distributes over concatenation, so the kept windows stay in their original order |
| WindowManager.RemoveIdOne | src/os/ui/WindowManager.tsx:100 | a single window is kept exactly when its id differs |
| WindowManager.FindWin | src/os/ui/WindowManager.tsx:120 | it finds a window with the id, or reports that none exists |
| WindowManager.Snapped | src/os/ui/WindowManager.tsx:175-185 | snapping saves the current geometry as previous and takes the side's rectangle, keeping identity and z |
| WindowManager.SnapThenUnsnap | src/os/ui/WindowManager.tsx:112-122 | unsnapping a snapped window restores the geometry it had before the snap |
| WindowManager.ToggleMaxTwice | src/os/ui/WindowManager.tsx:194-210 | a double-click maximizes to the top-snap rectangle, and a second one restores the original geometry unsnapped |
| WindowManager.ToggleMaxFromSideSnap | src/os/ui/WindowManager.tsx:194-210 | maximizing a side-snapped window and restoring it leaves the side rectangle, unsnapped |
| WindowManager.ResizeRect | src/os/ui/WindowManager.tsx:223-244 | a resized window stays inside the bounds, is no smaller than the minimum on the dragged axes, and no larger than the room left in the bounds |
| WindowManager.WestResizeKeepsEastEdge | src/os/ui/WindowManager.tsx:234-241 | an in-range west-edge drag keeps the east edge fixed |
| WindowManager.ZOrdersConsistent | src/os/ui/WindowManager.tsx:275 | both z comparators are total preorders |
| WindowManager.ActiveIsTopmost | src/os/ui/WindowManager.tsx:275 | the active window is a window with the greatest z |
| WindowManager.FindIndex | src/os/ui/WindowManager.tsx:282 | `findIndex` returns the first index with the id, or -1 when no window has it |
| WindowManager.TopmostComesLast | src/os/ui/WindowManager.tsx:281 | with distinct windows, the topmost window is the last one in ascending-z order |
| WindowManager.TopmostIdOnlyLast | src/os/ui/WindowManager.tsx:282 | the active id is found only at the last position of the ascending order |
| WindowManager.CycleFocusesLowest | src/os/ui/WindowManager.tsx:280-285 | Ctrl/Meta+Tab focuses a window with the lowest z, because the active window is last and the index wraps |
| WindowManager.KeyDecision | src/os/ui/WindowManager.tsx:274-286 | with no windows nothing happens; Escape or Ctrl/Meta+W closes the active window, and nothing else does; Ctrl/Meta+Tab focuses the cycle target, and nothing else does |
| WindowManager.RestoredTopZ | src/os/ui/WindowManager.tsx:63-64 | the restored counter is at least 1 and at least every window's z, counting a zero z as 1 |
| WindowManager.WindowManager.constructor | src/os/ui/WindowManager.tsx:50-53 | no windows, counter 1, empty bounds, no gesture in progress |
| WindowManager.WindowManager.SetBounds | src/os/ui/WindowManager.tsx:58 | the bounds become the measured viewport |
| WindowManager.WindowManager.RestoreState | src/os/ui/WindowManager.tsx:60-65 | a non-empty saved list replaces the windows and sets the restored counter; an empty one changes nothing |
| WindowManager.WindowManager.Create | src/os/ui/WindowManager.tsx:92-98 | the new id is one more than the largest id and exceeds every existing id; the counter rises by one above every z; the new window is appended |
| WindowManager.WindowManager.Focus | src/os/ui/WindowManager.tsx:99 | windows and counter become the focus function's result |
| WindowManager.WindowManager.Close | src/os/ui/WindowManager.tsx:100 | the windows with the id are removed |
| WindowManager.WindowManager.TitlePointerDown | src/os/ui/WindowManager.tsx:106-125 | the window is focused; a snapped window is restored to its saved geometry; a drag starts from the restored position with no snap target |
| WindowManager.WindowManager.DragMove | src/os/ui/WindowManager.tsx:127-161 | without a drag nothing changes; otherwise the window moves to the clamped position and the snap target is recorded |
| WindowManager.WindowManager.DragUp | src/os/ui/WindowManager.tsx:163-187 | the drag ends; with a snap target the window is snapped to that side |
| WindowManager.WindowManager.TitleDoubleClick | src/os/ui/WindowManager.tsx:194-210 | the window with the id is toggled between maximized and restored |
| WindowManager.WindowManager.ResizePointerDown | src/os/ui/WindowManager.tsx:213-222 | the window is focused and unsnapped without losing its saved geometry; the gesture captures the start rectangle |
| WindowManager.WindowManager.ResizeMove | src/os/ui/WindowManager.tsx:223-244 | without a gesture nothing changes; otherwise the window takes the resize rectangle |
| WindowManager.WindowManager.ResizeUp | src/os/ui/WindowManager.tsx:245-249 | the resize gesture ends |
| WindowManager.WindowManager.OnKey | src/os/ui/WindowManager.tsx:274-286 | the key decision is carried out: close the active window, focus the cycle target, or nothing |
| WmApi.ReduceTop | src/os/wm/api.ts:48 | the reduction returns a window with the greatest z |
| WmApi.ReduceTopIsLastMax | src/os/wm/api.ts:48 | among windows tied on the greatest z, the reduction returns the last one |
| WmApi.TopWindowId | src/os/wm/api.ts:48 | null exactly for an empty list; otherwise the id of a window with the greatest z |
| WmApi.Broadcast | src/os/wm/api.ts:23-26 | one delivery per subscriber, each carrying the same snapshot |
| WmApi.BroadcastReachesAll | src/os/wm/api.ts:25 | with distinct subscribers, each one receives the snapshot exactly once |
| WmApi.Without | src/os/wm/api.ts:21 | unsubscribing keeps exactly the other subscribers |
| WmApi.WithoutKeepsDistinct | src/os/wm/api.ts:21 | the subscriber set stays free of duplicates |
| WmApi.WindowFeed.constructor | src/os/wm/api.ts:11-12 | no provider installed, no subscribers, no deliveries |
| WmApi.WindowFeed.NotifyWindowsUpdate | src/os/wm/api.ts:23-26 | every current subscriber receives the snapshot the provider returns at this call, or [] before a provider is installed |
| WmApi.WindowFeed.SetWindowProvider | src/os/wm/api.ts:14-17 | the provider is installed, then every subscriber receives what it returns now |
| WmApi.WindowFeed.Subscribe | src/os/wm/api.ts:18-22 | a subscriber is added once, and it alone immediately receives a fresh snapshot from the provider, or [] before one is installed |
| WmApi.WindowFeed.Unsubscribe | src/os/wm/api.ts:21 | the result says whether the subscriber was present, and it is removed |
| WmApi.OpsRegistry.constructor | src/os/wm/api.ts:36-41 | every operation starts as the no-op default |
| WmApi.OpsRegistry.SetOps | src/os/wm/api.ts:42-46 | focus and close are always replaced; activeId and command only when supplied |
| Hotkeys.Decide | src/os/ui/Hotkeys.tsx:11-88 | Alt+Tab cycles first; the platform's snap chord with an arrow snaps, maximizes or restores; the launcher chord with Space, R or M opens Start, Run or minimize-all, each exactly when that holds; nothing else acts |
| Hotkeys.CaseInsensitive | src/os/ui/Hotkeys.tsx:12 | keys that lower-case alike decide alike |
| Hotkeys.NoArrowWithoutMeta | src/os/ui/Hotkeys.tsx:57-86 | off a Mac, the only command without the Windows key is cycle-next |
| Session.LoadGeom | src/os/session/session.ts:7-14 | missing or empty text gives an empty map; stored text that parses to an object gives that object; anything else gives an empty map |
| Session.GetGeomFor | src/os/session/session.ts:27-30 | a title's geometry is present exactly when the loaded map has it, and it is that entry |
| Session.LoadAfterWrite | src/os/session/session.ts:16-30 | what a save writes loads back as the same map and per-title geometry |
| Session.GeomStore.constructor | src/os/session/session.ts:16 | nothing is pending |
| Session.GeomStore.SaveGeom | src/os/session/session.ts:17-21 | the new map replaces any pending one |
| Session.GeomStore.FrameTick | src/os/session/session.ts:21-24 | the pending map is written if the write succeeds, and nothing stays pending |
| Session.SaveTwiceThenFlush | src/os/session/session.ts:17-24 | two saves within a frame store only the second map |
| Notifications.MakeToast | src/os/notifications/api.ts:16 | fields the caller supplies override the sequence id, the current time and the info level |
| Notifications.PushBounded | src/os/notifications/api.ts:17 | the new toast comes first, followed by the old list, truncated to 50 entries |
| Notifications.RemoveToast | src/os/notifications/api.ts:27 | keeps exactly the toasts with other ids; the length is unchanged exactly when no toast has the id |
| Notifications.RemoveUnknownToast | src/os/notifications/api.ts:25-29 | dismissing an absent id leaves the list as it was |
| Notifications.RemoveToastConcat | src/os/notifications/api.ts:27 | dismissing distributes over concatenation, so the remaining toasts keep their order |
| Notifications.RemoveToastOne | src/os/notifications/api.ts:27 | a single toast is kept exactly when its id differs |
| Notifications.RemoveToastIdempotent | src/os/notifications/api.ts:25-29 | dismissing twice is the same as dismissing once |
| Notifications.TsDescIsPreorder | src/os/notifications/api.ts:31 | the newest-first comparator is a total preorder |
| Notifications.ToastCenter.constructor | src/os/notifications/api.ts:7-9 | counter 1, no toasts, no listeners |
| Notifications.ToastCenter.Notify | src/os/notifications/api.ts:15-24 | the counter always advances; the returned id is the caller's or the old counter; the toast is pushed and the new list goes to every listener; a dismissal timer is scheduled exactly when the ttl is positive |
| Notifications.ToastCenter.Dismiss | src/os/notifications/api.ts:25-29 | the toast is removed, and every listener gets the new list only if the list changed |
| Notifications.ToastCenter.ClearAll | src/os/notifications/api.ts:30 | the list empties, and every listener gets the empty list only if it was non-empty |
| Notifications.ToastCenter.History | src/os/notifications/api.ts:31 | returns a newest-first permutation of the toasts |
| Notifications.ToastCenter.Subscribe | src/os/notifications/api.ts:12 | the listener is added, and it alone receives the current list |
| Notifications.ToastCenter.Unsubscribe | src/os/notifications/api.ts:12 | the listener is removed |
| StartMenu.LoadList | src/os/ui/StartMenu.tsx:10-12 | a stored list is returned as is; missing or unparseable storage gives an empty list |
| StartMenu.Get | src/os/ui/StartMenu.tsx:46 | the registry entry for an id, or none when no entry has that key |
| StartMenu.RemoveAll | src/os/ui/StartMenu.tsx:13 | keeps exactly the entries other than the id |
| StartMenu.RemoveAbsent | src/os/ui/StartMenu.tsx:42 | removing an id that is absent changes nothing |
| StartMenu.RemoveAllConcat | src/os/ui/StartMenu.tsx:13 | removing distributes over concatenation, so the kept ids stay in order |
| StartMenu.RemoveAllOne | src/os/ui/StartMenu.tsx:13 | a single entry is kept exactly when it differs from the id |
| StartMenu.Dedupe | src/os/ui/StartMenu.tsx:11 | the result has the same members without repeats |
| StartMenu.DedupeFirstOccurrenceOrder | src/os/ui/StartMenu.tsx:11 | `new Set` keeps members in order of first occurrence |
| StartMenu.DedupeDistinct | src/os/ui/StartMenu.tsx:11 | a list without repeats is saved unchanged |
| StartMenu.BumpMRU | src/os/ui/StartMenu.tsx:13 | the id moves to the front and appears once; it is followed by the other ids in order; the length is the other ids plus one, capped at 20 |
| StartMenu.TogglePin | src/os/ui/StartMenu.tsx:42 | the id flips membership and every other id keeps its membership; a pinned id is filtered out, an unpinned one is prepended |
| StartMenu.ToggleTwice | src/os/ui/StartMenu.tsx:42 | toggling a pinned id twice restores the pin list |
| StartMenu.ByNameIsPreorder | src/os/ui/StartMenu.tsx:45 | the by-name comparator is a total preorder |
| StartMenu.AllListSpec | src/os/ui/StartMenu.tsx:45 | the app list is a permutation of the registry, sorted by name |
| StartMenu.Resolve | src/os/ui/StartMenu.tsx:46-47 | the resolved apps are exactly those of listed ids that exist |
| StartMenu.ResolveConcat | src/os/ui/StartMenu.tsx:46-47 | resolving distributes over concatenation, so the apps come in stored order |
| StartMenu.ResolveOne | src/os/ui/StartMenu.tsx:46-47 | a single id resolves to its app, or to nothing when it is not registered |
| StartMenu.Filtered | src/os/ui/StartMenu.tsx:49 | an empty query keeps everything; otherwise exactly the apps whose name or id contains the query, case-insensitively |
| StartMenu.FilteredConcat | src/os/ui/StartMenu.tsx:49 | the search filter distributes over concatenation, so the matches keep the sorted list's order and multiplicity |
| StartMenu.FilteredOne | src/os/ui/StartMenu.tsx:49 | a single app is kept exactly when the query is empty or the app matches it |
| StartMenu.StartMenuState.constructor | src/os/ui/StartMenu.tsx:38 | pins come from storage, and the menu is closed |
| StartMenu.StartMenuState.TogglePinAction | src/os/ui/StartMenu.tsx:42 | the pins toggle, and the de-duplicated list is saved when the storage write succeeds |
| StartMenu.StartMenuState.Spawn | src/os/ui/StartMenu.tsx:43 | the spawn is requested whether or not the kernel throws; the MRU list is bumped when the storage write succeeds; the menu closes |
| Paths.Fold | src/os/fs/util.ts:4 | the stack holds only real segments |
| Paths.NormStack | src/os/fs/util.ts:2-6 | the normalized stack holds only real segments: never empty, `.` or `..` |
| Paths.NormalizeLoop | src/os/fs/util.ts:2-6 | the loop computes the normalized path |
| Paths.NormalizeCanonical | src/os/fs/util.ts:2-6 | a rooted join of real segments is already normal |
| Paths.NormalizeIdempotent | src/os/fs/util.ts:2-6 | normalizing twice equals normalizing once |
| Paths.NormalizeShape | src/os/fs/util.ts:2-6 | the result starts with `/`, is `/` for an empty stack, and splits back into its segments |
| Paths.DotDotAtRoot | src/os/fs/util.ts:4 | `..` at the root stays at the root |
| Paths.NonEmpty | src/os/fs/util.ts:7 | `filter(Boolean)` keeps exactly the non-empty pieces |
| Paths.PiecesOfNormalized | src/os/fs/util.ts:7 | the non-empty pieces of a normalized path are its segments |
| Paths.SplitPath | src/os/fs/util.ts:7 | the root splits into "/" and ""; otherwise the parent is the rooted join of all segments but the last, and the name is the last segment |
| Paths.WorkerSplitPath | src/os/apps/terminal/worker.ts:33-39 | the worker's split agrees with the library's, except that the name is undefined exactly at the root |
| Paths.JoinPath | src/os/apps/terminal/worker.ts:16-20 | an empty or `.` argument gives the base; an absolute argument is normalized on its own; a relative one is normalized after the base |
| Paths.JoinParentName | src/os/apps/terminal/worker.ts:16-20 | joining a name onto a normal parent appends it as a segment |
| Paths.JoinSplitRoundTrip | src/os/apps/terminal/worker.ts:16-39 | outside the root, joining a path's parent and name gives back the normalized path |
| DirEntries.DirsFirstIsPreorder | src/os/apps/terminal/worker.ts:194 | the listing comparator (directories first, then by name) is a total preorder |
| DirEntries.SortRowsSpec | src/os/apps/terminal/worker.ts:194 | sorted rows are a permutation with directories before files, and names ordered within a kind |
| TerminalWorker.SplitWs | src/os/apps/terminal/worker.ts:269 | the white-space split yields at least one piece |
| TerminalWorker.SplitWsNoSpace | src/os/apps/terminal/worker.ts:269 | no piece contains white space |
| TerminalWorker.SplitWsTrimmed | src/os/apps/terminal/worker.ts:267-269 | on trimmed text, no piece is empty |
| TerminalWorker.TrimSpaceRun | src/os/apps/terminal/worker.ts:267 | trimming a whitespace run off a text that then starts with a non-space leaves that text |
| TerminalWorker.SplitWsWord | src/os/apps/terminal/worker.ts:269 | a word without white space is a single piece |
| TerminalWorker.SplitWsConcat | src/os/apps/terminal/worker.ts:269 | a word, a whitespace run and the rest split into the word followed by the pieces of the rest |
| TerminalWorker.ParseLineSpec | src/os/apps/terminal/worker.ts:267-269 | a line is blank exactly when it trims to nothing; otherwise the command and arguments are the trimmed line's white-space pieces |
| TerminalWorker.JoinPathNormal | src/os/apps/terminal/worker.ts:16-20 | every target the shell computes is a normal path |
| TerminalWorker.Shell.constructor | src/os/apps/terminal/worker.ts:298-306 | the shell starts in /home, which is a normal path |
| TerminalWorker.Shell.Cd | src/os/apps/terminal/worker.ts:298-306 | the shell moves only into an existing directory and reports a file or a missing target with the source's messages; the working directory stays normal |
| TerminalWorker.RmArgs | src/os/apps/terminal/worker.ts:349-350 | recursive exactly with `-r`/`--recursive` first; the path is the next argument, and an empty argument means none |
| TerminalWorker.RmDecision | src/os/apps/terminal/worker.ts:348-358 | usage exactly when no path is given; otherwise "missing" exactly when the resolved target does not exist, and removal of that target with the flag when it does |
| TerminalWorker.TransferDecision | src/os/apps/terminal/worker.ts:359-398 | usage exactly when either argument is missing; otherwise "source not found" exactly when the resolved source does not exist; a destination that is not a directory is used as resolved |
| TerminalWorker.TransferIntoDirectory | src/os/apps/terminal/worker.ts:363-368 | moving or copying into an existing directory targets that directory joined with the source's name |
| TerminalWorker.CompletionListsRelativeDir | src/os/apps/terminal/worker.ts:419-430 | a token without `/` lists the working directory; otherwise the directory part is resolved against it |
| TerminalWorker.FirstPrefixed | src/os/apps/terminal/worker.ts:432 | `find` returns the first row whose name starts with the prefix, or none |
| TerminalWorker.Complete | src/os/apps/terminal/worker.ts:416-438 | the completion is the rest of the first matching name, with `/` added for a directory; there is none when the listing fails or nothing matches |
| TerminalInput.Step | src/os/apps/terminal/entry.tsx:35-39 | Ctrl-C clears the line and sends interrupt; Enter sends the line and clears it; Backspace drops the last character and sends nothing; other text is appended |
| TerminalInput.TypingAccumulates | src/os/apps/terminal/entry.tsx:39 | typed text accumulates in order and sends nothing |
| TerminalInput.TypeThenEnter | src/os/apps/terminal/entry.tsx:37-39 | typing chunks then Enter sends exactly their concatenation and leaves an empty line |
| TerminalInput.EnterSends | src/os/apps/terminal/entry.tsx:37 | Enter sends the current line once |
| TerminalInput.ReplayAppend | src/os/apps/terminal/entry.tsx:35-39 | replaying two event runs equals replaying the second from the state the first leaves |
| TerminalInput.BackspaceUndoesKey | src/os/apps/terminal/entry.tsx:38-39 | Backspace undoes one typed character |
| TerminalInput.InterruptAlwaysClears | src/os/apps/terminal/entry.tsx:36 | after Ctrl-C the line is empty and one interrupt has been added |
| TerminalInput.LineEditor.constructor | src/os/apps/terminal/entry.tsx:35 | empty line, nothing sent or echoed |
| TerminalInput.LineEditor.OnData | src/os/apps/terminal/entry.tsx:35-39 | line and messages follow the step function; the echo is `^C\r\n`, `\r\n`, backspace-space-backspace (only when something was deleted), or the data itself |
| IdbFs.Seg | src/os/fs/idb.ts:56 | the first segment of a key's rest contains no `/` |
| IdbFs.ChildFileKey | src/os/fs/idb.ts:52-58 | the key `base + name` lists `name` as a file |
| IdbFs.KeyOfKind | src/os/fs/idb.ts:56-58 | a key is a file row exactly when it is `base` plus its segment |
| IdbFs.RecordKey | src/os/fs/idb.ts:59 | one loop step records the key as the record function does: a new name, or a directory upgraded to a file |
| IdbFs.RecordKeepsSeenOk | src/os/fs/idb.ts:52-60 | the seen map stays exact: every listed key's name is recorded once, and a name is a file exactly when its file key was seen |
| IdbFs.CollectSeen | src/os/fs/idb.ts:51-60 | after the loop, the seen map is exact for all keys |
| IdbFs.Entries | src/os/fs/idb.ts:61-64 | one row per recorded name, in insertion order, with its kind |
| IdbFs.ToRows | src/os/fs/idb.ts:61-65 | the rows are the sorted entries |
| IdbFs.ListingSpec | src/os/fs/idb.ts:48-67 | the sorted rows are exactly the children under the base: distinct names, file exactly when the file key exists, directories first, then by name |
| IdbFs.List | src/os/fs/idb.ts:48-67 | `list` returns exactly the listing the specification describes |
| IdbFs.NamesStayDistinct | src/os/fs/idb.ts:65 | sorting keeps names distinct |
| IdbFs.WrittenFileIsListed | src/os/fs/idb.ts:48-73 | a file written under a directory is listed in it as a file with its name |
| IdbFs.Store.constructor | src/os/fs/idb.ts:5 | the store starts empty |
| IdbFs.Store.ReadText | src/os/fs/idb.ts:68-72 | returns the stored text at the normalized path, or fails with "not found" |
| IdbFs.Store.WriteText | src/os/fs/idb.ts:73 | stores the text at the normalized path |
| IdbFs.Store.Remove | src/os/fs/idb.ts:75 | deletes the normalized path |
| IdbFs.WriteThenRead | src/os/fs/idb.ts:68-73 | text written under one spelling reads back under any spelling with the same normalization |
| IdbFs.RemoveThenRead | src/os/fs/idb.ts:68-75 | after a remove, a read under an equivalent spelling fails with "not found" |
| FsBackend.IsUnsupported | src/os/fs/index.ts:20-23 | unsupported exactly when the code is OPFS_WRITE_UNSUPPORTED or the message contains the marker |
| FsBackend.MarkerAnywhere | src/os/fs/index.ts:22 | the marker is detected wherever it sits in the message |
| FsBackend.Selector.constructor | src/os/fs/index.ts:6-7 | OPFS is selected exactly when it is available |
| FsBackend.Selector.GetBackend | src/os/fs/controller.ts:45 | the selection is never OPFS without OPFS |
| FsBackend.Selector.SwitchToIdb | src/os/fs/index.ts:9-12 | IndexedDB is selected, and the choice is stored when storage accepts it |
| FsBackend.Selector.SetBackend | src/os/fs/index.ts:14-18 | the request is stored when storage accepts it; OPFS is selected exactly when it is asked for and available |
| FsBackend.Selector.Call | src/os/fs/index.ts:26-50 | success passes through; an unsupported error switches to IndexedDB for good and retries there; other errors pass through unchanged |
| FsBackend.Selector.EnsureHome | src/os/fs/index.ts:28 | `ensureHome` goes to the selected backend without fallback |
| FsBackend.IdbIsSticky | src/os/fs/index.ts:26-50 | once on IndexedDB, every call stays there |
| FsBackend.NoOpfsMeansIdb | src/os/fs/index.ts:6-7 | without OPFS, every call is served by IndexedDB |
| FsController.ReadFeatures | src/os/fs/controller.ts:10-12 | missing or empty text parses as `{}`; a parse failure gives `{}`; otherwise the parse |
| FsController.MissingFeaturesAreEmpty | src/os/fs/controller.ts:11 | missing settings read as an empty object |
| FsController.DecideBackend | src/os/fs/controller.ts:14-21 | "idb" or no OPFS gives IndexedDB; anything else with OPFS gives OPFS; a null document throws |
| FsController.DecisionRespectsAvailability | src/os/fs/controller.ts:14-21 | OPFS is never chosen where it is missing; "idb" always wins; any other mode decides as auto |
| FsController.Controller.constructor | src/os/fs/controller.ts:23 | not initialized, not listening |
| FsController.Controller.Init | src/os/fs/controller.ts:25-49 | runs once: applies the decided backend unless deciding throws, requests the home directory once, and starts listening |
| FsController.Controller.OnStorage | src/os/fs/controller.ts:40-48 | the intended listener (see "## Findings"): only a features-key event while listening acts; the backend changes only when the decision differs from the current selection |
| FsController.Controller.OnStorageAsWritten | src/os/fs/controller.ts:40-48 | the listener as written: the call of the never-exported `getBackend` throws inside the `try`, so no event changes the selection or the stored choice |
| FsController.ListenerDiscrepancy | src/os/fs/controller.ts:45 | with OPFS available and selected, a stored `fsMode` of "idb" leaves OPFS in place as written but selects idb as intended |
| SystemStorage.DocStore.constructor | src/os/system/storage.ts:4-5 | both stores start empty |
| SystemStorage.DocStore.WriteJSON | src/os/system/storage.ts:85-114 | a usable handle writes the file at the normalized path; otherwise the fallback store takes the raw path |
| SystemStorage.DocStore.ReadJSON | src/os/system/storage.ts:116-145 | a usable, existing, parseable file wins; else a parseable fallback entry; else the default |
| SystemStorage.WriteThenRead | src/os/system/storage.ts:85-145 | a document reads back as written, whichever store took it |
| SystemStorage.FallbackIsByRawPath | src/os/system/storage.ts:113-140 | a document that fell back under one spelling is not found under another |
| EditorLang.LangOf | src/os/apps/editor/entry.tsx:41-49 | each language is chosen exactly for its extensions; plaintext exactly for the rest |
| EditorLang.LastDotDecides | src/os/apps/editor/entry.tsx:40 | only the text after the last dot decides, lower-cased |
| EditorLang.NoDotIsWholePath | src/os/apps/editor/entry.tsx:40 | a name without a dot is itself the extension |
| EditorLang.CaseInsensitive | src/os/apps/editor/entry.tsx:40 | extensions that lower-case alike give the same language |
| EditorLang.UpperCaseTsx | src/os/apps/editor/entry.tsx:40-42 | `.TSX` is TypeScript |

## Where the code and its description differ (the model follows the code)

- Snapping has only left, right, top and bottom. There are no corner snaps and no separate maximize kind; maximize is the top snap.
- A double-click on a side-snapped window saves the snapped rectangle as the previous geometry. The next restore therefore returns to the side rectangle, not to the pre-snap geometry (`ToggleMaxFromSideSnap`).
- A west or north resize moves the origin by the raw pointer delta even when the size is held at the minimum.
- Windows are not re-clamped when the viewport bounds change.
- `create` does not reuse geometry stored for the title. It does not raise a size below MIN_W/MIN_H. Nothing tiles windows.
- `getBackend` is imported by src/os/fs/controller.ts but not exported by src/os/fs/index.ts. As written, the storage listener therefore never changes the backend (see "## Findings"). `Selector.GetBackend` models the current selection, which the controller evidently means, and the rest of the model uses the intended listener.
- The worker's `splitPath` leaves the name undefined at the root, while src/os/fs/util.ts gives "".

## Left out

- Rendering, CSS, pointer capture and the snap overlay are not modelled. The `requestAnimationFrame` coalescing of drag updates is not modelled either: each move is applied at once.
- The render-time in-place `wins.sort` (src/os/ui/WindowManager.tsx:299) is not modelled. The window list stays in insertion order. When ids are unique, every use of it in the model is order-independent or sorts a copy; with duplicate ids (see the Create line), `FindWin` and `FocusZ` depend on the order.
- Create (WindowManager.WindowManager.Create): the model reads the current window list and bounds. The source reads the list and bounds of the last render (src/os/ui/WindowManager.tsx:93-95). Two creates with no re-render between them therefore get the same id in the source, while the model always issues a fresh id. The model assumes a re-render between creates.
- WindowManager.WindowManager.TitlePointerDown: the `Math.round` fallback geometry for a snapped window without saved geometry is not modelled. Every window carries saved geometry from creation on.
- WindowManager.WindowManager.TitleDoubleClick: the same `Math.round` fallback is not modelled, for the same reason.
- Viewport measurement (`getScreenDetails`, `visualViewport`) is I/O. The bounds are an input to `SetBounds`.
- Saving window state to `/system/state.json` on every change is the document store's `WriteJSON`. It is not wired into each window operation.
- Kernel, IPC broadcast and process spawning are outside this model. `spawn` is recorded as a request.
- Timers are not modelled. `Notify` records the dismissal it schedules, but the timer does not fire in the model.
- Subscriber and listener exceptions are swallowed by the source. The model records every delivery.
- GetGeomFor (Session.GetGeomFor): `m[title] || null` (src/os/session/session.ts:29) also finds members the parsed object inherits, such as `constructor` or `toString`. The model looks titles up only in the stored map, so for those titles it answers none where the source returns the inherited value.
- StartMenu.Get (and StartMenu.Resolve, StartMenu.ResolveOne): `apps[id]` (src/os/ui/StartMenu.tsx:46-47) reads a plain object, so it also finds inherited members for ids such as `constructor` or `toString`. Those values are truthy and survive `.filter(Boolean)`. The model looks ids up only in the registry map, so a stored pin or MRU id of that name resolves to nothing here but to an entry in the source.
- Session.LoadGeom: the parse result is abstracted as object or non-object, so field-level validation of stored geometry is not modelled (the source does none either).
- StartMenu.LoadList: stored JSON that parses to a non-array value is not modelled. It is treated like a stored list or like nothing.
- Registry loading through dynamic `import` is I/O. The registry is an input.
- Lower-casing is ASCII only. For the editor's extensions this is exact: the only non-ASCII character that lower-cases into ASCII is KELVIN SIGN, which becomes `k`, and no listed extension contains `k`.
- `localeCompare` is modelled as the order of Unicode scalar values, not locale collation. Outside the Basic Multilingual Plane this also differs from UTF-16 code-unit order: U+10000 sorts after U+FF61 here, but before it as code units.
- TerminalInput.Step (and TerminalInput.LineEditor.OnData, TerminalInput.BackspaceUndoesKey): a character outside the Basic Multilingual Plane is one `char` here but two UTF-16 code units in the source. Backspace's `input.slice(0, -1)` (src/os/apps/terminal/entry.tsx:38) drops only the low surrogate and leaves a lone high surrogate, while the model drops the whole character; `BackspaceUndoesKey` holds for such characters here but not in the source.
- OPFS directory handles, `ensureDir`/`getDir` walking, `opfs.ts`, and the worker's own OPFS routines (`listDir`, `removePath`, `moveDir`, `copyDir`, `moveFile`, `copyFile`, `exists`) are I/O. Their outcomes are inputs: a kind-of-path function, a listing function, and a run-on-backend function.
- The remaining terminal commands (`help`, `ls`, `pwd`, `mkdir`, `touch`, `cat`, `write`, `stat`, `clear`) only print or forward to the file system. They are not modelled.
- IndexedDB `mkdir` and `ensureHome` are no-ops in the source, because directories are implicit. IdbFs.Store.Remove ignores `recursive`, as the source does.
- IdbFs.List takes the result of `getAllKeys` as its keys argument. Transaction errors are not modelled.
- SystemStorage.DocStore.ReadJSON and WriteJSON do not model IndexedDB errors. The fallback store always succeeds.
- Local storage write failures are modelled by a `storeOk` flag in FsBackend.Selector, FsController.Controller and StartMenu.StartMenuState.
- FsController.Controller.Init counts `ensureHome` requests; what `ensureHome` does on the backend is I/O.
- FsController.DecideBackend: a non-string `fsMode` is folded into "any other text", which decides as auto, as the source does.
- The editor UI, Monaco workers, diagnostics, settings, task manager, explorer and other apps are outside this model.

## Findings

| source | as written | input that shows it | evidently intended | confidence | as-written member | corrected member |
|---|---|---|---|---|---|---|
| src/os/fs/controller.ts:45 | `getBackend` is imported from src/os/fs/index.ts, which exports only `setBackend` and `fs`. Under native modules the import fails to link; where it becomes `undefined`, the call throws and the `catch` at controller.ts:46 swallows it, so the `storage` listener never changes the backend | OPFS available and selected at start-up; another tab stores `{"fsMode":"idb"}` under "webos.features.v1" | the listener compares the decision with the current selection and switches to idb | high, from reading the two files; not executed | FsController.Controller.OnStorageAsWritten, FsController.ListenerDiscrepancy | FsController.Controller.OnStorage |
