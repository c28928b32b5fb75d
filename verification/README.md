# Sandman editor core, modelled in Dafny

Sandman is a block-structured code notebook. Its browser front end edits every
block of a document in its own Monaco editor. A native macOS host wraps the
front end with a file browser and document tabs. This project models five
pieces of sequential logic from those two front ends as pure Dafny functions
over immutable datatypes, and proves properties about them.

- `history.dfy`, module `History`: the page-wide undo/redo timeline that all
  editors share (`GlobalUndoManager`). It has one undo stack and one redo
  stack, capped at 100 operations. Recording a change clears redo. Undo and
  redo move one operation between the stacks and write its before/after
  content back into the block's editor. A re-entrancy flag stops those writes
  from being recorded again. Unregistering an editor purges its operations.
  A restored cursor is clamped to the new buffer.
- `document_keys.dfy`, module `DocumentKeys`: the key routing of the document
  page (`DocumentHook`). It maps a key event and a focus snapshot (editors with
  their text-focus flag, plus the selected block) to the messages pushed to the
  server: run-block, run-block-and-next, run-all-blocks, focus-block,
  navigate-up/down, show-main-left-tab and the Escape keydown.
- `tabs.dfy`, module `Tabs`: the document tab strip of the macOS host
  (`DocumentTabsView`). Open de-duplicates by URL. Select sets the tab and the
  browser's file. Close hands the selection to the next tab, else the previous
  one, else none.
- `origin.dfy`, module `Origin`: `URL.hasSameOrigin(as:)`. It compares the
  lower-cased scheme, the host ignoring case, and the effective port (80 for
  http and 443 for https, per sections 2.7.1 and 2.7.2 of RFC 7230).
- `file_item.dfy`, module `Files`: `FileItem`. It covers the name and hidden
  rule, the initial children, `hasChildren`, and the ordering of loaded
  children: directories first, then by name under an abstract total preorder.
- `basics.dfy` and `key_event.dfy` hold the shared `Option`, `Min`/`Max` and
  the key-event record.

Notes on behaviour:
- Undo and redo move the popped operation to the other stack before they
  look up its editor (globalUndo.js:114-115 and 129-130). When the block has
  no editor, the write returns early (globalUndo.js:142-143 and 173-174), so the
  operation still moves and no buffer changes.
- Undo and redo restore the cursor the same way (globalUndo.js:159, 190 and
  221-259): the stored cursor if there is one, else the cursor the editor had
  before the write. Both are clamped to the new buffer.
- Escape only pushes a `keydown` Escape message (document.js:15-20). Plain
  Enter pushes `focus-block` for any selected block that wraps an editor,
  code or prose (document.js:91-103).
- A scheme with no known default port (for example `ftp`) gets the marker
  port -1 (url_same_origin.swift:14-18). So `ftp://h` and `ftp://h:21` are not
  the same origin, although section 4 of RFC 6454 would give `ftp` its
  default port 21.

## Model

| member | source | states |
|---|---|---|
| History.Empty | assets/js/globalUndo.js:8-13 | A fresh manager has empty stacks and no editors, and satisfies the invariant. |
| History.Record | assets/js/globalUndo.js:82-105 | No-op when before equals after. Otherwise the new operation is on top, redo is empty, the rest of the undo stack is the old one minus its oldest entry on overflow, and the stack never passes 100. The invariant is preserved. |
| History.OnContentChange | assets/js/globalUndo.js:57-64 | The content listener records the change with the tracked "before" snapshot only when the flag is down. It always moves the snapshots to the new content. While applying, neither stack changes. |
| History.MoveCursor | assets/js/globalUndo.js:51-55 | The cursor listener moves the tracked cursor only when the flag is down. The stacks and the other editors are untouched. |
| History.Register | assets/js/globalUndo.js:22-48 | Registration (re)places one editor. Its content and cursor snapshots are its buffer and cursor at registration. The stacks and the other editors are unchanged, and the invariant is kept. |
| History.Purge | assets/js/globalUndo.js:75-76 | The filtered stack holds exactly the operations whose block differs from the removed one. |
| History.PurgeAppend | assets/js/globalUndo.js:75-76 | Purging distributes over concatenation, so the survivors keep their relative order. |
| History.PurgeUntouched | assets/js/globalUndo.js:75-76 | A stack with no operation of the block is returned unchanged. |
| History.PurgeCount | assets/js/globalUndo.js:75-76 | Every other block's operation keeps its multiplicity. |
| History.Unregister | assets/js/globalUndo.js:71-77 | The editor is gone. Both stacks lose exactly that block's operations. The other editors are unchanged and the invariant (total at most 100) is preserved. |
| History.ClearHistory | assets/js/globalUndo.js:329-332 | Both stacks are empty and the editors are kept. |
| History.Apply | assets/js/globalUndo.js:141-198 | Writing an operation back records nothing (re-entrancy flag). It sets the registered editor's buffer and tracked snapshot to the content, restores the cursor, emits one code-changed notice and lowers the flag. An unregistered block changes nothing. |
| History.Undo | assets/js/globalUndo.js:111-121 | No-op on an empty undo stack. Otherwise the top undo operation becomes the top redo operation, the multiset of all operations is conserved, its beforeContent is written into its block, and the invariant is preserved. |
| History.Redo | assets/js/globalUndo.js:126-136 | The mirror image of Undo, writing afterContent. |
| History.ClampCursor | assets/js/globalUndo.js:227-240 | The result is in bounds and never moves down or right. A position already in bounds is unchanged. A cut line is the last line and a cut column is one past the end of the line. |
| History.ClampIdempotent | assets/js/globalUndo.js:227-240 | Clamping twice equals clamping once. |
| History.RestoredCursor | assets/js/globalUndo.js:221-259 | The restored cursor is in bounds. It is the stored cursor (else the pre-write cursor) whenever that one is in bounds. |
| History.Lines | assets/js/globalUndo.js:229-234 | At least one line. No line holds a line feed, and none is longer than the buffer. A buffer without line feeds is its own single line. |
| History.LinesCountNewlines | assets/js/globalUndo.js:229-230 | A buffer has exactly one line more than it has line feeds. |
| History.LineCount | assets/js/globalUndo.js:229-230 | `getLineCount` is at least 1 and equals the number of line feeds plus one. |
| History.LineLength | assets/js/globalUndo.js:234 | `getLineLength` is at most the buffer's length. It is the whole buffer for a buffer without line feeds. |
| History.JoinLines | assets/js/globalUndo.js:229-234 | The lines used for line count and line length join back to the buffer, so line geometry is well defined. |
| History.ShortcutCommand | assets/js/globalUndo.js:305-323 | Ctrl/Cmd+Z without Shift means undo. Ctrl/Cmd+Shift+Z or Ctrl/Cmd+Y means redo. Keys in a plain input or text area outside an editor mean nothing. Both directions of each case are stated. |
| History.IsPlainInput | assets/js/globalUndo.js:308-312 | A target inside an editor is never a plain input. A plain input is an `INPUT` or `TEXTAREA`. |
| History.HandleShortcut | assets/js/globalUndo.js:305-323 | A key in a plain input, or without Ctrl/Cmd, changes nothing. Any chord moves at most one operation between the stacks, loses none, raises at most one notice and keeps the invariant. |
| History.ChordUndoThenRedo | assets/js/globalUndo.js:305-323 | Ctrl/Cmd+Z, then Ctrl/Cmd+Shift+Z or Ctrl/Cmd+Y, both through the listener, give back both stacks, and the buffer too when it held the undone edit's result. |
| History.UndoTimes | assets/js/globalUndo.js:111-121 | k undos shrink the undo stack by k down to empty, conserve all operations, write only to registered editors and preserve the invariant. |
| History.UndoThenRedo | assets/js/globalUndo.js:111-136 | Redo right after undo restores both stacks exactly. It restores the block's buffer when that buffer held the operation's result, and leaves other editors unchanged. |
| History.RedoThenUndo | assets/js/globalUndo.js:111-136 | Undo right after redo restores both stacks exactly, and the buffer too when it held the operation's original content. |
| History.EditThenUndo | assets/js/globalUndo.js:57-136 | A user edit is recorded with the replaced buffer. One undo restores that buffer without recording anything and leaves exactly that operation on redo. Redo reapplies the edit. |
| History.RecordDiscardsRedo | assets/js/globalUndo.js:96-99 | After a real change, redo is a no-op. |
| History.UndoExhausts | assets/js/globalUndo.js:111-112 | After as many undos as there are entries, the undo stack is empty and one more undo is a no-op. |
| History.EmptyHistoryReaches | assets/js/globalUndo.js:8-11 | With an empty undo stack, the way back leads each block to its current content. |
| History.EditKeepsReaches | assets/js/globalUndo.js:57-64 | A user edit that does not overflow the 100-entry stack keeps every block's way back to its original content. |
| History.UndoKeepsReaches | assets/js/globalUndo.js:111-121 | An undo walks one step back along that way and keeps it for every block. |
| History.MoveKeepsReaches | assets/js/globalUndo.js:51-55 | Moving a cursor keeps every block's way back to its original content. |
| History.TopHoldsAfter | assets/js/globalUndo.js:57-64 | In a state on the way back, the block of the top undo operation, when registered, holds that operation's result. |
| History.ReachableUndoThenRedo | assets/js/globalUndo.js:111-136 | In a state on the way back, undo then redo gives back both stacks and every buffer. |
| History.UndoAllRestores | assets/js/globalUndo.js:57-121 | Undoing as many times as there are recorded edits returns every registered block to its content before those edits, across blocks. |
| History.TwoBlockScenario | assets/js/globalUndo.js:57-121 | Edit block B1, then B2. The first undo restores B2, the second restores B1, and a third does nothing. |
| History.NoResurrection | assets/js/globalUndo.js:71-77 | After unregistering a block, no run of undos emits a notice for it, writes to it, or finds one of its operations on a stack. |
| DocumentKeys.AnyEditorFocused | assets/js/hooks/document.js:26-35 | Some editor has text focus exactly when the first-focused search finds one. |
| DocumentKeys.FirstFocused | assets/js/hooks/document.js:157-167 | Returns the block of the first editor, in registration order, with text focus. Returns none exactly when no editor has focus. |
| DocumentKeys.CurrentBlockId | assets/js/hooks/document.js:157-179 | With an editor focused: the focused editor's block, never the selection. Otherwise: the selected block, or none. |
| DocumentKeys.TabMessages | assets/js/hooks/document.js:37-54 | Only Alt alone with digit 1, 2 or 3 (by code or key) pushes a tab switch: Inspector, Logs or Docs, the first digit that matches winning. At most one message. |
| DocumentKeys.EnterOrNavigate | assets/js/hooks/document.js:56-133 | For each run shortcut, focus-block and navigation message, the exact key, modifier and focus condition under which it is pushed (if and only if). At most one message, and never a tab switch or Escape. |
| DocumentKeys.WindowMessages | assets/js/hooks/document.js:15-20 | Escape, and only Escape, pushes the `keydown` Escape message. |
| DocumentKeys.Route | assets/js/hooks/document.js:14-134 | For each message kind, the exact key, modifier and focus condition under which it is pushed (if and only if). Run shortcuts need a non-empty current block id. Escape and Alt+1/2/3 do not depend on focus. At most three messages are pushed. |
| DocumentKeys.NoDuplicateMessages | assets/js/hooks/document.js:14-134 | One key press never pushes the same message twice. |
| DocumentKeys.AtMostOneMessage | assets/js/hooks/document.js:38-133 | A key press pushes at most one message. The only exception is an Alt chord whose code is Digit1/2/3 and whose key is Enter, Escape, ArrowUp or ArrowDown. |
| DocumentKeys.CmdEnterIgnored | assets/js/hooks/document.js:57-120 | Cmd+Enter without Shift pushes nothing. |
| DocumentKeys.EditingKeepsKeys | assets/js/hooks/document.js:91-133 | With an editor focused, plain Enter and the arrow keys push nothing. |
| DocumentKeys.RunTargetSource | assets/js/hooks/document.js:157-179 | The routing depends on the focused editor alone while one is focused, and on the selection alone otherwise. |
| Tabs.Empty | frontend/macos/sandman/sandman/views/DocumentTabsView.swift:11-13 | The initial view is valid and in step with the browser. |
| Tabs.IndexOfUrl | frontend/macos/sandman/sandman/views/DocumentTabsView.swift:78 | Returns the first index holding the URL, or none exactly when no tab has it. |
| Tabs.IndexOfId | frontend/macos/sandman/sandman/views/DocumentTabsView.swift:95 | Returns the first index holding the id, or none exactly when no tab has it. |
| Tabs.SelectedTab | frontend/macos/sandman/sandman/views/DocumentTabsView.swift:15-17 | Returns an open tab carrying the selected id, or none exactly when nothing open is selected. |
| Tabs.OpenFile | frontend/macos/sandman/sandman/views/DocumentTabsView.swift:76-87 | An open URL only re-selects its tab and the list is unchanged. A new URL appends exactly one tab and selects it. URLs and ids stay unique and the selected tab has the URL. |
| Tabs.OpenFileIdempotent | frontend/macos/sandman/sandman/views/DocumentTabsView.swift:76-87 | Opening the same file twice is the same as opening it once. |
| Tabs.SelectTab | frontend/macos/sandman/sandman/views/DocumentTabsView.swift:89-92 | The selected id and the browser's file become the tab's id and URL, and the view is valid and in step. |
| Tabs.Without | frontend/macos/sandman/sandman/views/DocumentTabsView.swift:95-96 | The remaining tabs are exactly those with a different id. |
| Tabs.Successor | frontend/macos/sandman/sandman/views/DocumentTabsView.swift:100-112 | The successor is a remaining tab, and there is none only when no tab remains. |
| Tabs.CloseTab | frontend/macos/sandman/sandman/views/DocumentTabsView.swift:94-115 | Closing an absent id is a no-op. Otherwise exactly that tab is removed and the others keep their order. Closing a tab that is not selected leaves the selection and the file alone. |
| Tabs.CloseSelectedTab | frontend/macos/sandman/sandman/views/DocumentTabsView.swift:98-113 | Closing the selected tab at i selects the tab that followed it, else the one before it, else nothing (with the file set to nil). |
| Tabs.CloseTabValid | frontend/macos/sandman/sandman/views/DocumentTabsView.swift:94-115 | After a close the selection is none or an open tab, ids and URLs stay unique, and view and browser stay in step. |
| Tabs.RemoveAt | frontend/macos/sandman/sandman/views/DocumentTabsView.swift:95-96 | Removing at the first index of an id is filtering that id out, and keeps ids and URLs unique. |
| Tabs.FileSelected | frontend/macos/sandman/sandman/views/DocumentTabsView.swift:69-73 | A browser file change stores the file and, when there is one, opens it, leaving the view valid and in step. |
| Tabs.EchoIsNoOp | frontend/macos/sandman/sandman/views/DocumentTabsView.swift:69-92 | When select or close writes the file binding back, the resulting change handler alters nothing. |
| Origin.Lower | frontend/macos/sandman/sandman/extensions/url_same_origin.swift:14 | The result has the same length and no upper-case letter. Every character that is not an upper-case letter is kept. Each upper-case letter becomes its lower-case letter (code point plus 32). |
| Origin.LowerIdempotent | frontend/macos/sandman/sandman/extensions/url_same_origin.swift:14 | Lower-casing twice is lower-casing once. |
| Origin.HasSameOrigin | frontend/macos/sandman/sandman/extensions/url_same_origin.swift:3-24 | Same origin needs both hosts. It implies equal lower-cased schemes, equal lower-cased hosts and equal effective ports. `Origin.SameOriginIsOriginEquality` gives the converse. |
| Origin.EffectivePort | frontend/macos/sandman/sandman/extensions/url_same_origin.swift:10-19 | Returns the explicit port if present, else 80 for http and 443 for https (scheme compared ignoring case), else -1. |
| Origin.OriginOf | frontend/macos/sandman/sandman/extensions/url_same_origin.swift:4-7 | A URL has an origin exactly when it has a host. |
| Origin.EqualIgnoringCaseIsLowerEqual | frontend/macos/sandman/sandman/extensions/url_same_origin.swift:22 | Case-insensitive host equality is equality of the lower-cased hosts. |
| Origin.SameOriginIsOriginEquality | frontend/macos/sandman/sandman/extensions/url_same_origin.swift:3-24 | Same origin holds if and only if both URLs have a host and their (scheme, host, effective port) origins are equal. |
| Origin.SameOriginEquivalence | frontend/macos/sandman/sandman/extensions/url_same_origin.swift:21-23 | The relation is symmetric and transitive. It is reflexive exactly for URLs with a host. |
| Origin.DefaultPortsAreImplicit | frontend/macos/sandman/sandman/extensions/url_same_origin.swift:14-16 | `http://h` matches `http://h:80` and `https://h` matches `https://h:443`, in any scheme case. |
| Origin.DifferentSchemesDiffer | frontend/macos/sandman/sandman/extensions/url_same_origin.swift:21 | Schemes that differ after lower-casing are never the same origin. |
| Origin.CaseDoesNotMatter | frontend/macos/sandman/sandman/extensions/url_same_origin.swift:21-22 | A URL is the same origin as its lower-cased copy. |
| Origin.Examples | frontend/macos/sandman/sandman/extensions/url_same_origin.swift:4-23 | Worked cases: the default ports, a scheme mismatch on one port, hostless URLs, and an unknown scheme against any explicit port. |
| Files.HasChildren | frontend/macos/sandman/sandman/views/FileItem.swift:57-59 | A file never has children. Having children means a non-nil, non-empty child list. |
| Files.NewItem | frontend/macos/sandman/sandman/views/FileItem.swift:18-31 | The name is the last path component, and hidden means the name starts with ".". A directory is so on disk and starts with `[]` children; anything else starts with nil. |
| Files.BeforeIsTotalPreorder | frontend/macos/sandman/sandman/views/FileItem.swift:45-50 | The children order (directories first, then names) is total and transitive when the name order is. |
| Files.Insert | frontend/macos/sandman/sandman/views/FileItem.swift:45-50 | Insertion adds exactly the one item (multiset). |
| Files.InsertSorted | frontend/macos/sandman/sandman/views/FileItem.swift:45-50 | Insertion keeps a sorted list sorted. |
| Files.Sort | frontend/macos/sandman/sandman/views/FileItem.swift:45-50 | The sort result is a permutation of its input. |
| Files.SortSorted | frontend/macos/sandman/sandman/views/FileItem.swift:45-50 | The sort result is ordered by the children order. |
| Files.ItemsOf | frontend/macos/sandman/sandman/views/FileItem.swift:43-44 | Each listed URL becomes the item `FileItem(url:)` builds, in listing order. |
| Files.LoadChildren | frontend/macos/sandman/sandman/views/FileItem.swift:33-55 | Nothing changes for a non-directory. A failed listing gives `[]`. Otherwise the children are a permutation of the listing, every directory comes before every file, and each kind is in ascending name order. |
| Files.HasChildrenAfterLoad | frontend/macos/sandman/sandman/views/FileItem.swift:57-59 | A new item never has children. After loading, it has children exactly when it is a directory whose listing succeeded and was non-empty. |

## Left out

- History.EditKeepsReaches: holds only while the undo stack is below 100 entries. On overflow the oldest operation is dropped, and the content before it can no longer be reached. The way back is proved for user edits and undos, not for redos.
- Monaco and DOM details: focusing the editor before undo/redo (`focusEditorIfNeeded`), the `addCommand` key bindings inside editors, `readOnly` options, and the selection restore and exception fallback of `restoreCursorPosition` (globalUndo.js:261-290). They are editor API behaviour.
- History.Apply: it takes the cursor Monaco reports during a whole-buffer `setValue` to be (1,1). That is Monaco's flush behaviour, which is not part of the source. It only affects the tracked cursor after an undo/redo and the cursor when nothing else is known.
- History: an editor without a text model (`getModel()` returning null) is not modelled. Every registered editor has a buffer.
- History: operation timestamps (`Date.now()`) are dropped, and `getState` is a debugging read-out.
- History.Lines: lines are split at line feeds only. Monaco also accepts CR and CRLF.
- History.ClampCursor: a column counts characters (Unicode scalar values), while Monaco's `getLineLength` and its columns count UTF-16 code units. On a line with a character outside the Basic Multilingual Plane the two differ. For example, for the buffer "😀" Monaco keeps the cursor (1,3) and the model clamps it to (1,2). So `History.RestoredCursor` keeps an in-bounds cursor unchanged only for lines without such characters.
- History.OnContentChange: assumes that an editor is unregistered only once it is destroyed, and that each editor is registered once. `unregisterEditor` (globalUndo.js:71-77) does not dispose the listeners installed at globalUndo.js:51 and 57. So an edit in a still-live, unregistered editor would be recorded by the source, and the model ignores it. Registering an editor twice installs a second pair of listeners, which would record every change twice; `History.Register` replaces the entry instead.
- History: the code-changed window event is modelled as a `Notice` in the result. It is not forwarded to the server, and the `code-changed`/`cursor-moved` forwarding listeners of document.js are not modelled.
- DocumentKeys: `preventDefault`, `focusBlock` (DOM focus, including the 50 ms delay for markdown blocks), scrolling and log scrolling are left out. The DOM is abstracted into the focus snapshot.
- Tabs: tab titles, the modified flag and all SwiftUI layout are left out. UUID generation is a caller-supplied id that no open tab uses.
- Origin: URL parsing is abstracted to the parsed scheme, host and port. Case mapping covers ASCII letters only, whereas Swift's `lowercased()` and `caseInsensitiveCompare` use Unicode case mapping.
- Files.NewItem: the hidden test looks at the first character (Unicode scalar value) of the name. Swift's `hasPrefix(".")` compares whole grapheme clusters. So a name made of "." followed by U+0301 (combining acute accent) and "x" is hidden in the model but not in Swift, whose first Character is the dot with its accent.
- Files: the real filesystem is a parameter (a disk map and a listing), and hidden files are assumed already skipped by the listing. The name comparison is an abstract total preorder. Swift's sort does not promise a particular order among equal names; the model picks the insertion-sort order and states only what every valid result satisfies. `id = UUID()` is left out.
- PhoenixManager, Logger, ZoomManager and the SwiftUI/React views are left out: they are process, I/O, floating-point or layout code.
