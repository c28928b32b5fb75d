/** Keyboard routing of the document page (`DocumentHook` in
    assets/js/hooks/document.js).

    The page state a key press can see is abstracted into a `FocusSnapshot`:
    the registered editors in registration order with their text-focus flag,
    and the block the page marks as selected. A key press produces the list of
    messages pushed to the server, in the order the two listeners run: the
    document listener first, then the window listener (a `keydown` bubbles
    from the document up to the window). */
module DocumentKeys {
  import opened Basics
  import opened KeyEvents

  /** One registered editor and whether it has text focus. */
  datatype EditorFocus = EditorFocus(blockId: BlockId, hasTextFocus: bool)

  /** The `.selected-block` element: absent, present but holding no editor
      wrapper, or wrapping the editor of a block. */
  datatype Selection = NothingSelected | SelectedWithoutEditor | Selected(blockId: BlockId)

  datatype FocusSnapshot = FocusSnapshot(editors: seq<EditorFocus>, selection: Selection)

  datatype RunKind = RunBlock | RunBlockAndNext | RunAllBlocks

  /** The three panels of the main left area. */
  datatype LeftTab = ReqRes | Logs | Docs

  datatype Message =
    | KeydownEscape
    | Shortcut(kind: RunKind, blockId: BlockId)
    | FocusBlock(blockId: BlockId)
    | NavigateUp
    | NavigateDown
    | ShowMainLeftTab(tab: LeftTab)

  /** The loop of the document listener over the registered editors. */
  function AnyEditorFocused(s: FocusSnapshot): (r: bool)
    ensures r <==> FirstFocused(s.editors).Some?
  {
    exists i :: 0 <= i < |s.editors| && s.editors[i].hasTextFocus
  }

  /** The block of the first editor, in registration order, with text focus. */
  function FirstFocused(eds: seq<EditorFocus>): (r: Option<BlockId>)
    ensures r.None? <==> forall i :: 0 <= i < |eds| ==> !eds[i].hasTextFocus
    ensures r.Some? ==>
      exists i :: 0 <= i < |eds| && eds[i].hasTextFocus && eds[i].blockId == r.value
        && forall j :: 0 <= j < i ==> !eds[j].hasTextFocus
  {
    if |eds| == 0 then None
    else if eds[0].hasTextFocus then Some(eds[0].blockId)
    else FirstFocused(eds[1..])
  }

  /** `getCurrentBlockId(anyEditorFocused)`: with an editor focused, the
      focused editor's block and never the selection; otherwise the selected
      block, and never an editor. */
  function CurrentBlockId(s: FocusSnapshot, anyFocused: bool): (r: Option<BlockId>)
    ensures anyFocused ==> (r.None? <==> !AnyEditorFocused(s))
    ensures anyFocused && r.Some? ==>
      exists i :: 0 <= i < |s.editors| && s.editors[i].hasTextFocus && s.editors[i].blockId == r.value
        && forall j :: 0 <= j < i ==> !s.editors[j].hasTextFocus
    ensures !anyFocused ==> (r.Some? <==> s.selection.Selected?)
    ensures !anyFocused && r.Some? ==> r.value == s.selection.blockId
  {
    if anyFocused then FirstFocused(s.editors)
    else match s.selection
      case Selected(id) => Some(id)
      case _ => None
  }

  /** JavaScript truthiness of a block id string: only the empty string is falsy. */
  predicate Truthy(id: BlockId) {
    id != ""
  }

  /** A run shortcut is pushed only for a current block with a truthy id. */
  function RunShortcut(kind: RunKind, current: Option<BlockId>): seq<Message>
  {
    if current.Some? && Truthy(current.value) then [Shortcut(kind, current.value)] else []
  }

  /** Alt alone, without Ctrl, Shift or Cmd. */
  predicate AltOnly(e: KeyEvent) {
    e.altKey && !e.ctrlKey && !e.shiftKey && !e.metaKey
  }

  predicate NoCtrlShiftMeta(e: KeyEvent) {
    !e.ctrlKey && !e.shiftKey && !e.metaKey
  }

  predicate IsDigit(e: KeyEvent, d: string) {
    e.code == "Digit" + d || e.key == d
  }

  /** The tab-switching shortcuts Alt+1, Alt+2, Alt+3. */
  function TabMessages(e: KeyEvent): (r: seq<Message>)
    ensures |r| <= 1
    ensures forall m :: m in r ==> m.ShowMainLeftTab?
    ensures ShowMainLeftTab(ReqRes) in r <==> AltOnly(e) && IsDigit(e, "1")
    ensures ShowMainLeftTab(Logs) in r <==> AltOnly(e) && !IsDigit(e, "1") && IsDigit(e, "2")
    ensures ShowMainLeftTab(Docs) in r <==> AltOnly(e) && !IsDigit(e, "1") && !IsDigit(e, "2") && IsDigit(e, "3")
  {
    if AltOnly(e) then
      if IsDigit(e, "1") then [ShowMainLeftTab(ReqRes)]
      else if IsDigit(e, "2") then [ShowMainLeftTab(Logs)]
      else if IsDigit(e, "3") then [ShowMainLeftTab(Docs)]
      else []
    else []
  }

  /** The Enter decision table, or, for any other key, the arrow navigation
      that only applies while no editor has text focus. */
  function EnterOrNavigate(e: KeyEvent, s: FocusSnapshot): (r: seq<Message>)
    ensures |r| <= 1
    ensures forall m :: m in r ==> !m.ShowMainLeftTab? && !m.KeydownEscape?
    ensures forall id :: Shortcut(RunBlock, id) in r <==>
      e.key == "Enter" && e.ctrlKey && !e.shiftKey && !e.metaKey
        && CurrentBlockId(s, AnyEditorFocused(s)) == Some(id) && id != ""
    ensures forall id :: Shortcut(RunBlockAndNext, id) in r <==>
      e.key == "Enter" && e.shiftKey && !e.ctrlKey && !e.metaKey
        && CurrentBlockId(s, AnyEditorFocused(s)) == Some(id) && id != ""
    ensures forall id :: Shortcut(RunAllBlocks, id) in r <==>
      e.key == "Enter" && e.shiftKey && (e.ctrlKey || e.metaKey)
        && CurrentBlockId(s, AnyEditorFocused(s)) == Some(id) && id != ""
    ensures forall id :: FocusBlock(id) in r <==>
      e.key == "Enter" && NoCtrlShiftMeta(e) && !AnyEditorFocused(s) && s.selection == Selected(id)
    ensures NavigateUp in r <==> e.key == "ArrowUp" && NoCtrlShiftMeta(e) && !AnyEditorFocused(s)
    ensures NavigateDown in r <==> e.key == "ArrowDown" && NoCtrlShiftMeta(e) && !AnyEditorFocused(s)
  {
    var focused := AnyEditorFocused(s);
    if e.key == "Enter" then
      if e.ctrlKey && !e.shiftKey && !e.metaKey then RunShortcut(RunBlock, CurrentBlockId(s, focused))
      else if e.shiftKey && !e.ctrlKey && !e.metaKey then RunShortcut(RunBlockAndNext, CurrentBlockId(s, focused))
      else if e.shiftKey && (e.ctrlKey || e.metaKey) then RunShortcut(RunAllBlocks, CurrentBlockId(s, focused))
      else if NoCtrlShiftMeta(e) && !focused then
        match s.selection
        case Selected(id) => [FocusBlock(id)]
        case _ => []
      else []
    else if !focused then
      if e.key == "ArrowUp" && NoCtrlShiftMeta(e) then [NavigateUp]
      else if e.key == "ArrowDown" && NoCtrlShiftMeta(e) then [NavigateDown]
      else []
    else []
  }

  /** The window listener: Escape is always passed on. */
  function WindowMessages(e: KeyEvent): (r: seq<Message>)
    ensures r == [KeydownEscape] || r == []
    ensures KeydownEscape in r <==> e.key == "Escape"
  {
    if e.key == "Escape" then [KeydownEscape] else []
  }

  /** Everything one key press pushes, as a decision table over the key, the
      modifiers and the focus snapshot. Each message kind is characterised on
      its own; `NoDuplicateMessages` shows none is pushed twice. */
  function Route(e: KeyEvent, s: FocusSnapshot): (r: seq<Message>)
    ensures forall id :: Shortcut(RunBlock, id) in r <==>
      e.key == "Enter" && e.ctrlKey && !e.shiftKey && !e.metaKey
        && CurrentBlockId(s, AnyEditorFocused(s)) == Some(id) && id != ""
    ensures forall id :: Shortcut(RunBlockAndNext, id) in r <==>
      e.key == "Enter" && e.shiftKey && !e.ctrlKey && !e.metaKey
        && CurrentBlockId(s, AnyEditorFocused(s)) == Some(id) && id != ""
    ensures forall id :: Shortcut(RunAllBlocks, id) in r <==>
      e.key == "Enter" && e.shiftKey && (e.ctrlKey || e.metaKey)
        && CurrentBlockId(s, AnyEditorFocused(s)) == Some(id) && id != ""
    ensures forall id :: FocusBlock(id) in r <==>
      e.key == "Enter" && NoCtrlShiftMeta(e) && !AnyEditorFocused(s) && s.selection == Selected(id)
    ensures NavigateUp in r <==> e.key == "ArrowUp" && NoCtrlShiftMeta(e) && !AnyEditorFocused(s)
    ensures NavigateDown in r <==> e.key == "ArrowDown" && NoCtrlShiftMeta(e) && !AnyEditorFocused(s)
    ensures ShowMainLeftTab(ReqRes) in r <==> AltOnly(e) && IsDigit(e, "1")
    ensures ShowMainLeftTab(Logs) in r <==> AltOnly(e) && !IsDigit(e, "1") && IsDigit(e, "2")
    ensures ShowMainLeftTab(Docs) in r <==> AltOnly(e) && !IsDigit(e, "1") && !IsDigit(e, "2") && IsDigit(e, "3")
    ensures KeydownEscape in r <==> e.key == "Escape"
    ensures |r| <= 3
  {
    var tab, enter, window := TabMessages(e), EnterOrNavigate(e, s), WindowMessages(e);
    tab + enter + window
  }

  /** Three lists of at most one element each, with no element shared, have
      no element twice in their concatenation. */
  lemma DistinctConcat(a: seq<Message>, b: seq<Message>, c: seq<Message>)
    requires |a| <= 1 && |b| <= 1 && |c| <= 1
    requires forall x :: x in a ==> x !in b && x !in c
    requires forall x :: x in b ==> x !in c
    ensures forall i, j :: 0 <= i < j < |a + b + c| ==> (a + b + c)[i] != (a + b + c)[j]
  {
    var r := a + b + c;
    forall i, j | 0 <= i < j < |r|
      ensures r[i] != r[j]
    {
      if i < |a| {
        assert r[i] in a;
        assert r[j] in b || r[j] in c by {
          if j < |a| + |b| {
            assert r[j] == b[j - |a|];
          } else {
            assert r[j] == c[j - |a| - |b|];
          }
        }
      } else {
        assert r[i] == b[i - |a|] && r[i] in b;
        assert r[j] == c[j - |a| - |b|] && r[j] in c;
      }
    }
  }

  /** No message is pushed twice for one key press: each listener pushes at
      most one, and the three push different kinds. */
  lemma NoDuplicateMessages(e: KeyEvent, s: FocusSnapshot)
    ensures var r := Route(e, s); forall i, j :: 0 <= i < j < |r| ==> r[i] != r[j]
  {
    DistinctConcat(TabMessages(e), EnterOrNavigate(e, s), WindowMessages(e));
  }

  /** A key press pushes at most one message, unless an Alt+digit chord
      (matched by its key code) also carries Enter, Escape or an arrow key:
      the Enter branches exclude each other and Enter never reaches the
      navigation branch. */
  lemma AtMostOneMessage(e: KeyEvent, s: FocusSnapshot)
    requires !(AltOnly(e) && (IsDigit(e, "1") || IsDigit(e, "2") || IsDigit(e, "3"))
               && e.key in {"Enter", "Escape", "ArrowUp", "ArrowDown"})
    ensures |Route(e, s)| <= 1
  {
  }

  /** Cmd+Enter without Shift matches no branch at all. */
  lemma CmdEnterIgnored(e: KeyEvent, s: FocusSnapshot)
    requires e.key == "Enter" && e.metaKey && !e.shiftKey
    ensures Route(e, s) == []
  {
  }

  /** While an editor is being typed in, plain Enter and the arrow keys belong
      to the editor: nothing is pushed for them. */
  lemma EditingKeepsKeys(e: KeyEvent, s: FocusSnapshot)
    requires AnyEditorFocused(s) && NoCtrlShiftMeta(e) && !e.altKey
    requires e.key in {"Enter", "ArrowUp", "ArrowDown"}
    ensures Route(e, s) == []
  {
  }

  /** Which block a run shortcut names depends only on the focused editor
      while one is focused, and only on the selection otherwise. */
  lemma RunTargetSource(e: KeyEvent, s: FocusSnapshot, sel: Selection, eds: seq<EditorFocus>)
    ensures AnyEditorFocused(s) ==> Route(e, s) == Route(e, s.(selection := sel))
    ensures !AnyEditorFocused(s) && !AnyEditorFocused(s.(editors := eds)) ==>
      Route(e, s) == Route(e, s.(editors := eds))
  {
  }
}
