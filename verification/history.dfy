/** The page-wide undo/redo timeline shared by every code editor of a
    document (`GlobalUndoManager` in assets/js/globalUndo.js).

    One undo stack and one redo stack hold the edit operations of all
    registered editors in the order they were recorded. The last element of
    a stack is its top. Each registered editor is a `Surface`: its text, its
    cursor, and the two snapshots the content-change listener keeps (the
    content and cursor "before the next change"). Undo and redo write into a
    surface while the `applying` flag is raised, so that the listener does
    not record those writes as new operations. */
module History {
  import opened Basics
  import opened KeyEvents

  /** Capacity of the undo stack (`maxStackSize`). */
  const MaxStackSize: nat := 100

  /** A Monaco cursor position: 1-based line and column. */
  datatype Position = Position(line: int, column: int)
  type CursorPos = p: Position | p.line >= 1 && p.column >= 1 witness Position(1, 1)

  /** The position Monaco reports right after a whole-buffer `setValue`. */
  const FlushPosition: CursorPos := Position(1, 1)

  /** One recorded edit; the timestamp of the source is not modelled. */
  datatype Operation = Operation(
    blockId: BlockId,
    beforeContent: string,
    afterContent: string,
    cursorBeforeChange: Option<CursorPos>)

  /** A registered editor. `tracked` and `trackedCursor` are the listener's
      `contentBeforeChange` and `cursorBeforeChange`. */
  datatype Surface = Surface(
    value: string,
    position: Option<CursorPos>,
    tracked: string,
    trackedCursor: Option<CursorPos>)

  datatype Manager = Manager(
    undoStack: seq<Operation>,
    redoStack: seq<Operation>,
    applying: bool,
    editors: map<BlockId, Surface>)

  /** The `sandman:code-changed` window event raised after undo or redo. */
  datatype Notice = CodeChanged(blockId: BlockId, value: string)

  /** A manager state together with the notices an action raised. */
  datatype Step = Step(manager: Manager, notices: seq<Notice>)

  datatype Command = UndoCommand | RedoCommand

  // ---------------------------------------------------------------------
  // Text geometry: lines of a buffer, as Monaco counts them
  // ---------------------------------------------------------------------

  /** The lines of a buffer, split at every line feed. */
  function Lines(s: string): (ls: seq<string>)
    ensures |ls| >= 1
    ensures forall i :: 0 <= i < |ls| ==> '\n' !in ls[i]
    ensures forall i :: 0 <= i < |ls| ==> |ls[i]| <= |s|
    ensures '\n' !in s ==> ls == [s]
    decreases |s|
  {
    if |s| == 0 then [""]
    else
      assert s == [s[0]] + s[1..];
      if s[0] == '\n' then [""] + Lines(s[1..])
      else
        var rest := Lines(s[1..]);
        [[s[0]] + rest[0]] + rest[1..]
  }

  /** The buffer whose lines are `ls`. */
  function Join(ls: seq<string>): string
    requires |ls| >= 1
  {
    if |ls| == 1 then ls[0] else ls[0] + "\n" + Join(ls[1..])
  }

  /** Splitting loses nothing: the lines joined by line feeds give the buffer
      back. With the line-feed-free ensures of `Lines`, this pins `Lines` down. */
  lemma {:induction false} JoinLines(s: string)
    ensures Join(Lines(s)) == s
    decreases |s|
  {
    if |s| == 0 {
    } else if s[0] == '\n' {
      JoinLines(s[1..]);
      assert Lines(s)[1..] == Lines(s[1..]);
      assert s == "\n" + s[1..];
    } else {
      var rest := Lines(s[1..]);
      JoinLines(s[1..]);
      assert s == [s[0]] + s[1..];
      if |rest| == 1 {
        assert Lines(s) == [[s[0]] + rest[0]];
      } else {
        assert Lines(s)[1..] == rest[1..];
        assert Join(rest) == rest[0] + "\n" + Join(rest[1..]);
        assert Join(Lines(s)) == ([s[0]] + rest[0]) + "\n" + Join(rest[1..]);
      }
    }
  }

  /** A buffer has one line more than it has line feeds. */
  lemma {:induction false} LinesCountNewlines(s: string)
    ensures |Lines(s)| == multiset(s)['\n'] + 1
    decreases |s|
  {
    if |s| > 0 {
      LinesCountNewlines(s[1..]);
      assert s == [s[0]] + s[1..];
    }
  }

  /** `model.getLineCount()`: one more than the number of line feeds. */
  function LineCount(s: string): (n: nat)
    ensures n >= 1
    ensures n == multiset(s)['\n'] + 1
  {
    LinesCountNewlines(s);
    |Lines(s)|
  }

  /** `model.getLineLength(k)`. */
  function LineLength(s: string, k: int): (n: nat)
    requires 1 <= k <= LineCount(s)
    ensures n <= |s|
    ensures k == 1 && '\n' !in s ==> n == |s|
  {
    |Lines(s)[k - 1]|
  }

  /** A cursor that addresses an existing line, at most one column past its end. */
  predicate InBounds(p: CursorPos, s: string) {
    p.line <= LineCount(s) && p.column <= LineLength(s, p.line) + 1
  }

  /** The clamp of `restoreCursorPosition`: the line is cut to
      `max(1, lineCount)`, then the column to that line's length plus one. */
  function ClampCursor(p: CursorPos, s: string): (r: CursorPos)
    ensures InBounds(r, s)
    ensures r.line <= p.line && r.column <= p.column
    ensures InBounds(p, s) ==> r == p
    ensures r.line < p.line ==> r.line == LineCount(s)
    ensures r.line == p.line || p.line > LineCount(s)
    ensures r.column < p.column ==> r.column == LineLength(s, r.line) + 1
  {
    var maxLine := Max(1, LineCount(s));
    var line := Min(p.line, maxLine);
    Position(line, Min(p.column, LineLength(s, line) + 1))
  }

  /** Clamping twice is clamping once. */
  lemma ClampIdempotent(p: CursorPos, s: string)
    ensures ClampCursor(ClampCursor(p, s), s) == ClampCursor(p, s)
  {
  }

  /** The cursor an editor ends up with after undo or redo wrote `content`:
      the operation's stored cursor when there is one, else the cursor the
      editor had before the write, each clamped to the new buffer; with
      neither, the position the write itself left. */
  function RestoredCursor(stored: Option<CursorPos>, previous: Option<CursorPos>, content: string): (r: CursorPos)
    ensures InBounds(r, content)
    ensures stored.Some? && InBounds(stored.value, content) ==> r == stored.value
    ensures stored.None? && previous.Some? && InBounds(previous.value, content) ==> r == previous.value
    ensures stored.Some? ==> r.line <= stored.value.line && r.column <= stored.value.column
    ensures stored.None? && previous.None? ==> r == FlushPosition
  {
    if stored.Some? then ClampCursor(stored.value, content)
    else if previous.Some? then ClampCursor(previous.value, content)
    else
      assert InBounds(FlushPosition, content);
      FlushPosition
  }

  // ---------------------------------------------------------------------
  // Invariant
  // ---------------------------------------------------------------------

  predicate IsChange(op: Operation) {
    op.beforeContent != op.afterContent
  }

  predicate AllChanges(ops: seq<Operation>) {
    forall op :: op in ops ==> IsChange(op)
  }

  /** What holds between any two top-level calls: both stacks together hold
      at most `MaxStackSize` operations, every operation is a real change, the
      re-entrancy flag is down, and each listener's snapshot matches its buffer. */
  predicate Valid(m: Manager) {
    && |m.undoStack| + |m.redoStack| <= MaxStackSize
    && AllChanges(m.undoStack)
    && AllChanges(m.redoStack)
    && !m.applying
    && forall b :: b in m.editors ==> m.editors[b].tracked == m.editors[b].value
  }

  function Empty(): (m: Manager)
    ensures Valid(m)
    ensures m.undoStack == [] && m.redoStack == [] && m.editors == map[]
  {
    Manager([], [], false, map[])
  }

  // ---------------------------------------------------------------------
  // Recording
  // ---------------------------------------------------------------------

  /** `recordOperationImmediate`: ignore a non-change; otherwise push the
      operation, drop the redo stack, and evict the oldest entry when the
      undo stack grew past its capacity. */
  function Record(m: Manager, b: BlockId, before: string, after: string, cursor: Option<CursorPos>): (r: Manager)
    ensures before == after ==> r == m
    ensures before != after ==>
      && r.redoStack == []
      && |r.undoStack| > 0
      && r.undoStack[|r.undoStack| - 1] == Operation(b, before, after, cursor)
      && (|m.undoStack| < MaxStackSize ==> r.undoStack[..|r.undoStack| - 1] == m.undoStack)
      && (|m.undoStack| >= MaxStackSize ==> r.undoStack[..|r.undoStack| - 1] == m.undoStack[1..])
    ensures |m.undoStack| <= MaxStackSize ==> |r.undoStack| <= MaxStackSize
    ensures r.editors == m.editors && r.applying == m.applying
    ensures Valid(m) ==> Valid(r)
  {
    if before == after then m
    else
      var op := Operation(b, before, after, cursor);
      var pushed := m.undoStack + [op];
      var kept := if |pushed| > MaxStackSize then pushed[1..] else pushed;
      assert kept[..|kept| - 1] == (if |pushed| > MaxStackSize then m.undoStack[1..] else m.undoStack);
      m.(undoStack := kept, redoStack := [])
  }

  /** The content-change listener `registerEditor` installs on the editor of
      `b`, run after its buffer became `v` with the cursor at `during`: record
      the change unless undo/redo is applying, then move both snapshots on. */
  function OnContentChange(m: Manager, b: BlockId, v: string, during: Option<CursorPos>): (r: Manager)
    ensures b !in m.editors ==> r == m
    ensures b in m.editors ==>
      && r.editors == m.editors[b := Surface(v, during, v, during)]
      && (m.applying ==> r.undoStack == m.undoStack && r.redoStack == m.redoStack)
      && (!m.applying ==> r == Record(m, b, m.editors[b].tracked, v, m.editors[b].trackedCursor).(editors := r.editors))
    ensures r.applying == m.applying
    ensures Valid(m) ==> Valid(r)
  {
    if b !in m.editors then m
    else
      var e := m.editors[b];
      var m1 := if m.applying then m else Record(m, b, e.tracked, v, e.trackedCursor);
      m1.(editors := m1.editors[b := Surface(v, during, v, during)])
  }

  /** The cursor listener: the editor moves its cursor, and the snapshot
      follows unless undo/redo is applying. */
  function MoveCursor(m: Manager, b: BlockId, p: CursorPos): (r: Manager)
    ensures b !in m.editors ==> r == m
    ensures r.editors.Keys == m.editors.Keys
    ensures forall c :: c in m.editors && c != b ==> r.editors[c] == m.editors[c]
    ensures b in m.editors ==> r.editors[b].position == Some(p) && r.editors[b].value == m.editors[b].value
    ensures b in m.editors && !m.applying ==> r.editors[b].trackedCursor == Some(p)
    ensures b in m.editors && m.applying ==> r.editors[b].trackedCursor == m.editors[b].trackedCursor
    ensures r.undoStack == m.undoStack && r.redoStack == m.redoStack
    ensures Valid(m) ==> Valid(r)
  {
    if b !in m.editors then m
    else
      var e := m.editors[b];
      var e' := if m.applying then e.(position := Some(p)) else e.(position := Some(p), trackedCursor := Some(p));
      m.(editors := m.editors[b := e'])
  }

  // ---------------------------------------------------------------------
  // Registration and history maintenance
  // ---------------------------------------------------------------------

  /** `registerEditor`: the editor of `b` is (re)placed in the registry, its
      snapshots taken from its current buffer and cursor. */
  function Register(m: Manager, b: BlockId, value: string, position: Option<CursorPos>): (r: Manager)
    ensures b in r.editors && r.editors[b].value == value && r.editors[b].position == position
    ensures r.editors[b].tracked == value && r.editors[b].trackedCursor == position
    ensures r.editors.Keys == m.editors.Keys + {b}
    ensures forall c :: c in m.editors && c != b ==> r.editors[c] == m.editors[c]
    ensures r.undoStack == m.undoStack && r.redoStack == m.redoStack
    ensures Valid(m) ==> Valid(r)
  {
    m.(editors := m.editors[b := Surface(value, position, value, position)])
  }

  /** The operations of `ops` that do not belong to block `b`, in order. */
  function Purge(ops: seq<Operation>, b: BlockId): (r: seq<Operation>)
    ensures forall op :: op in r <==> op in ops && op.blockId != b
    ensures |r| <= |ops|
  {
    if |ops| == 0 then []
    else if ops[0].blockId == b then Purge(ops[1..], b)
    else [ops[0]] + Purge(ops[1..], b)
  }

  /** Purging distributes over concatenation, so it keeps the relative order
      of the surviving operations. */
  lemma {:induction false} PurgeAppend(a: seq<Operation>, c: seq<Operation>, b: BlockId)
    ensures Purge(a + c, b) == Purge(a, b) + Purge(c, b)
  {
    if |a| == 0 {
      assert a + c == c;
    } else {
      assert (a + c)[1..] == a[1..] + c;
      PurgeAppend(a[1..], c, b);
    }
  }

  /** A stack without operations for `b` is left exactly as it was. */
  lemma {:induction false} PurgeUntouched(ops: seq<Operation>, b: BlockId)
    requires forall op :: op in ops ==> op.blockId != b
    ensures Purge(ops, b) == ops
  {
    if |ops| > 0 {
      assert ops[0] in ops;
      assert forall op :: op in ops[1..] ==> op in ops;
      PurgeUntouched(ops[1..], b);
      assert ops == [ops[0]] + ops[1..];
    }
  }

  /** Exactly the purged operations are lost: purge keeps the multiset of
      every other block's operations. */
  lemma {:induction false} PurgeCount(ops: seq<Operation>, b: BlockId, op: Operation)
    requires op.blockId != b
    ensures multiset(Purge(ops, b))[op] == multiset(ops)[op]
  {
    if |ops| > 0 {
      PurgeCount(ops[1..], b, op);
      assert ops == [ops[0]] + ops[1..];
    }
  }

  /** `unregisterEditor`: forget the editor of `b` and purge its operations
      from both stacks. */
  function Unregister(m: Manager, b: BlockId): (r: Manager)
    ensures b !in r.editors && r.editors.Keys == m.editors.Keys - {b}
    ensures forall c :: c in r.editors ==> r.editors[c] == m.editors[c]
    ensures forall op :: op in r.undoStack <==> op in m.undoStack && op.blockId != b
    ensures forall op :: op in r.redoStack <==> op in m.redoStack && op.blockId != b
    ensures Valid(m) ==> Valid(r)
  {
    m.(editors := m.editors - {b}, undoStack := Purge(m.undoStack, b), redoStack := Purge(m.redoStack, b))
  }

  /** `clearHistory`: both stacks emptied, editors kept. */
  function ClearHistory(m: Manager): (r: Manager)
    ensures r.undoStack == [] && r.redoStack == []
    ensures r.editors == m.editors
    ensures Valid(m) ==> Valid(r)
  {
    m.(undoStack := [], redoStack := [])
  }

  // ---------------------------------------------------------------------
  // Undo and redo
  // ---------------------------------------------------------------------

  /** `applyOperation` / `applyInverseOperation`: write `content` into the
      editor of `op.blockId` with the flag raised, restore the cursor, and
      raise a code-changed notice. An unregistered block changes nothing. */
  function Apply(m: Manager, op: Operation, content: string): (r: Step)
    ensures r.manager.undoStack == m.undoStack && r.manager.redoStack == m.redoStack
    ensures op.blockId !in m.editors ==> r == Step(m, [])
    ensures WroteBack(m.editors, m.applying, r, op, content)
  {
    var b := op.blockId;
    if b !in m.editors then Step(m, [])
    else
      var previous := m.editors[b].position;
      var raised := m.(applying := true);
      var written := OnContentChange(raised, b, content, Some(FlushPosition));
      var e := written.editors[b];
      var placed := written.(editors := written.editors[b := e.(position := Some(RestoredCursor(op.cursorBeforeChange, previous, content)))]);
      Step(placed.(applying := false), [CodeChanged(b, content)])
  }

  /** The effect of undo or redo on the editors: the editor of `op.blockId`,
      when registered, now holds `content` with its snapshot in step and its
      cursor restored, and a single code-changed notice reports it; with no
      such editor nothing but the stacks changed. No other editor changes. */
  predicate WroteBack(editors: map<BlockId, Surface>, applying: bool, r: Step, op: Operation, content: string) {
    var b := op.blockId;
    && r.manager.editors.Keys == editors.Keys
    && (b !in editors ==> r.manager.applying == applying)
    && (b in editors ==> !r.manager.applying)
    && (forall c :: c in editors && c != b ==> r.manager.editors[c] == editors[c])
    && (b !in editors ==> r.manager.editors == editors && r.notices == [])
    && (b in editors ==>
          && r.manager.editors[b].value == content
          && r.manager.editors[b].tracked == content
          && r.manager.editors[b].position == Some(RestoredCursor(op.cursorBeforeChange, editors[b].position, content))
          && r.notices == [CodeChanged(b, content)])
  }

  /** `undo`: move the top undo operation to the redo stack and write its
      `beforeContent` back. */
  function Undo(m: Manager): (r: Step)
    ensures |m.undoStack| == 0 ==> r == Step(m, [])
    ensures |m.undoStack| > 0 ==>
      var op := m.undoStack[|m.undoStack| - 1];
      && r.manager.undoStack == m.undoStack[..|m.undoStack| - 1]
      && r.manager.redoStack == m.redoStack + [op]
      && WroteBack(m.editors, m.applying, r, op, op.beforeContent)
    ensures multiset(r.manager.undoStack) + multiset(r.manager.redoStack)
         == multiset(m.undoStack) + multiset(m.redoStack)
    ensures r.manager.editors.Keys == m.editors.Keys
    ensures Valid(m) ==> Valid(r.manager)
  {
    if |m.undoStack| == 0 then Step(m, [])
    else
      var n := |m.undoStack|;
      var op := m.undoStack[n - 1];
      assert m.undoStack == m.undoStack[..n - 1] + [op];
      Apply(m.(undoStack := m.undoStack[..n - 1], redoStack := m.redoStack + [op]), op, op.beforeContent)
  }

  /** `redo`: the mirror image of `Undo`, writing `afterContent`. */
  function Redo(m: Manager): (r: Step)
    ensures |m.redoStack| == 0 ==> r == Step(m, [])
    ensures |m.redoStack| > 0 ==>
      var op := m.redoStack[|m.redoStack| - 1];
      && r.manager.redoStack == m.redoStack[..|m.redoStack| - 1]
      && r.manager.undoStack == m.undoStack + [op]
      && WroteBack(m.editors, m.applying, r, op, op.afterContent)
    ensures multiset(r.manager.undoStack) + multiset(r.manager.redoStack)
         == multiset(m.undoStack) + multiset(m.redoStack)
    ensures r.manager.editors.Keys == m.editors.Keys
    ensures Valid(m) ==> Valid(r.manager)
  {
    if |m.redoStack| == 0 then Step(m, [])
    else
      var n := |m.redoStack|;
      var op := m.redoStack[n - 1];
      assert m.redoStack == m.redoStack[..n - 1] + [op];
      Apply(m.(undoStack := m.undoStack + [op], redoStack := m.redoStack[..n - 1]), op, op.afterContent)
  }

  /** The page-wide shortcut listener: Ctrl/Cmd+Z undoes, Ctrl/Cmd+Shift+Z
      and Ctrl/Cmd+Y redo; keys typed into a plain input or text area outside
      an editor are left alone. */
  function ShortcutCommand(e: KeyEvent): (r: Option<Command>)
    ensures r == Some(UndoCommand) <==>
      !IsPlainInput(e.target) && CtrlOrCmd(e) && e.key == "z" && !e.shiftKey
    ensures r == Some(RedoCommand) <==>
      !IsPlainInput(e.target) && CtrlOrCmd(e) && (e.key == "y" || (e.key == "z" && e.shiftKey))
  {
    if IsPlainInput(e.target) then None
    else if CtrlOrCmd(e) && e.key == "z" && !e.shiftKey then Some(UndoCommand)
    else if CtrlOrCmd(e) && ((e.key == "z" && e.shiftKey) || e.key == "y") then Some(RedoCommand)
    else None
  }

  /** A plain `INPUT` or `TEXTAREA` outside any Monaco editor. */
  function IsPlainInput(t: Target): (r: bool)
    ensures t.insideMonaco ==> !r
    ensures r ==> t.tagName == "INPUT" || t.tagName == "TEXTAREA"
  {
    (t.tagName == "INPUT" || t.tagName == "TEXTAREA") && !t.insideMonaco
  }

  /** The listener acting on the manager: a key typed into a plain input, or
      without Ctrl/Cmd, changes nothing; any chord moves at most one
      operation between the stacks, loses none, raises at most one notice and
      keeps the invariant. */
  function HandleShortcut(m: Manager, e: KeyEvent): (r: Step)
    ensures IsPlainInput(e.target) || !CtrlOrCmd(e) ==> r == Step(m, [])
    ensures multiset(r.manager.undoStack) + multiset(r.manager.redoStack)
         == multiset(m.undoStack) + multiset(m.redoStack)
    ensures |m.undoStack| - 1 <= |r.manager.undoStack| <= |m.undoStack| + 1
    ensures r.manager.editors.Keys == m.editors.Keys
    ensures |r.notices| <= 1
    ensures Valid(m) ==> Valid(r.manager)
  {
    match ShortcutCommand(e)
    case None => Step(m, [])
    case Some(UndoCommand) => Undo(m)
    case Some(RedoCommand) => Redo(m)
  }

  /** Ctrl/Cmd+Z then Ctrl/Cmd+Shift+Z (or Ctrl/Cmd+Y), both through the
      listener, give back both stacks, and the buffer too when it held the
      undone operation's result. */
  lemma ChordUndoThenRedo(m: Manager, undoKey: KeyEvent, redoKey: KeyEvent)
    requires |m.undoStack| > 0
    requires !IsPlainInput(undoKey.target) && CtrlOrCmd(undoKey) && undoKey.key == "z" && !undoKey.shiftKey
    requires !IsPlainInput(redoKey.target) && CtrlOrCmd(redoKey)
    requires redoKey.key == "y" || (redoKey.key == "z" && redoKey.shiftKey)
    ensures
      var op := m.undoStack[|m.undoStack| - 1];
      var r := HandleShortcut(HandleShortcut(m, undoKey).manager, redoKey);
      && r.manager.undoStack == m.undoStack
      && r.manager.redoStack == m.redoStack
      && (op.blockId in m.editors && m.editors[op.blockId].value == op.afterContent ==>
            r.manager.editors[op.blockId].value == m.editors[op.blockId].value)
  {
    UndoThenRedo(m);
  }

  /** `undo` applied `k` times, collecting every notice raised. Each call
      moves one operation while there is one, so the undo stack shrinks by
      `k` down to empty, nothing is lost, and only registered editors are
      ever written to. */
  function UndoTimes(m: Manager, k: nat): (r: Step)
    ensures |r.manager.undoStack| == if k >= |m.undoStack| then 0 else |m.undoStack| - k
    ensures multiset(r.manager.undoStack) + multiset(r.manager.redoStack)
         == multiset(m.undoStack) + multiset(m.redoStack)
    ensures r.manager.editors.Keys == m.editors.Keys
    ensures forall n :: n in r.notices ==> n.blockId in m.editors
    ensures Valid(m) ==> Valid(r.manager)
    decreases k
  {
    if k == 0 then Step(m, [])
    else
      var first := Undo(m);
      var rest := UndoTimes(first.manager, k - 1);
      Step(rest.manager, first.notices + rest.notices)
  }

  // ---------------------------------------------------------------------
  // Properties of the timeline
  // ---------------------------------------------------------------------

  /** Redo right after a successful undo puts both stacks back exactly, and
      the block's buffer too when it held the operation's result. */
  lemma UndoThenRedo(m: Manager)
    requires |m.undoStack| > 0
    ensures
      var op := m.undoStack[|m.undoStack| - 1];
      var r := Redo(Undo(m).manager);
      && r.manager.undoStack == m.undoStack
      && r.manager.redoStack == m.redoStack
      && r.manager.editors.Keys == m.editors.Keys
      && (forall c :: c in m.editors && c != op.blockId ==> r.manager.editors[c] == m.editors[c])
      && (op.blockId !in m.editors ==> r.manager == m && r.notices == [])
      && (op.blockId in m.editors ==> r.notices == [CodeChanged(op.blockId, op.afterContent)])
      && (op.blockId in m.editors && m.editors[op.blockId].value == op.afterContent ==>
            r.manager.editors[op.blockId].value == m.editors[op.blockId].value)
  {
    var n := |m.undoStack|;
    var u := Undo(m).manager;
    assert u.redoStack[|u.redoStack| - 1] == m.undoStack[n - 1];
    assert u.redoStack[..|u.redoStack| - 1] == m.redoStack;
    assert u.undoStack + [m.undoStack[n - 1]] == m.undoStack;
  }

  /** Undo right after a successful redo is the mirror image. */
  lemma RedoThenUndo(m: Manager)
    requires |m.redoStack| > 0
    ensures
      var op := m.redoStack[|m.redoStack| - 1];
      var r := Undo(Redo(m).manager);
      && r.manager.undoStack == m.undoStack
      && r.manager.redoStack == m.redoStack
      && r.manager.editors.Keys == m.editors.Keys
      && (forall c :: c in m.editors && c != op.blockId ==> r.manager.editors[c] == m.editors[c])
      && (op.blockId !in m.editors ==> r.manager == m && r.notices == [])
      && (op.blockId in m.editors ==> r.notices == [CodeChanged(op.blockId, op.beforeContent)])
      && (op.blockId in m.editors && m.editors[op.blockId].value == op.beforeContent ==>
            r.manager.editors[op.blockId].value == m.editors[op.blockId].value)
  {
    var n := |m.redoStack|;
    var u := Redo(m).manager;
    assert u.undoStack[|u.undoStack| - 1] == m.redoStack[n - 1];
    assert u.undoStack[..|u.undoStack| - 1] == m.undoStack;
    assert u.redoStack + [m.redoStack[n - 1]] == m.redoStack;
  }

  /** A user edit in a registered editor is recorded with the buffer it
      replaced; one undo gives that buffer back without recording anything,
      and redo reapplies the edit. */
  lemma EditThenUndo(m: Manager, b: BlockId, v: string, p: Option<CursorPos>)
    requires Valid(m) && b in m.editors && v != m.editors[b].value
    ensures
      var old_ := m.editors[b];
      var op := Operation(b, old_.value, v, old_.trackedCursor);
      var edited := OnContentChange(m, b, v, p);
      var undone := Undo(edited);
      var redone := Redo(undone.manager);
      && edited.undoStack[|edited.undoStack| - 1] == op
      && edited.redoStack == []
      && undone.manager.editors[b].value == old_.value
      && undone.notices == [CodeChanged(b, old_.value)]
      && undone.manager.redoStack == [op]
      && (|m.undoStack| < MaxStackSize ==> undone.manager.undoStack == m.undoStack)
      && redone.manager.editors[b].value == v
      && redone.manager.undoStack == edited.undoStack
      && redone.manager.redoStack == []
  {
    var edited := OnContentChange(m, b, v, p);
    assert edited.undoStack[..|edited.undoStack| - 1] == Undo(edited).manager.undoStack;
    UndoThenRedo(edited);
  }

  /** A new change discards the redo future: redo right after it does nothing. */
  lemma RecordDiscardsRedo(m: Manager, b: BlockId, before: string, after: string, cursor: Option<CursorPos>)
    requires before != after
    ensures Redo(Record(m, b, before, after, cursor)) == Step(Record(m, b, before, after, cursor), [])
  {
  }

  /** Undoing at least as many times as there are recorded operations empties
      the undo stack, after which one more undo does nothing. */
  lemma {:induction false} UndoExhausts(m: Manager, k: nat)
    requires k >= |m.undoStack|
    ensures UndoTimes(m, k).manager.undoStack == []
    ensures Undo(UndoTimes(m, k).manager) == Step(UndoTimes(m, k).manager, [])
  {
  }

  /** Once the editor of `b` is unregistered, no sequence of undos raises a
      notice for `b` or writes to it: its history cannot come back. */
  lemma NoResurrection(m: Manager, b: BlockId, k: nat)
    ensures
      var r := UndoTimes(Unregister(m, b), k);
      && b !in r.manager.editors
      && (forall n :: n in r.notices ==> n.blockId != b)
      && (forall op :: op in r.manager.undoStack + r.manager.redoStack ==> op.blockId != b)
  {
    var u := Unregister(m, b);
    var r := UndoTimes(u, k);
    forall op | op in r.manager.undoStack + r.manager.redoStack
      ensures op.blockId != b
    {
      assert op in multiset(r.manager.undoStack) + multiset(r.manager.redoStack);
      assert op in multiset(u.undoStack) + multiset(u.redoStack);
    }
  }

  // ---------------------------------------------------------------------
  // Undoing everything
  // ---------------------------------------------------------------------

  /** The content block `b` had before the operations of `ops` were applied,
      reading the stack from its top down from the current content `cur`;
      none when an operation of `b` does not fit the content it is undone
      from. */
  function Rewind(ops: seq<Operation>, b: BlockId, cur: string): Option<string>
    decreases |ops|
  {
    if |ops| == 0 then Some(cur)
    else
      var top := ops[|ops| - 1];
      var below := ops[..|ops| - 1];
      if top.blockId != b then Rewind(below, b, cur)
      else if top.afterContent == cur then Rewind(below, b, top.beforeContent)
      else None
  }

  /** The undo stack leads every registered block back to its content in
      `origin`. */
  ghost predicate Reaches(m: Manager, origin: map<BlockId, string>) {
    forall b :: b in m.editors ==> b in origin && Rewind(m.undoStack, b, m.editors[b].value) == Some(origin[b])
  }

  /** With an empty undo stack, the current contents are the origin. */
  lemma EmptyHistoryReaches(m: Manager)
    requires m.undoStack == []
    ensures Reaches(m, map b | b in m.editors :: m.editors[b].value)
  {
  }

  /** A user edit that does not overflow the undo stack keeps the way back. */
  lemma EditKeepsReaches(m: Manager, origin: map<BlockId, string>, b: BlockId, v: string, p: Option<CursorPos>)
    requires Valid(m) && Reaches(m, origin) && |m.undoStack| < MaxStackSize
    ensures Reaches(OnContentChange(m, b, v, p), origin)
  {
    var r := OnContentChange(m, b, v, p);
    if b in m.editors && v != m.editors[b].value {
      var op := r.undoStack[|r.undoStack| - 1];
      assert r.undoStack[..|r.undoStack| - 1] == m.undoStack;
      forall c | c in r.editors
        ensures Rewind(r.undoStack, c, r.editors[c].value) == Some(origin[c])
      {
        if c == b {
          assert Rewind(r.undoStack, c, v) == Rewind(m.undoStack, c, op.beforeContent);
        } else {
          assert Rewind(r.undoStack, c, r.editors[c].value) == Rewind(m.undoStack, c, m.editors[c].value);
        }
      }
    }
  }

  /** An undo keeps the way back: it walks one step of it. */
  lemma UndoKeepsReaches(m: Manager, origin: map<BlockId, string>)
    requires Reaches(m, origin)
    ensures Reaches(Undo(m).manager, origin)
  {
    if |m.undoStack| > 0 {
      var r := Undo(m).manager;
      var op := m.undoStack[|m.undoStack| - 1];
      forall c | c in r.editors
        ensures Rewind(r.undoStack, c, r.editors[c].value) == Some(origin[c])
      {
        assert Rewind(m.undoStack, c, m.editors[c].value) == Some(origin[c]);
      }
    }
  }

  /** Moving a cursor keeps the way back: no buffer changes. */
  lemma MoveKeepsReaches(m: Manager, origin: map<BlockId, string>, b: BlockId, p: CursorPos)
    requires Reaches(m, origin)
    ensures Reaches(MoveCursor(m, b, p), origin)
  {
  }

  /** On the way back, the block of the top undo operation, when registered,
      holds that operation's result. */
  lemma TopHoldsAfter(m: Manager, origin: map<BlockId, string>)
    requires Reaches(m, origin) && |m.undoStack| > 0
    ensures
      var op := m.undoStack[|m.undoStack| - 1];
      op.blockId in m.editors ==> m.editors[op.blockId].value == op.afterContent
  {
    var op := m.undoStack[|m.undoStack| - 1];
    if op.blockId in m.editors {
      assert Rewind(m.undoStack, op.blockId, m.editors[op.blockId].value) != None;
    }
  }

  /** In a state on the way back, undo then redo gives back both stacks and
      every buffer. */
  lemma ReachableUndoThenRedo(m: Manager, origin: map<BlockId, string>)
    requires Reaches(m, origin) && |m.undoStack| > 0
    ensures
      var r := Redo(Undo(m).manager).manager;
      && r.undoStack == m.undoStack && r.redoStack == m.redoStack
      && r.editors.Keys == m.editors.Keys
      && forall c :: c in m.editors ==> r.editors[c].value == m.editors[c].value
  {
    TopHoldsAfter(m, origin);
    UndoThenRedo(m);
  }

  /** Undoing as many times as there are recorded operations brings every
      registered block back to its content before the recorded history. */
  lemma {:induction false} UndoAllRestores(m: Manager, origin: map<BlockId, string>, k: nat)
    requires Reaches(m, origin) && k >= |m.undoStack|
    ensures forall b :: b in UndoTimes(m, k).manager.editors ==>
      b in origin && UndoTimes(m, k).manager.editors[b].value == origin[b]
    decreases k
  {
    if k == 0 {
    } else {
      UndoKeepsReaches(m, origin);
      UndoAllRestores(Undo(m).manager, origin, k - 1);
    }
  }

  /** Two blocks edited one after the other: the first undo restores the
      second block, the second undo the first, and a third undo does nothing. */
  lemma TwoBlockScenario()
    ensures
      var m0 := Register(Register(Empty(), "B1", "x=1", None), "B2", "print(x)", None);
      var m1 := OnContentChange(m0, "B1", "x=2", None);
      var m2 := OnContentChange(m1, "B2", "print(x+1)", None);
      var u1 := Undo(m2);
      var u2 := Undo(u1.manager);
      var u3 := Undo(u2.manager);
      && u1.manager.editors["B2"].value == "print(x)"
      && u1.manager.editors["B1"].value == "x=2"
      && u1.notices == [CodeChanged("B2", "print(x)")]
      && u2.manager.editors["B1"].value == "x=1"
      && u2.notices == [CodeChanged("B1", "x=1")]
      && u3 == Step(u2.manager, [])
  {
    var m0 := Register(Register(Empty(), "B1", "x=1", None), "B2", "print(x)", None);
    var m1 := OnContentChange(m0, "B1", "x=2", None);
    var m2 := OnContentChange(m1, "B2", "print(x+1)", None);
    assert m1.undoStack == [Operation("B1", "x=1", "x=2", None)];
    assert m2.undoStack == [Operation("B1", "x=1", "x=2", None), Operation("B2", "print(x)", "print(x+1)", None)];
  }
}
