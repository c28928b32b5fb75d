/** A browser `keydown` event as the two keyboard listeners of the editor page
    see it: the logical key, the physical key code, the four modifier flags,
    and where the event was targeted. */
module KeyEvents {

  /** The element the event was dispatched to: its tag name and whether it
      sits inside a Monaco editor (`target.closest('.monaco-editor')`). */
  datatype Target = Target(tagName: string, insideMonaco: bool)

  datatype KeyEvent = KeyEvent(
    key: string,       // `event.key`, e.g. "Enter", "ArrowUp", "z", "1"
    code: string,      // `event.code`, e.g. "Digit1"
    ctrlKey: bool,
    shiftKey: bool,
    metaKey: bool,
    altKey: bool,
    target: Target)

  /** Either platform's command modifier: Ctrl or Cmd. */
  predicate CtrlOrCmd(e: KeyEvent) {
    e.ctrlKey || e.metaKey
  }
}
