/** The editor's vim state of types.ts, as far as the key handler and the Ex
    dispatcher read and write it. */

module Types {
  import opened InputStates

  /** The parts of `adapter.state.vim` that `findKey` and `_processCommand` read and write
      (src/types.ts). */
  class VimState {
    var insertMode: bool
    var visualMode: bool
    var inputState: InputState

    /** `maybeInitVimState`: normal mode with an empty input state. */
    constructor ()
      ensures !insertMode && !visualMode && fresh(inputState) && Cleared(inputState)
    {
      insertMode, visualMode := false, false;
      inputState := new InputState();
    }
  }

  /** The state of a freshly built `InputState`. */
  predicate Cleared(s: InputState)
    reads s
  {
    && s.Valid() && s.keyBuffer == "" && s.prefixRepeat == [] && s.motionRepeat == []
    && s.operator.None? && s.operatorShortcut.None?
  }
}
