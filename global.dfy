/** The session-wide state of global.ts. JavaScript's module-level binding
    `vimGlobalState` is modelled as a field of a scope object, and
    `resetVimGlobalState` as building a fresh state and assigning it there. */
module Globals {
  import opened Common
  import opened RegisterControllers
  import opened JumpLists
  import opened MacroModeStates

  /** The latest `f`, `t`, `F` or `T` motion. */
  datatype CharacterSearch = CharacterSearch(increment: int, forward: bool, selectedCharacter: string)

  class VimGlobalState {
    var searchQuery: Option<string>
    var searchIsReversed: bool
    var lastSubstituteReplacePart: Option<string>
    var jumpList: CircularJumpList
    var macroModeState: MacroModeState
    var lastCharacterSearch: CharacterSearch
    var registerController: RegisterController

    /** The record `resetVimGlobalState` builds. `validRegisters` is the keymap's
        list of register names the controller consults. */
    constructor (validRegisters: seq<string>)
      requires NumbersValid(validRegisters)
      ensures searchQuery.None? && !searchIsReversed && lastSubstituteReplacePart.None?
      ensures lastCharacterSearch == CharacterSearch(0, true, "")
      ensures fresh(jumpList) && fresh(jumpList.buffer) && jumpList.Valid()
      ensures jumpList.pointer == -1 && jumpList.head == 0 && jumpList.tail == 0
      ensures jumpList.buffer[..] == seq(Size, _ => None)
      ensures fresh(macroModeState) && macroModeState.Val() == MacroVal(None, false, false, [], None)
      ensures fresh(registerController) && fresh(registerController.registers.Values) && registerController.Valid()
      ensures registerController.View() == map[UnnamedName := EmptyVal, "." := EmptyVal, ":" := EmptyVal, "/" := EmptyVal]
    {
      searchQuery := None;
      searchIsReversed := false;
      lastSubstituteReplacePart := None;
      jumpList := new CircularJumpList();
      macroModeState := new MacroModeState();
      lastCharacterSearch := CharacterSearch(0, true, "");
      registerController := new RegisterController(validRegisters);
    }
  }

  /** Holds the module-level `vimGlobalState` binding. */
  class GlobalScope {
    var vimGlobalState: VimGlobalState?

    /** Before the first reset the binding is unset. */
    constructor ()
      ensures vimGlobalState == null
    {
      vimGlobalState := null;
    }

    /** `resetVimGlobalState()`: the binding is replaced by a freshly built state
        whose stores are all new objects, so none is shared with an earlier state. */
    method ResetVimGlobalState(validRegisters: seq<string>)
      requires NumbersValid(validRegisters)
      modifies this`vimGlobalState
      ensures vimGlobalState != null && fresh(vimGlobalState)
      ensures var g := vimGlobalState;
        && fresh(g.jumpList) && fresh(g.macroModeState) && fresh(g.registerController)
        && g.jumpList.Valid() && g.jumpList.pointer == -1 && g.jumpList.head == 0 && g.jumpList.tail == 0
        && !g.macroModeState.isRecording
        && g.lastCharacterSearch == CharacterSearch(0, true, "") && !g.searchIsReversed
        && g.registerController.Valid()
        && g.registerController.View() == map[UnnamedName := EmptyVal, "." := EmptyVal, ":" := EmptyVal, "/" := EmptyVal]
      ensures old(vimGlobalState) != null ==>
        && vimGlobalState.jumpList != old(vimGlobalState.jumpList)
        && vimGlobalState.macroModeState != old(vimGlobalState.macroModeState)
        && vimGlobalState.registerController != old(vimGlobalState.registerController)
    {
      vimGlobalState := new VimGlobalState(validRegisters);
    }
  }
}
