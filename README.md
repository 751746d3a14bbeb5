# vim-monaco command engine, modelled in Dafny

This project models the command engine of vim-monaco, a Vim emulation layer for
the Monaco editor written in TypeScript, and proves properties of the model. It
covers how keys become commands, how Ex command lines are parsed and run, and the
session state those two layers share.

Each source file becomes one module.

- `Common` (common.dfy): the JavaScript string primitives the engine relies on
  (`charAt`, `slice`, `substring`, `trim`, `split(/\s+/)`, `parseInt` of a digit run)
  and the character classes of its regular expressions.
- `KeyMaps` (keymap.dfy): the key mapping and Ex command records. It also holds the
  shared key map, a class whose user mappings are put in front of its built-in entries.
- `StringStreams` (string_stream.dfy): the `StringStream` cursor over a command line.
  It is a class whose methods move `pos`. Each regular expression the parsers pass to
  `match` is written out as a function.
- `Adapters` (adapter.dfy): selections and the conversion between Monaco's one-based
  positions and the adapter's zero-based ones. It also covers `lookupKey` over a
  key-map chain with fallthrough, the event listener table, and the bookmark table
  behind `setBookmark`.
- `InputStates` (input_state.dfy): the pending count, as digit runs pushed one at a
  time, and `getRepeat`.
- `MacroModeStates` (macro_mode_state.dfy): entering and leaving macro recording.
- `RegisterControllers` (register_controller.dfy): registers and their routing.
  Routing covers the black hole, yank, small-delete and line-delete defaults, and
  the shift of the numbered registers. It also covers named and upper-case
  (append) registers, the unnamed register's copy, and `defineRegister`.
  The controller is a class over a map from names to `Register` objects. Its
  invariant keeps each name bound to an object of its own; every operation keeps
  it, except `defineRegister` of an object already stored under another name,
  which the source accepts and the model stores too, so that the two names then
  share the object and the invariant is lost.
- `JumpLists` (jump_list.dfy): the circular jump list over a 100-slot array of
  bookmarks. This covers `add`, `move` with its skip over stale bookmarks, and `find`.
- `Globals` (global.dfy): `resetVimGlobalState`.
- `ExCommandDispatchers` (ex_command_dispatcher.dfy): the default command table,
  `matchCommand_` as a longest-prefix search, and line specifications with offsets.
  It also covers ranges, command names and arguments, the `:` history register,
  dispatch of the command kinds, and `map` / `unmap`.
- `VimApis` (vim_api.dfy): `findKey` in insert and normal mode, and
  `doKeyToKey`'s tokenizer. It also covers `defineEx`, `noremap`, `mapclear`, and
  the reset of the editor's vim state when a command throws.

Operations that change objects in place are methods on classes. Each is proved
against a function of its inputs and old state, and the properties are proved as
lemmas about those functions. The editor is reached through parameters:
- `LineEnv` gives the first, last and cursor line, and the marks;
- a `Matcher` function stands for `commandDispatcher.matchCommand`;
- a `CommandRunner` stands for the bodies of the Ex commands;
- a marker-lookup function stands for `Marker.find`.

## Model

| member | source | states |
|---|---|---|
| `Adapters.From` | src/adapter.ts:24-32 | the result is one end of the selection, at or before both ends, and it is the anchor exactly when the anchor comes first or both ends are equal |
| `Adapters.Empty` | src/adapter.ts:35-37 | true exactly when anchor and head are the same position, which is when neither comes before the other |
| `Adapters.FromIsStart` | src/adapter.ts:24-37 | `from()` is at or before the other end, and equals it exactly when the selection is empty |
| `Adapters.ToAdapterPos` | src/adapter.ts:40-42 | line and column are each one less than Monaco's |
| `Adapters.ToMonacoPos` | src/adapter.ts:44-46 | line and column are each one more than the adapter's |
| `Adapters.PositionRoundTrips` | src/adapter.ts:40-46 | converting to Monaco and back, or back and forth, gives the same position |
| `Adapters.ConversionKeepsOrder` | src/adapter.ts:40-46 | the conversion is injective and keeps document order |
| `Adapters.LookupDirect` | src/adapter.ts:137-160 | a `false` binding gives "nothing", `"..."` gives "multi", a binding the handler accepts gives "handled", and a map without fallthrough always gives a result |
| `Adapters.LookupKey` | src/adapter.ts:137-171 | reports `handled` only when a handler was given (the empty fallthrough name is stated by `LookupFallsToOne`) |
| `Adapters.LookupEach` | src/adapter.ts:166-169 | the walk over a fallthrough list reports `handled` only when a handler was given |
| `Adapters.FirstTruthy` | src/adapter.ts:165-168 | the result is the first truthy lookup, with no truthy one before it, or undefined when none is truthy |
| `Adapters.Lookups` | src/adapter.ts:165-167 | one lookup per fallthrough map, in order |
| `Adapters.LookupEachIsFirstTruthy` | src/adapter.ts:165-168 | the fallthrough loop returns the first truthy result of the lookups in order |
| `Adapters.DirectFallMany` | src/adapter.ts:162-169 | an unresolved key with an array fallthrough is looked up in each fallthrough map in turn |
| `Adapters.LookupFallsToOne` | src/adapter.ts:162-165 | with no direct answer, a single fallthrough is looked up by name with the same key and handler, and an empty name answers `undefined` |
| `Adapters.LookupFallsThrough` | src/adapter.ts:137-170 | through an array fallthrough, the result is undefined exactly when every fallthrough lookup is falsy, and otherwise it is the first truthy one |
| `Adapters.FirstOfLookups` | src/adapter.ts:165-168 | the first truthy result of a list of lookups, stated in both directions |
| `Adapters.RemoveAll` | src/adapter.ts:477-484 | the handler no longer appears, and every other handler keeps its number of occurrences |
| `Adapters.RemoveAllConcat` | src/adapter.ts:483 | filtering distributes over concatenation |
| `Adapters.RemoveAllAbsent` | src/adapter.ts:483 | filtering a handler that is not there changes nothing |
| `Adapters.OffUndoesOn` | src/adapter.ts:469-484 | `off` after `on` of a new handler restores the listener list |
| `Adapters.Listeners.constructor` | src/adapter.ts:177 | the listener table starts empty |
| `Adapters.Listeners.On` | src/adapter.ts:469-475 | the handler is appended to its event's list, which is created if missing, and no other event changes |
| `Adapters.Listeners.Off` | src/adapter.ts:477-484 | every occurrence of the handler is removed from its event, an unknown event changes nothing, and no other event changes |
| `Adapters.Listeners.Dispatch` | src/adapter.ts:431-438 | a signal nobody listens to calls no handler |
| `Adapters.AdapterFind` | src/adapter.ts:67-69 | a bookmark is always found at its own line and column |
| `Adapters.MarkTable.constructor` | src/adapter.ts:174-175 | no marks, and the counter at 0 |
| `Adapters.MarkTable.SetBookmark` | src/adapter.ts:709-717 | the new bookmark takes the next unused id, sits at the cursor and is registered; it inserts right unless `insertLeft` is set; the counter goes up by one |
| `Adapters.MarkTable.Clear` | src/adapter.ts:63-65 | exactly that mark is removed from the table |
| `StringStreams.EatWhileEnd` | src/string-stream.ts:46-50 | the loop never moves the position back |
| `StringStreams.EatWhileSpan` | src/string-stream.ts:33-50 | every character passed is accepted, and the character where it stops is not |
| `StringStreams.IndexOf` | src/string-stream.ts:64-70 | the first occurrence at or after the start, or -1 when there is none |
| `StringStreams.DigitRun` | src/string-stream.ts:107-116 | the maximal leading digit run, present exactly when the rest starts with a digit |
| `StringStreams.DigitRunOf` | src/string-stream.ts:107-116 | digits followed by a non-digit are matched exactly |
| `StringStreams.SignedDigitRun` | src/string-stream.ts:107-116 | an optional `+`/`-` sign followed by a digit run at the start of the rest |
| `StringStreams.SignedDigitRunOf` | src/string-stream.ts:107-116 | a sign and digits followed by a non-digit are matched exactly |
| `StringStreams.CommandNameToken` | src/ex-command-dispatcher.ts:151-156 | a non-empty prefix of the rest, absent exactly when the rest does not start with a word or command punctuation character |
| `StringStreams.LineText` | src/string-stream.ts:107-116 | the longest prefix without a line terminator |
| `StringStreams.StringStream.constructor` | src/string-stream.ts:10-13 | positions start at 0, and the tab size is the one given, or 8 when it is missing or 0 |
| `StringStreams.StringStream.Peek` | src/string-stream.ts:23-25 | the character at the position, absent exactly at the end of line or before the start |
| `StringStreams.StringStream.Next` | src/string-stream.ts:27-31 | returns the current character and advances by one, or stays put at the end |
| `StringStreams.StringStream.Eat` | src/string-stream.ts:33-44 | consumes one character exactly when the matcher accepts it |
| `StringStreams.StringStream.EatWhile` | src/string-stream.ts:46-50 | stops where the loop function says, and reports whether it moved |
| `StringStreams.StringStream.EatSpace` | src/string-stream.ts:52-58 | skips the white space run and reports whether it moved |
| `StringStreams.StringStream.SkipToEnd` | src/string-stream.ts:60-62 | the position reaches the end of the string |
| `StringStreams.StringStream.SkipTo` | src/string-stream.ts:64-70 | moves to the next occurrence of the character when there is one, otherwise stays |
| `StringStreams.StringStream.BackUp` | src/string-stream.ts:72-74 | moves back by exactly `n` |
| `StringStreams.StringStream.MatchString` | src/string-stream.ts:95-106 | matches exactly when the text at the position equals the pattern (case-folded if asked), and consumes it only when asked |
| `StringStreams.StringStream.MatchDigits` | src/string-stream.ts:107-116 | returns the `/^(\d+)/` match at the position and consumes exactly it |
| `StringStreams.StringStream.MatchSignedDigits` | src/string-stream.ts:107-116 | returns the `/^([+-]?)(\d+)/` match at the position and consumes exactly it |
| `StringStreams.StringStream.MatchCommandName` | src/string-stream.ts:107-116 | returns the command-name match at the position and consumes exactly it |
| `StringStreams.StringStream.MatchLine` | src/string-stream.ts:107-116 | returns the `/.*/` match at the position and consumes exactly it |
| `StringStreams.StringStream.Current` | src/string-stream.ts:119-121 | the text between the token start and the position |
| `StringStreams.StringStream.HideFirstChars` | src/string-stream.ts:123-130 | the inner step runs with the line start moved by `n`; its value or its error is the result, the stream stays where the inner step left it (also when it throws), and only the line start is put back |
| `StringStreams.NextThenBackUp` | src/string-stream.ts:27-31 | `next` then `backUp(1)` returns the current character and leaves the position unchanged |
| `KeyMaps.Keymap.constructor` | src/vim-api.ts:74 | the map holds the defaults, and their number is recorded as the default length |
| `KeyMaps.Keymap.MapCommand` | src/vim-api.ts:403-405 | the new mapping goes in front of every existing entry |
| `InputStates.JoinOfRuns` | src/input-state.ts:27-39 | concatenated digit runs are all digits |
| `InputStates.PushedRunExtendsValue` | src/input-state.ts:19-39 | pushing a digit run shifts the count left by the run's length and adds the run's value |
| `InputStates.DigitsOneByOne` | src/input-state.ts:19-25 | pushing a number's digits one by one gives the same count as pushing it whole |
| `InputStates.LeadingNonZeroPositive` | src/input-state.ts:27-39 | a run starting with 1-9 has a positive value |
| `InputStates.RunsValuePositive` | src/input-state.ts:27-39 | runs starting with 1-9 give a positive count |
| `InputStates.Singletons` | src/input-state.ts:19-25 | each character becomes its own one-character run, in order |
| `InputStates.InputState.constructor` | src/input-state.ts:5-17 | no count, no keys buffered, and no operator, motion or register |
| `InputStates.InputState.PushRepeatDigit` | src/input-state.ts:19-25 | the run goes to the motion count when an operator is pending, and to the prefix count otherwise; the other is untouched |
| `InputStates.InputState.GetRepeat` | src/input-state.ts:27-39 | 0 without counts; otherwise the prefix value, the motion value, or their product when both are given |
| `InputStates.GetRepeatZeroIffNoCount` | src/input-state.ts:27-39 | for counts typed as the dispatcher accepts them, the repeat is 0 exactly when no count was typed |
| `MacroModeStates.ExitSpec` | src/macro-mode-state.ts:17-23 | recording stops, and the dismiss callback is handed out once and cleared; register and playback state are kept |
| `MacroModeStates.EnterSpec` | src/macro-mode-state.ts:25-36 | recording starts into the named register with the new callback; playback state is kept |
| `MacroModeStates.ClearedForRecording` | src/macro-mode-state.ts:26-29 | the recording register (created if missing) is emptied and is no longer linewise; every other register is unchanged |
| `MacroModeStates.EnterThenTwoExitsDismissOnce` | src/macro-mode-state.ts:17-36 | after entering, the first exit invokes the callback and a second exit invokes nothing |
| `MacroModeStates.TogglesKeepPlayback` | src/macro-mode-state.ts:17-36 | any sequence of enters and exits keeps the playback state, and the last operation decides whether recording is on |
| `MacroModeStates.ClearStored` | src/macro-mode-state.ts:28 | clears exactly the register stored under the key |
| `MacroModeStates.ClearForRecording` | src/macro-mode-state.ts:26-29 | the registers become what `ClearedForRecording` gives |
| `MacroModeStates.MacroModeState.constructor` | src/macro-mode-state.ts:5-15 | not recording, not playing, no register, no queries, no callback |
| `MacroModeStates.MacroModeState.ExitMacroRecordMode` | src/macro-mode-state.ts:17-23 | new state and invoked callback are what `ExitSpec` gives |
| `MacroModeStates.MacroModeState.EnterMacroRecordMode` | src/macro-mode-state.ts:25-36 | new state and registers are what `EnterSpec` and `ClearedForRecording` give |
| `RegisterControllers.DigitName` | src/register-controller.ts:194-198 | a one-digit name whose digit is `i`, a numbered register name for 1-9 |
| `RegisterControllers.SetTextVal` | src/register-controller.ts:36-40 | the text and flags are replaced, and the search queries are kept |
| `RegisterControllers.PushTextVal` | src/register-controller.ts:42-51 | the text is appended, after a line break when the register turns linewise; once linewise, it stays linewise |
| `RegisterControllers.ClearVal` | src/register-controller.ts:60-65 | empty text, not linewise, no search queries |
| `RegisterControllers.NormText` | src/register-controller.ts:120-122 | linewise text ends with a line break, which is added only when missing; other text is unchanged |
| `RegisterControllers.ShiftedValues` | src/register-controller.ts:194-198 | the shift loop from any index down keeps its invariant |
| `RegisterControllers.ShiftMovesDown` | src/register-controller.ts:194-198 | after the shift, register k holds what k-1 held for k in 2-9; register 1 is kept; no other register changes |
| `RegisterControllers.ShiftStep` | src/register-controller.ts:195-197 | one step binds register `k` to what `k-1` held |
| `RegisterControllers.ShiftStepFacts` | src/register-controller.ts:195-197 | one step carries the shift one register lower: from `j` to `9` each digit register holds what the one below it held before the shift, and every register that is not a higher digit keeps its value |
| `RegisterControllers.ShiftNamesNotSpecial` | src/register-controller.ts:194-198 | the shift never touches the unnamed, `0` or `-` register |
| `RegisterControllers.BlackHoleKeepsAll` | src/register-controller.ts:119 | writing to `_` changes no register |
| `RegisterControllers.PushTextSpec` | src/register-controller.ts:111-164 | no register is lost and the unnamed one exists; `_` changes nothing; any write other than to `_` or an upper-case (appending) register leaves the normalised text in the unnamed register |
| `RegisterControllers.RouteDefault` | src/register-controller.ts:130-151 | no register is lost, and the named ones other than digits, `0` and `-` keep their values |
| `RegisterControllers.NamedPush` | src/register-controller.ts:152-163 | the target and the unnamed register end with the same text, which is the pushed text unless it was appended; every other register is unchanged |
| `RegisterControllers.DefaultSetsUnnamed` | src/register-controller.ts:130-151 | without a valid register name, the unnamed register receives the normalised text and flags |
| `RegisterControllers.YankGoesToZero` | src/register-controller.ts:132-135 | a default yank stores a new register `0` with the text; only `0` and the unnamed register change |
| `RegisterControllers.SmallDeleteGoesToDash` | src/register-controller.ts:136-140 | a default delete or change within one line stores register `-`; only `-` and the unnamed register change |
| `RegisterControllers.LineDeleteShifts` | src/register-controller.ts:141-146 | a default multi-line delete or change shifts 1-8 into 2-9 and puts the text in `1`; only numbered registers and the unnamed one change |
| `RegisterControllers.LineDeleteShiftsText` | src/register-controller.ts:141-146 | the same, stated for text that already contains a line break |
| `RegisterControllers.WritesKeepShift` | src/register-controller.ts:141-150 | writing register 1 and the unnamed register after the shift keeps the shifted 2-9 |
| `RegisterControllers.OtherOperatorOnlyUnnamed` | src/register-controller.ts:130-151 | any other operator with no valid register name changes only the unnamed register |
| `RegisterControllers.NamedRouting` | src/register-controller.ts:123-163 | an upper-case name appends to its lower-case register, a lower-case one replaces; the unnamed register then holds the same text; nothing else changes |
| `RegisterControllers.UpperCaseKey` | src/register-controller.ts:183 | an upper-case name is stored under its lower-case letter |
| `RegisterControllers.Register.constructor` | src/register-controller.ts:31-35 | holds exactly the given text and flags |
| `RegisterControllers.Register.External` | src/register-controller.ts:79-89 | a register supplied from outside starts empty and is not internal |
| `RegisterControllers.Register.SetText` | src/register-controller.ts:36-40 | the value becomes `SetTextVal` of the old one, and `toString` gives the text |
| `RegisterControllers.Register.PushText` | src/register-controller.ts:42-51 | the value becomes `PushTextVal` of the old one, and `toString` grows by the separator and the text |
| `RegisterControllers.Register.PushSearchQuery` | src/register-controller.ts:56-58 | appends the query; text and flags are unchanged |
| `RegisterControllers.Register.Clear` | src/register-controller.ts:60-65 | the value becomes `ClearVal` of the old one |
| `RegisterControllers.Register.ToString` | src/register-controller.ts:67-69 | the text of the register is its lines joined |
| `RegisterControllers.RegisterController.constructor` | src/register-controller.ts:103-109 | registers `"`, `.`, `:` and `/` exist, are empty and are distinct objects |
| `RegisterControllers.RegisterController.DefineRegister` | src/register-controller.ts:79-89 | fails with the source's messages when the name is not one character or is already defined, and then changes nothing; otherwise it adds the register and makes the name valid |
| `RegisterControllers.RegisterController.GetRegister` | src/register-controller.ts:179-188 | an invalid name gives the unnamed register; a valid one gives the register under its lower-case key, created empty when missing |
| `RegisterControllers.RegisterController.GetInternalRegister` | src/register-controller.ts:169-175 | `getRegister`'s register when it is internal, otherwise the unnamed one |
| `RegisterControllers.RegisterController.ShiftNumericRegisters` | src/register-controller.ts:194-198 | the register values become the shifted ones, and only registers 1 and 2 share an object afterwards |
| `RegisterControllers.RegisterController.MoveAllDown` | src/register-controller.ts:194-198 | the loop leaves every numbered register one further down; `1` and `2` then share an object and no other two registers do |
| `RegisterControllers.RegisterController.PushText` | src/register-controller.ts:111-164 | the register values become what the routing function gives for name, operator, text and flags |
| `RegisterControllers.RegisterController.MoveDown` | src/register-controller.ts:195-197 | one turn of the shift loop: register `j` takes over the object of `j-1`, and only that pair shares an object afterwards |
| `RegisterControllers.RegisterController.Rebind` | src/register-controller.ts:196 | the name is bound to the given register object, and only its value changes |
| `RegisterControllers.RegisterController.FetchDigit` | src/register-controller.ts:179-188 | `getRegister` of a digit name: the existing object, or a new empty one bound to the name |
| `RegisterControllers.RegisterController.PushDefault` | src/register-controller.ts:130-151 | without a valid register name, the values become those of the default routing |
| `RegisterControllers.RegisterController.PushNamed` | src/register-controller.ts:123-163 | with a valid name, the values become those of the named routing |
| `RegisterControllers.RegisterController.RouteByOperator` | src/register-controller.ts:131-149 | the operator switch stores `0`, `-`, or shifts and stores `1`, as the routing function gives |
| `RegisterControllers.RegisterController.StoreNew` | src/register-controller.ts:134 | a new register holding the text replaces the one under the key, and only that value changes |
| `RegisterControllers.RegisterController.ReplaceFresh` | src/register-controller.ts:134-145 | an unshared register object is bound to the key, and only that value changes |
| `RegisterControllers.RegisterController.WriteAt` | src/register-controller.ts:155-160 | appends to or replaces the text of exactly the register under the key |
| `RegisterControllers.RegisterController.WriteUnnamed` | src/register-controller.ts:150 | sets the unnamed register's text and flags, and no other value changes |
| `RegisterControllers.StartingMap` | src/register-controller.ts:103-109 | four fresh distinct empty registers under `"`, `.`, `:` and `/` |
| `RegisterControllers.StartingRegisters` | src/register-controller.ts:103-109 | four distinct empty registers make a valid starting table |
| `RegisterControllers.StepIsShift` | src/register-controller.ts:195-197 | storing the fetched value under both digit names is one step of the shift |
| `RegisterControllers.ShiftStepInjective` | src/register-controller.ts:195-197 | one step of the shift leaves only the pair of digit names on one shared object |
| `JumpLists.JsRem` | src/jump-list.ts:14 | JavaScript's `%`: the Euclidean remainder for non-negative operands, and a non-positive remainder for negative ones |
| `JumpLists.SlotAt` | src/jump-list.ts:14 | a slot outside the array reads as undefined |
| `JumpLists.NextSlot` | src/jump-list.ts:15-22 | the next slot index is inside the 100-slot buffer |
| `JumpLists.UseNextSlotSpec` | src/jump-list.ts:15-22 | the pointer advances by one, head and tail are kept, and one bookmark is issued |
| `JumpLists.AddSpec` | src/jump-list.ts:12-38 | `add` keeps the ring well formed |
| `JumpLists.AddSetsHeadAndTail` | src/jump-list.ts:33-37 | after `add` the head is the pointer, and the tail is at most 99 behind it and never below 0 |
| `JumpLists.AddAdvance` | src/jump-list.ts:12-38 | the pointer and bookmark counter advance by 2 when the old cursor is recorded and by 1 otherwise; an empty list records it |
| `JumpLists.AddStoresCursors` | src/jump-list.ts:15-32 | the new cursor's bookmark sits at the pointer, and the old cursor's in the slot before when it was recorded |
| `JumpLists.AddClearsOverwritten` | src/jump-list.ts:16-19 | every bookmark overwritten in the ring is cleared from the editor, and all slots hold issued bookmarks |
| `JumpLists.Clamped` | src/jump-list.ts:41-46 | the target lies between tail and head, and is the pointer plus the offset whenever that is in range |
| `JumpLists.SkipStops` | src/jump-list.ts:49-61 | the skip loop moves in its direction and steps only over slots without a live bookmark away from the cursor; it stops at such a bookmark or at the range's end |
| `JumpLists.Skip` | src/jump-list.ts:49-61 | the mark returned is the one in the slot reached, which lies strictly past the start in the direction of travel and at most one slot beyond the ends |
| `JumpLists.MoveSpec` | src/jump-list.ts:40-63 | the mark returned is the one in the slot reached, at most one slot beyond the ends |
| `JumpLists.MoveBounds` | src/jump-list.ts:40-63 | `move` ends within one slot of the range and returns the slot it ends on; with no stale bookmark it just clamps |
| `JumpLists.AdapterMoveOnlyClamps` | src/jump-list.ts:40-63 | with the adapter's `find`, which always succeeds, `move` only clamps |
| `JumpLists.CircularJumpList.constructor` | src/jump-list.ts:4-10 | an empty 100-slot buffer with pointer -1 and head and tail at 0 |
| `JumpLists.CircularJumpList.UseNextSlot` | src/jump-list.ts:15-22 | buffer, pointer and bookmarks become what `UseNextSlotSpec` gives |
| `JumpLists.CircularJumpList.Add` | src/jump-list.ts:12-38 | buffer, pointers and bookmarks become what `AddSpec` gives |
| `JumpLists.CircularJumpList.Move` | src/jump-list.ts:40-63 | the new pointer and returned bookmark are what the move function gives |
| `JumpLists.CircularJumpList.SkipStale` | src/jump-list.ts:49-61 | the loop over stale marks ends at the pointer and mark the skip specification names |
| `JumpLists.CircularJumpList.Find` | src/jump-list.ts:65-70 | the position of the bookmark `move` would reach; the pointer is unchanged |
| `Globals.VimGlobalState.constructor` | src/global.ts:32-55 | each field is reset: no search, a cleared character search, and a new empty jump list, macro state and register controller |
| `Globals.GlobalScope.constructor` | src/global.ts:31 | the binding starts unset |
| `Globals.GlobalScope.ResetVimGlobalState` | src/global.ts:32-55 | the binding holds a fresh state whose stores are new objects, none shared with the previous state |
| `ExCommandDispatchers.BuildMapKeys` | src/ex-command-dispatcher.ts:240-246 | each entry is keyed by its short name, or its name when it has none; where entries share a key, the later one wins |
| `ExCommandDispatchers.DefaultMapBuilt` | src/ex-command-dispatcher.ts:22-46 | building from the default table gives the 23-key map with one key per entry |
| `ExCommandDispatchers.MatchFromLongest` | src/ex-command-dispatcher.ts:223-238 | the search from length `i` down finds the longest qualifying prefix, and finds nothing exactly when none qualifies |
| `ExCommandDispatchers.MatchFrom` | src/ex-command-dispatcher.ts:228-236 | any command found has the typed name as a prefix of its own name |
| `ExCommandDispatchers.MatchCommandSpec` | src/ex-command-dispatcher.ts:223-238 | any command found has the typed name as a prefix, and an empty name matches nothing |
| `ExCommandDispatchers.MatchCommandIsLongestPrefix` | src/ex-command-dispatcher.ts:223-238 | the matched command is stored under the longest prefix of the typed name whose command name starts with the typed name; nothing is found exactly when no prefix qualifies |
| `ExCommandDispatchers.GlobalResolutions` | src/ex-command-dispatcher.ts:22-46 | `g` and `gl` resolve to `global`, and `v` and `vg` resolve to `vglobal` |
| `ExCommandDispatchers.SaveResolution` | src/ex-command-dispatcher.ts:22-46 | `sav` resolves to `save` |
| `ExCommandDispatchers.ColUnresolved` | src/ex-command-dispatcher.ts:223-238 | `col` matches no command, since `colo` is the shortest key of `colorscheme` |
| `ExCommandDispatchers.SoUnresolved` | src/ex-command-dispatcher.ts:223-238 | `so` matches no command, since `sor` is the shortest key of `sort` |
| `ExCommandDispatchers.UnmUnresolved` | src/ex-command-dispatcher.ts:223-238 | `unm` matches no command, since `unmap` is keyed by its full name |
| `ExCommandDispatchers.OffsetRoundTrip` | src/ex-command-dispatcher.ts:193-204 | reading back a written `+N` or `-N` offset recovers `line + k` and consumes exactly the offset |
| `ExCommandDispatchers.OffsetSpec` | src/ex-command-dispatcher.ts:193-204 | the stream never moves back, and a line with no offset after it is returned unchanged |
| `ExCommandDispatchers.LineSpec` | src/ex-command-dispatcher.ts:161-191 | the corrected line-spec parser never leaves the stream before the position it started at, which the code does at the end of the input |
| `ExCommandDispatchers.LineSpecAsWritten` | src/ex-command-dispatcher.ts:161-191 | as written: the stream backs up at most one character; inside the input a missing line leaves it where it was; the only error is "Mark not set" |
| `ExCommandDispatchers.AfterFirst` | src/ex-command-dispatcher.ts:168-190 | `.`, `$`, `+` and `-` always give a line; an error comes only from a `'` and says "Mark not set" |
| `ExCommandDispatchers.AfterMark` | src/ex-command-dispatcher.ts:173-181 | "Mark not set" is raised exactly when a mark name follows and the editor has no line for it |
| `ExCommandDispatchers.LineSpecSameLine` | src/ex-command-dispatcher.ts:161-191 | the corrected reader yields the same line or error as the code as written, and the same position whenever a line was read |
| `ExCommandDispatchers.AsWrittenBacksUpAtEnd` | src/ex-command-dispatcher.ts:187-189 | as written, the parser at the end of input reads nothing but moves the position back by one |
| `ExCommandDispatchers.LineSpecAgreesBeforeEnd` | src/ex-command-dispatcher.ts:161-191 | before the end of input, the corrected parser agrees with the code |
| `ExCommandDispatchers.NumberLineSpec` | src/ex-command-dispatcher.ts:162-167 | a number `n` reads as line `n - 1` and consumes exactly its digits |
| `ExCommandDispatchers.DotLineSpec` | src/ex-command-dispatcher.ts:169-170 | `.` with an offset is the cursor line plus the offset |
| `ExCommandDispatchers.DollarLineSpec` | src/ex-command-dispatcher.ts:171-172 | `$` with an offset is the last line plus the offset |
| `ExCommandDispatchers.LineFound` | src/ex-command-dispatcher.ts:161-191 | wherever the code reads a line, the corrected parser reads the same line and ends at the same position |
| `ExCommandDispatchers.SignFirst` | src/ex-command-dispatcher.ts:182-186 | a leading sign is backed up over and read as an offset from the cursor line |
| `ExCommandDispatchers.SignWritten` | src/ex-command-dispatcher.ts:182-186 | as written, `+k` or `-k` alone is the cursor line plus `k` |
| `ExCommandDispatchers.SignLineSpec` | src/ex-command-dispatcher.ts:182-186 | `+k` or `-k` alone is the cursor line plus `k` |
| `ExCommandDispatchers.BareDotLineSpec` | src/ex-command-dispatcher.ts:169-170 | `.` without an offset is the cursor line, and consumes one character |
| `ExCommandDispatchers.MarkLineSpec` | src/ex-command-dispatcher.ts:173-181 | `'x` gives the mark's line, or throws "Mark not set" when the mark is missing; a lone `'` reads nothing |
| `ExCommandDispatchers.NoLineSpec` | src/ex-command-dispatcher.ts:187-189 | any other character reads no line and leaves the position unchanged |
| `ExCommandDispatchers.CommandNameAt` | src/ex-command-dispatcher.ts:151-156 | the command name is a prefix of the rest of the input |
| `ExCommandDispatchers.RangeForms` | src/ex-command-dispatcher.ts:138-147 | `%` spans the first to the last line; a second line is read only after a first line and a `,` |
| `ExCommandDispatchers.LeadingColonsSkipped` | src/ex-command-dispatcher.ts:138 | leading colons are skipped |
| `ExCommandDispatchers.ParseInputSpec` | src/ex-command-dispatcher.ts:133-159 | a range end is only ever set together with a start, and the only error is "Mark not set" |
| `ExCommandDispatchers.RangeSpec` | src/ex-command-dispatcher.ts:138-147 | a range end is only ever set together with a start, and the only error is "Mark not set" |
| `ExCommandDispatchers.LineRangeSpec` | src/ex-command-dispatcher.ts:144-147 | a range end is only ever set together with a start, and the only error is "Mark not set" |
| `ExCommandDispatchers.RangeEndSpec` | src/ex-command-dispatcher.ts:145-147 | keeps the start line it was given, sets an end only when there is a start, and the only error is "Mark not set" |
| `ExCommandDispatchers.ArgsSetWhenNotBlank` | src/ex-command-dispatcher.ts:206-221 | the argument string is the rest of the line; the word list is set exactly when it is not blank, and then has no empty word |
| `ExCommandDispatchers.ArgsSpec` | src/ex-command-dispatcher.ts:206-221 | `argString` is set exactly when input is left, and `args` only with it and never empty |
| `ExCommandDispatchers.SplitTrimmedWords` | src/ex-command-dispatcher.ts:214-218 | splitting a trimmed non-empty string on white space gives no empty word |
| `ExCommandDispatchers.HistoryRestored` | src/ex-command-dispatcher.ts:70-100 | putting the previous text back onto the written `:` register is the restoring history update |
| `ExCommandDispatchers.HistoryAfter` | src/ex-command-dispatcher.ts:70-100 | the `:` register ends with the input, or with its old text when it is put back; no other register changes |
| `ExCommandDispatchers.HistoryRule` | src/ex-command-dispatcher.ts:64-131 | for one pass, before any re-dispatch or command body: the `:` register ends as the input, or as its previous text exactly when a matched command is excluded from the history; no other register changes; a parse error fails without restoring |
| `ExCommandDispatchers.PassOf` | src/ex-command-dispatcher.ts:64-131 | the dispatcher's pass gives `ProcessSpec`'s answer for every input |
| `ExCommandDispatchers.ProcessChain` | src/ex-command-dispatcher.ts:108-111 | the `:` register exists afterwards and no other register changes; a chain stops on a re-dispatch only when the fuel is spent |
| `ExCommandDispatchers.ChainInputs` | src/ex-command-dispatcher.ts:108-111 | the chain starts with the typed input |
| `ExCommandDispatchers.RedispatchRunsInner` | src/ex-command-dispatcher.ts:108-111 | an Ex-to-Ex mapping processes its input, without the caller's parameters, on the registers the outer pass left |
| `ExCommandDispatchers.ChainHistory` | src/ex-command-dispatcher.ts:70-111 | after a chain, `:` holds one of the inputs processed or its previous text |
| `ExCommandDispatchers.ChainLastIsLastInput` | src/ex-command-dispatcher.ts:108-111 | `ChainLast` names the last input the chain processes |
| `ExCommandDispatchers.ChainHistoryLast` | src/ex-command-dispatcher.ts:70-111 | when the last pass keeps its input in the history, `:` ends with that input |
| `ExCommandDispatchers.ExToExHistory` | src/ex-command-dispatcher.ts:81-111 | after an Ex-to-Ex mapping to an ordinary command, `:` holds the mapping's input, not the typed one, and the outcome is the target's |
| `ExCommandDispatchers.ResolutionRule` | src/ex-command-dispatcher.ts:89-118 | a bare line number moves the cursor; no name and no line, or an unknown name, is "Not an editor command" |
| `ExCommandDispatchers.RunSpec` | src/ex-command-dispatcher.ts:119-130 | a run fails exactly when the command throws; otherwise it reports the command name and parameters, and a callback only when one was given |
| `ExCommandDispatchers.ProcessSpec` | src/ex-command-dispatcher.ts:64-131 | an executed command gets the typed input, and a range end only with a start |
| `ExCommandDispatchers.DispatchSpec` | src/ex-command-dispatcher.ts:81-130 | key mappings feed their keys, ex mappings re-dispatch their input, and anything else runs under its own name with the parsed parameters, calling back only for a given callback and a synchronous command |
| `ExCommandDispatchers.RegistersExcludedFromHistory` | src/ex-command-dispatcher.ts:22-46 | `reg` resolves to `registers`, which is excluded from the history |
| `ExCommandDispatchers.OneCommaFirstLine` | src/ex-command-dispatcher.ts:161-167 | in `1,` the first line reads as line 0 and stops before the comma |
| `ExCommandDispatchers.OneCommaAsWritten` | src/ex-command-dispatcher.ts:187-189 | as written, the empty second line backs up onto the comma, so the command name becomes `,`, which names no command |
| `ExCommandDispatchers.OneCommaMoves` | src/ex-command-dispatcher.ts:64-131 | with the corrected parser, `1,` parses as line 0 with no name and runs `move` |
| `ExCommandDispatchers.FirstMapping` | src/ex-command-dispatcher.ts:313-314 | the index of the first entry with the keys and context, with no match before it, or none when there is no match |
| `ExCommandDispatchers.MapShapes` | src/ex-command-dispatcher.ts:248-296 | an Ex left side with a context is an error; without one it defines a user Ex command; any other left side puts one mapping in front of the key map; the right side decides the kind |
| `ExCommandDispatchers.UnmapOnlyUser` | src/ex-command-dispatcher.ts:299-309 | unmapping an Ex name with a mode throws; without one it succeeds exactly for a user-defined command, which is removed, and otherwise nothing changes |
| `ExCommandDispatchers.UnmapUndoesMap` | src/ex-command-dispatcher.ts:248-320 | unmapping a key mapping right after mapping it restores both tables |
| `ExCommandDispatchers.UnmapUndoesExMap` | src/ex-command-dispatcher.ts:248-320 | unmapping a new Ex mapping right after mapping it restores both tables |
| `ExCommandDispatchers.UnmapRemovesFirst` | src/ex-command-dispatcher.ts:310-320 | unmapping keys succeeds exactly when a matching entry exists, and then removes the first such entry only |
| `ExCommandDispatchers.UnmapFound` | src/ex-command-dispatcher.ts:313-316 | with a first matching entry, unmap removes exactly it |
| `ExCommandDispatchers.UnmapNotFound` | src/ex-command-dispatcher.ts:313-320 | with no matching entry, unmap reports false and changes nothing |
| `ExCommandDispatchers.MapSpec` | src/ex-command-dispatcher.ts:248-296 | fails exactly for an ex-command name with a context; changes either the command map or the key map, never both |
| `ExCommandDispatchers.UnmapSpec` | src/ex-command-dispatcher.ts:298-320 | changes nothing unless it succeeds, and a success removes exactly one command-map name or one key-map entry |
| `ExCommandDispatchers.ExCommandDispatcher.constructor` | src/ex-command-dispatcher.ts:51-53 | the command map is the one built from the default table |
| `ExCommandDispatchers.ExCommandDispatcher.BuildCommandMap` | src/ex-command-dispatcher.ts:240-246 | the loop builds the map `BuildMap` specifies, which is the default map |
| `ExCommandDispatchers.ExCommandDispatcher.MatchCommand` | src/ex-command-dispatcher.ts:223-238 | returns the longest-prefix match |
| `ExCommandDispatchers.ExCommandDispatcher.ParseLineSpecOffset` | src/ex-command-dispatcher.ts:193-204 | line and position become the offset function's |
| `ExCommandDispatchers.ExCommandDispatcher.ParseLineSpecAsWritten` | src/ex-command-dispatcher.ts:161-191 | the code's parser, whose result is the as-written function's |
| `ExCommandDispatchers.ExCommandDispatcher.ParseAfterFirst` | src/ex-command-dispatcher.ts:168-190 | the switch on the first character, as the spec function gives |
| `ExCommandDispatchers.ExCommandDispatcher.ParseAfterMark` | src/ex-command-dispatcher.ts:173-181 | the mark case, as the spec function gives |
| `ExCommandDispatchers.ExCommandDispatcher.ParseLineSpec` | src/ex-command-dispatcher.ts:161-191 | the corrected parser, whose result is `LineSpec`'s |
| `ExCommandDispatchers.ExCommandDispatcher.ParseCommandName` | src/ex-command-dispatcher.ts:151-156 | the name read, and the position after it |
| `ExCommandDispatchers.ExCommandDispatcher.ParseInput` | src/ex-command-dispatcher.ts:133-159 | the parse result is the corrected parser's (`ParseInputSpec`, built on `LineSpec`), and the stream ends where it says |
| `ExCommandDispatchers.ExCommandDispatcher.ParseRange` | src/ex-command-dispatcher.ts:138-147 | `%` or a line range, as the corrected parser's range function gives |
| `ExCommandDispatchers.ExCommandDispatcher.ParseLineRange` | src/ex-command-dispatcher.ts:144-147 | the first line then the optional second, as the corrected parser's function gives |
| `ExCommandDispatchers.ExCommandDispatcher.ParseRangeEnd` | src/ex-command-dispatcher.ts:145-147 | a second line is read only after a first line and a comma, by the corrected line-spec parser |
| `ExCommandDispatchers.ExCommandDispatcher.ParseCommandArgs` | src/ex-command-dispatcher.ts:206-221 | argument string and words are the argument function's |
| `ExCommandDispatchers.ExCommandDispatcher.ProcessCommand` | src/ex-command-dispatcher.ts:55-131 | visual mode is left, and the outcome and registers are those of the chain of passes an Ex-to-Ex mapping starts; only the `:` history register changes before any command body runs |
| `ExCommandDispatchers.ExCommandDispatcher.LeaveVisualMode` | src/ex-command-dispatcher.ts:75-77 | visual mode is off afterwards |
| `ExCommandDispatchers.ExCommandDispatcher.ProcessPass` | src/ex-command-dispatcher.ts:64-118 | one pass: the corrected parser's outcome, and only the `:` register changes, to the input or, for a command excluded from the history, back to its old text |
| `ExCommandDispatchers.ExCommandDispatcher.Dispatch` | src/ex-command-dispatcher.ts:81-130 | outcome and history restore are the corrected parser's processing function's |
| `ExCommandDispatchers.ExCommandDispatcher.RunMatched` | src/ex-command-dispatcher.ts:98-118 | reads the arguments, then dispatches by command kind |
| `ExCommandDispatchers.ExCommandDispatcher.Run` | src/ex-command-dispatcher.ts:119-130 | runs the command body and invokes the callback only when nothing was thrown |
| `ExCommandDispatchers.ExCommandDispatcher.Map` | src/ex-command-dispatcher.ts:248-296 | result, command map and key map become what the map function gives |
| `ExCommandDispatchers.ExCommandDispatcher.Unmap` | src/ex-command-dispatcher.ts:298-320 | result, command map and key map become what the unmap function gives |
| `ExCommandDispatchers.ExCommandDispatcher.RecordHistory` | src/ex-command-dispatcher.ts:70-78 | writes the input to the `:` register and returns its previous text |
| `ExCommandDispatchers.ExCommandDispatcher.RestoreHistory` | src/ex-command-dispatcher.ts:98-100 | puts the previous text back into the stored `:` register only |
| `ExCommandDispatchers.WriteStored` | src/ex-command-dispatcher.ts:78 | sets the text of exactly the register stored under the key |
| `VimApis.DigitPrefix` | src/vim-api.ts:336-341 | the maximal leading digit run of the keys |
| `VimApis.NonInsertSpec` | src/vim-api.ts:299-342 | stops recording exactly for `q` while recording; a buffered key sequence is the buffer plus the key; an accepted command erases nothing |
| `VimApis.InsertSpec` | src/vim-api.ts:241-297 | leaves insert mode exactly on `<Esc>`, never stops recording, keeps a suffix of the typed keys, and a buffered single character is left unhandled for the editor to insert |
| `VimApis.FindKeySpec` | src/vim-api.ts:195-375 | executes exactly when the key step accepts, and then the command it accepted |
| `VimApis.ShrinkFrom` | src/vim-api.ts:254-265 | the insert-mode loop's start index only moves forward |
| `VimApis.ShrinkFromFacts` | src/vim-api.ts:254-265 | the loop stops at a full match or one key from the end, and the match kept is the last non-empty one |
| `VimApis.InsertShrink` | src/vim-api.ts:254-265 | no shorter suffix was a full match; the result is no match exactly when every suffix tried was none |
| `VimApis.InsertKeepsSuffix` | src/vim-api.ts:241-297 | buffered keys are a suffix of the typed keys; a partial match is handled exactly for a special key; a character mapping erases at most what was typed |
| `VimApis.CountIsBuffered` | src/vim-api.ts:305-307 | a pure count is buffered, whatever the matcher says |
| `VimApis.ShortcutTakesOver` | src/vim-api.ts:309-334 | the operator shortcut is matched when it applies, and the main key otherwise |
| `VimApis.FullMatchRepeat` | src/vim-api.ts:336-341 | a full match pushes the leading count exactly when it is non-empty and not `0` |
| `VimApis.CountThenCommand` | src/vim-api.ts:299-342 | `2d` runs `d` with count 2; a lone `0` runs its command without a count |
| `VimApis.MacroAndEscape` | src/vim-api.ts:197-225 | `q` while recording stops recording; `<Esc>` leaves visual and insert mode, and in normal mode it is matched like any key |
| `VimApis.UnmatchedKeys` | src/vim-api.ts:344-348 | an unmatched character counts as handled in normal mode and as unhandled in insert mode |
| `VimApis.UnhandledWhen` | src/vim-api.ts:344-353 | `findKey` gives undefined exactly when the handler said false and the key was typed in insert mode or was not one character |
| `VimApis.TokenEnd` | src/vim-api.ts:231 | a token is one character or runs from `<` to `>` |
| `VimApis.TokensFrom` | src/vim-api.ts:226-240 | no key token is empty |
| `VimApis.Tokenize` | src/vim-api.ts:226-240 | no key token is empty, and empty keys give no tokens |
| `VimApis.TokensRebuildKeys` | src/vim-api.ts:226-240 | keys without line breaks split into tokens that rebuild the keys |
| `VimApis.TokensAreKeys` | src/vim-api.ts:226-240 | every token is one character or a `<...>` name |
| `VimApis.LineBreaksThrow` | src/vim-api.ts:231-234 | keys made only of line breaks throw, since `.` matches no line terminator |
| `VimApis.ControlKeyToken` | src/vim-api.ts:231 | `<C-w>x` splits into `<C-w>` and `x` |
| `VimApis.DefineExRegisters` | src/vim-api.ts:162-176 | succeeds exactly when the prefix is empty or starts the name; the command is then stored under the prefix, or the name when it is empty, and resolves from it; a rejected call changes nothing |
| `VimApis.DefineExSpec` | src/vim-api.ts:162-176 | registers exactly when the prefix is empty or a prefix of the name, and a refused command leaves the map unchanged |
| `VimApis.Unmapped` | src/vim-api.ts:98-101 | the contexts not yet mapped, and no others |
| `VimApis.NoremapLoop` | src/vim-api.ts:75-102 | the key map before the loop stays at the back of the result |
| `VimApis.NoremapAsWritten` | src/vim-api.ts:75-102 | as written: the key map before the loop stays at the back of the result |
| `VimApis.NoremapSpec` | src/vim-api.ts:66-105 | the corrected `noremap` (see "## Findings"): the key map before the call stays at the back of the result |
| `VimApis.AddedAreCopies` | src/vim-api.ts:75-102 | every entry `noremap` adds is a retargeted copy of a default candidate |
| `VimApis.NoremapCopies` | src/vim-api.ts:66-105 | the old entries are kept behind the new ones, and each new one maps the left side to a copy of a default candidate in the requested context |
| `VimApis.NoremapRevisits` | src/vim-api.ts:75-102 | as written, mapping `y` to `x` in all modes copies the normal-mode entry twice and misses the insert-mode one |
| `VimApis.NoremapCopiesEachOnce` | src/vim-api.ts:66-105 | with the corrected loop, each mode's entry is copied once |
| `VimApis.NoremapShortMap` | src/vim-api.ts:76 | as written, a key map shorter than the default length makes the loop read before the start; the corrected loop starts at 0 |
| `VimApis.Spread` | src/vim-api.ts:123-129 | one copy per context, unshifted in turn so the last context comes first |
| `VimApis.ReaddedModes` | src/vim-api.ts:115-132 | nothing put back is for the cleared mode or without a mode |
| `VimApis.ReaddedKeeps` | src/vim-api.ts:115-122 | every user mapping for another mode is put back |
| `VimApis.MapclearPartitions` | src/vim-api.ts:107-134 | the default entries are kept; for all modes the user entries go; for one mode every entry put back serves another mode, and every user entry for another mode is put back |
| `VimApis.MapclearSpec` | src/vim-api.ts:107-134 | the default mappings stay at the back; with no context only they remain |
| `Types.VimState.constructor` | src/types.ts:19-55 | normal mode with an empty input state |
| `VimApis.EditorSlot.constructor` | src/vim-api.ts:196 | the editor holds a fresh vim state in normal mode |
| `VimApis.ClearInputState` | src/vim-api.ts:202 | a new, empty input state replaces the old one |
| `VimApis.VimApi.constructor` | src/vim-api.ts:42-44 | the session state is reset, with fresh empty registers |
| `VimApis.VimApi.DefineEx` | src/vim-api.ts:162-176 | result and command map are what the definition function gives |
| `VimApis.VimApi.Noremap` | src/vim-api.ts:66-105 | the key map becomes the corrected `noremap` function's result |
| `VimApis.VimApi.Mapclear` | src/vim-api.ts:107-134 | the key map becomes the `mapclear` function's result |
| `VimApis.VimApi.DoKeyToKey` | src/vim-api.ts:226-240 | the tokens fed, and whether it threw, are the tokenizer's |
| `VimApis.VimApi.RunCommand` | src/vim-api.ts:355-373 | key-to-key commands feed their tokens and others are processed; when that throws, the editor gets a fresh vim state, and otherwise the state is kept |
| `VimApis.VimApi.HandleMacroRecording` | src/vim-api.ts:197-209 | handles exactly `q` while recording, which stops recording and clears the input; other keys while recording are logged unless they come from a mapping |
| `VimApis.VimApi.HandleEsc` | src/vim-api.ts:210-225 | handles `<Esc>` exactly in visual or insert mode; it leaves visual mode first, else insert mode, and clears the input |
| `VimApis.VimApi.HandleKeyInsertMode` | src/vim-api.ts:241-297 | the handler value, modes, buffered keys, timer and erasure are what the insert-mode step gives |
| `VimApis.VimApi.HandleKeyNonInsertMode` | src/vim-api.ts:299-342 | the handler value, modes, recording, logged keys, buffer and pushed count are what the normal-mode step gives |
| `VimApis.VimApi.FindKey` | src/vim-api.ts:195-375 | the key result is the `findKey` function's, with the insert mode, buffer and recording state after the step |
| `VimApis.PutBackAll` | src/vim-api.ts:115-132 | the kept user entries are put back in front of the defaults |
| `VimApis.PutBack` | src/vim-api.ts:118-131 | one user entry's copies for the other modes go in front |
| `VimApis.PutCopies` | src/vim-api.ts:123-129 | one copy per listed context goes in front |

## Left out

- Rendering, the Monaco editor itself, the status bar and search highlighting: they are I/O. `search.ts`, `statusbar.ts` and `index.ts` are not part of this model.
- Timers: `lastInsertModeKeyTimer` becomes the flag `timerArmed`, set when a partial insert-mode match is armed and cleared when a full match clears it. The callback after the timeout is not modelled.
- `console.log`, `showConfirm` and `suppressErrorLogging`: output only.
- The history controller behind `:` history: it belongs to the editor, so only the `:` register is modelled.
- `exitVisualMode` and `exitInsertMode`: only their effect on the two mode flags is modelled.
- `logKey`: the logged keys are kept as a sequence. What the macro recorder then does with them is not modelled.
- `replaceRange` in insert mode: recorded as the number of typed characters before the cursor that are deleted. The pop of `lastInsertModeChanges` (src/vim-api.ts:293) is left out.
- `handleKey` and `handleEx`: thin wrappers. Their recursion through `doKeyToKey` is modelled by returning the tokens that would be fed back (`DoKeyToKey`).
- `VimApi.map` and `VimApi.unmap`: they delegate to the Ex dispatcher, whose `Map` and `Unmap` are modelled.
- The option, motion, action and operator definition wrappers of the API: they store callbacks in tables that are not part of this model.
- The bodies of the Ex commands (`exCommands`), and `commandDispatcher.matchCommand`: they are live in files not part of this model, and stand as function parameters (`CommandRunner`, `Matcher`).
- `getMarkPos`, the cursor and the first/last line: they come from the `LineEnv` parameter.
- `parseInt`: digit runs are read as unbounded integers, without floating-point precision loss on very long runs.
- `_mapCommand`: modelled as its unshift onto the key map (`KeyMaps.Keymap.MapCommand`).
- `unmap`: when the code returns `undefined` because nothing was found, the model returns `Ok(false)`.
- `clearInputState`: modelled as a fresh `InputState`. Fields of the old one are not reused.
- The order in which the `:` register is restored relative to the command's run is not modelled. The restore happens after dispatch, as the register's final value.
- `doKeyToKey` cuts the rest of the keys with `substring`. The model follows an index into the keys instead.
- `adapter.curOp.isVimOp`: editor bookkeeping, left out.
- The key map's `mapclear` and `PutBackAll` are allowed to change the whole `Keymap` object (`modifies keymap`). Their contracts pin only `entries`.
- `Adapters.LookupKey` has a `fuel` bound on its recursion through fallthrough maps, since key maps may name each other cyclically. The source would loop on a cycle; the model stops when the fuel runs out.
- `Register.insertModeChanges`: the recorded insert-mode changes are left out. Only text, flags and search queries are modelled.
- StringStream's column and indentation functions, and its use of `tabSize`, are left out. The command parsers do not use them.
- `StringStream.match` with a general regular expression: only the patterns the parsers pass are written out (`MatchDigits`, `MatchSignedDigits`, `MatchCommandName`, `MatchLine`).
- `resetOptions` and the option table are not part of this model.
- `validRegisters`: it is a parameter of the controller, which requires the digits 1-8 to be valid (`NumbersValid`), as the default list has them.
- InputStates.InputState.PushRepeatDigit: requires a digit run. That is all the key handler ever pushes (the `\d*` group of its pattern), though the source method accepts any string.
- `vg`: the code resolves it to `vglobal` (the longer prefix wins), and the model follows the code.
- RegisterControllers.Register.External: a register supplied through `defineRegister` is modelled with the built-in behaviour, since the interface's implementations are outside this model.
- Unicode: `toLowerCase` is modelled on ASCII letters only (`Common.LowerChar`, `Common.ToLower`, `RegisterControllers.KeyOf`, `StringStreams.Cased`), and a string's length counts code points, not UTF-16 units. So a non-ASCII upper-case letter keeps its case, and a character outside the Basic Multilingual Plane (an emoji) has length 1 where the source sees 2.
- StringStreams.StringStream.MatchString: with `caseInsensitive`, only ASCII letters are folded, where the source's `toLowerCase` folds every letter.
- RegisterControllers.RegisterController.GetRegister: the name is lower-cased in ASCII only, so for a non-ASCII upper-case name the model reads a different key than the source.
- RegisterControllers.RegisterController.PushNamed: the same ASCII-only lower-casing of the register name.
- RegisterControllers.RegisterController.DefineRegister: the one-character test counts code points, so a name outside the Basic Multilingual Plane is accepted where the source rejects it. Defining an object already stored under another name is accepted as in the source, but the controller's invariant then no longer holds, and the other controller contracts, which assume each name holds its own object, say nothing about that controller.
- VimApis.UnhandledWhen: "a single character" is counted in code points, not UTF-16 units.
- VimApis.VimApi.HandleKeyInsertMode: `keysAreChars` counts code points, not UTF-16 units.
- VimApis.VimApi.FindKey: it inherits the code-point key length of insert mode and of the unhandled case.
- ExCommandDispatchers.ExCommandDispatcher.ParseInput: built on the corrected line-spec parser (see "## Findings"). On a range ending in a comma at the end of the input, such as `1,`, the source backs up onto the comma; the model does not.
- ExCommandDispatchers.ExCommandDispatcher.ParseRange: the same corrected line-spec parser.
- ExCommandDispatchers.ExCommandDispatcher.ParseLineRange: the same corrected line-spec parser.
- ExCommandDispatchers.ExCommandDispatcher.ParseRangeEnd: after a comma at the end of the input it does not back up onto the comma as the source does.
- ExCommandDispatchers.ExCommandDispatcher.ProcessCommand: the outcome is the corrected parser's. On `:1,` the source reports the command "," as not an editor command, and the model runs `move` on line 0 (`OneCommaMoves`). An Ex-to-keys mapping returns its keys (`FeedKeys`) instead of feeding them to the key handler one by one (src/ex-command-dispatcher.ts:103-106): the key handler lives in the API module, which builds on this one, so whatever those keys do to registers or modes is not modelled. Command bodies are the `CommandRunner` parameter, which reports only whether a body threw, so the registers a body writes (`yank`, say) are not modelled and the register contract covers the `:` register alone. The Ex-to-Ex chain is bounded by `fuel`, where the source recurses without end on mappings that name each other in a cycle.
- ExCommandDispatchers.ExCommandDispatcher.Dispatch: the same corrected-parser outcome.
- ExCommandDispatchers.ParseInputSpec: the specification of `ParseInput`, on the same corrected line-spec parser.
- ExCommandDispatchers.RangeSpec: the specification of `ParseRange`, on the same corrected line-spec parser.
- ExCommandDispatchers.LineRangeSpec: the specification of `ParseLineRange`, on the same corrected line-spec parser.
- ExCommandDispatchers.RangeEndSpec: the specification of `ParseRangeEnd`, on the same corrected line-spec parser.
- ExCommandDispatchers.HistoryRule: it states one pass of `_processCommand`, before any re-dispatch or command body. What a whole Ex-to-Ex chain leaves in `:` is stated by `ChainHistory`, `ChainHistoryLast` and `ExToExHistory`, and command bodies are left out as said for `ProcessCommand`.
- ExCommandDispatchers.ProcessSpec: the specification of `ProcessCommand`, on the same corrected line-spec parser.
- ExCommandDispatchers.DispatchSpec: the specification of `Dispatch`, on the same corrected line-spec parser.
- VimApis.VimApi.Noremap: the key map becomes the corrected loop's result, not the source's. The source keeps its end index fixed while `_mapCommand` unshifts each copy, so it copies the same entry again and never reaches the later defaults (`NoremapRevisits`); on a key map shorter than its default length it reads before the start and throws (`NoremapShortMap`). The model copies each default candidate once, for each of its modes, and starts at 0 on a short key map; the code as written is `NoremapAsWritten`.
- VimApis.NoremapSpec: the specification of `VimApis.VimApi.Noremap`, with the same two corrections: no revisit after an unshift (`NoremapRevisits`) and no throw on a short key map (`NoremapShortMap`).
- `Marker.adapter`: the back reference is replaced by passing the `MarkTable` explicitly.
- `setBookmark`'s options object is reduced to its `insertLeft` flag.

## Findings

| source | as written | input that shows it | evidently intended | confidence | as-written member | corrected member |
|---|---|---|---|---|---|---|
| src/ex-command-dispatcher.ts:187-189 | at the end of the input, the default case of `parseLineSpec_` backs up one character even though `next()` consumed nothing | `:1,` — the second line spec backs up onto the comma, so the command name becomes `,` and the line is rejected as "Not an editor command" | back up only when a character was consumed, so `:1,` moves to line 1 | not executed | `ExCommandDispatchers.OneCommaAsWritten` | `ExCommandDispatchers.OneCommaMoves` |
| src/vim-api.ts:75-102 | `noremap` walks the key map by index while `_mapCommand` unshifts copies onto the same array, so the index lands on the entry just copied again | default map with `x` bound in normal and then insert mode; `noremap("y", "x")` | copy each default candidate once, for each of its modes | not executed | `VimApis.NoremapRevisits` | `VimApis.NoremapCopiesEachOnce` |
| src/vim-api.ts:76 | the loop starts at `length - defaultKeymapLength`, which is negative when the key map is shorter than its default length, and reads before the start | a key map holding one entry with a default length of 2 | start at 0 when the key map is shorter | not executed | `VimApis.NoremapShortMap` | `VimApis.NoremapCopies` |
