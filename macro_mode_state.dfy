/** The macro recording state of macro-mode-state.ts. The dismiss callback that
    `displayMessage` hands back is modelled as an opaque handle; calling it is
    modelled by the exit operation returning the handle it invoked. */
module MacroModeStates {
  import opened Common
  import opened RegisterControllers

  /** A callback returned by `displayMessage`, which closes the recording notice. */
  type Dismiss = nat

  /** The fields the two operations read and write, as values. */
  datatype MacroVal = MacroVal(latestRegister: Option<string>, isPlaying: bool, isRecording: bool,
                               replaySearchQueries: seq<string>, onRecordingDone: Option<Dismiss>)

  /** `exitMacroRecordMode()`: the new state and the callback it invoked, if any. */
  function ExitSpec(s: MacroVal): (res: (MacroVal, Option<Dismiss>))
    ensures !res.0.isRecording && res.0.onRecordingDone.None?
    ensures res.1 == s.onRecordingDone
    ensures res.0.latestRegister == s.latestRegister
    ensures res.0.isPlaying == s.isPlaying && res.0.replaySearchQueries == s.replaySearchQueries
  {
    (s.(onRecordingDone := None, isRecording := false), s.onRecordingDone)
  }

  /** `enterMacroRecordMode(adapter, registerName)`, with `dismiss` the callback
      `displayMessage` returns. */
  function EnterSpec(s: MacroVal, registerName: string, dismiss: Dismiss): (r: MacroVal)
    ensures r.isRecording && r.latestRegister == Some(registerName) && r.onRecordingDone == Some(dismiss)
    ensures r.isPlaying == s.isPlaying && r.replaySearchQueries == s.replaySearchQueries
  {
    s.(latestRegister := Some(registerName), onRecordingDone := Some(dismiss), isRecording := true)
  }

  /** The register `getRegister(registerName)` hands back: the named one for a valid
      name, else the unnamed one. */
  function RecordingKey(valid: seq<string>, registerName: string): string {
    if IsValidName(valid, registerName) then KeyOf(registerName) else UnnamedName
  }

  /** What entering record mode does to the registers: the recording register is
      emptied (created first if it did not exist). */
  function ClearedForRecording(v: map<string, RegVal>, valid: seq<string>, registerName: string): (r: map<string, RegVal>)
    ensures r.Keys == v.Keys + {RecordingKey(valid, registerName)}
    ensures Text(r[RecordingKey(valid, registerName)]) == "" && !r[RecordingKey(valid, registerName)].linewise
    ensures forall n :: n in v && n != RecordingKey(valid, registerName) ==> r[n] == v[n]
  {
    var key := RecordingKey(valid, registerName);
    v[key := ClearVal(Get(v, key))]
  }

  /** Entering record mode and then exiting twice invokes the dismiss callback
      exactly once: the first exit invokes it, the second finds none. */
  lemma EnterThenTwoExitsDismissOnce(s: MacroVal, registerName: string, dismiss: Dismiss)
    ensures var (s1, first) := ExitSpec(EnterSpec(s, registerName, dismiss));
      var (s2, second) := ExitSpec(s1);
      first == Some(dismiss) && second.None? && !s2.isRecording
  {
  }

  /** Record mode toggles only recording state: `isPlaying`, the replayed search
      queries and, on exit, the latest register survive any sequence of enters and exits. */
  lemma {:induction false} TogglesKeepPlayback(s: MacroVal, ops: seq<Option<(string, Dismiss)>>)
    ensures var r := Toggle(s, ops);
      r.isPlaying == s.isPlaying && r.replaySearchQueries == s.replaySearchQueries
    ensures ops != [] ==> (Toggle(s, ops).isRecording <==> ops[|ops| - 1].Some?)
    decreases |ops|
  {
    if ops != [] {
      TogglesKeepPlayback(s, ops[..|ops| - 1]);
    }
  }

  /** Applies enters (`Some((name, dismiss))`) and exits (`None`) in order. */
  function Toggle(s: MacroVal, ops: seq<Option<(string, Dismiss)>>): MacroVal
    decreases |ops|
  {
    if ops == [] then s
    else
      var prev := Toggle(s, ops[..|ops| - 1]);
      var op := ops[|ops| - 1];
      if op.Some? then EnterSpec(prev, op.value.0, op.value.1) else ExitSpec(prev).0
  }

  /** `register.clear()` on the register stored under `key`: only that name's
      value changes, since names hold distinct objects. */
  method ClearStored(rc: RegisterController, key: string)
    requires rc.Valid() && key in rc.registers
    modifies rc.registers[key]
    ensures rc.Valid()
    ensures rc.View() == old(rc.View())[key := ClearVal(old(rc.View())[key])]
  {
    var register := rc.registers[key];
    register.Clear();
    assert forall n :: n in rc.registers && n != key ==> rc.registers[n] != register;
  }

  /** `getRegister(registerName).clear()`: the register is always found, since an
      invalid name yields the unnamed register. */
  method ClearForRecording(rc: RegisterController, registerName: string)
    requires rc.Valid()
    modifies rc`registers, rc.registers.Values
    ensures rc.Valid() && rc.validRegisters == old(rc.validRegisters)
    ensures rc.View() == ClearedForRecording(old(rc.View()), rc.validRegisters, registerName)
  {
    ghost var v0 := rc.View();
    var register := rc.GetRegister(registerName);
    var key := RecordingKey(rc.validRegisters, registerName);
    ghost var v1 := rc.View();
    assert v1 == v0[key := Get(v0, key)];
    assert key in rc.registers && rc.registers[key] == register;
    ClearStored(rc, key);
    assert rc.View() == v1[key := ClearVal(v1[key])];
  }

  class MacroModeState {
    var latestRegister: Option<string>
    var isPlaying: bool
    var isRecording: bool
    var replaySearchQueries: seq<string>
    var onRecordingDone: Option<Dismiss>

    function Val(): MacroVal
      reads this
    {
      MacroVal(latestRegister, isPlaying, isRecording, replaySearchQueries, onRecordingDone)
    }

    /** A new state: not recording, not playing, no latest register and no callback. */
    constructor ()
      ensures Val() == MacroVal(None, false, false, [], None)
    {
      latestRegister := None;
      isPlaying, isRecording := false, false;
      replaySearchQueries := [];
      onRecordingDone := None;
    }

    method ExitMacroRecordMode() returns (invoked: Option<Dismiss>)
      modifies this`onRecordingDone, this`isRecording
      ensures (Val(), invoked) == ExitSpec(old(Val()))
    {
      invoked := None;
      if onRecordingDone.Some? {
        invoked := onRecordingDone;
      }
      onRecordingDone := None;
      isRecording := false;
    }

    /** The register controller is the session's; `dismiss` is what the adapter's
        `displayMessage` returns for the recording notice. */
    method EnterMacroRecordMode(rc: RegisterController, registerName: string, dismiss: Dismiss)
      requires rc.Valid()
      modifies this`latestRegister, this`onRecordingDone, this`isRecording, rc`registers, rc.registers.Values
      ensures rc.Valid()
      ensures Val() == EnterSpec(old(Val()), registerName, dismiss)
      ensures rc.View() == ClearedForRecording(old(rc.View()), rc.validRegisters, registerName)
    {
      ghost var v0 := rc.View();
      latestRegister := Some(registerName);
      onRecordingDone := Some(dismiss);
      isRecording := true;
      assert rc.View() == v0;
      ClearForRecording(rc, registerName);
    }
  }
}
