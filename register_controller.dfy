/** The copy-and-paste registers of register-controller.ts: single registers with
    overwrite and append, and the controller that routes yanks and deletes to the
    named, numbered, small-delete and unnamed registers. */
module RegisterControllers {
  import opened Common

  /** The contents of a register: its text pieces (joined by `toString`), its
      paste mode and the search queries a macro recorded into it. */
  datatype RegVal = RegVal(keyBuffer: seq<string>, linewise: bool, blockwise: bool, searchQueries: seq<string>)

  /** What `toString()` returns. */
  function Text(v: RegVal): string { Join(v.keyBuffer) }

  /** A register made by `new Register()` with no arguments. */
  const EmptyVal := RegVal([""], false, false, [])

  /** The name of the unnamed register. */
  const UnnamedName := "\""

  /** A one-digit register name `1` to `9`. */
  predicate IsNumberName(n: string) { |n| == 1 && '1' <= n[0] <= '9' }

  function NameDigit(n: string): int
    requires n != []
  {
    n[0] as int - '0' as int
  }

  /** The register named by the digit `i`. */
  function DigitName(i: nat): (r: string)
    requires i <= 9
    ensures |r| == 1 && IsDigit(r[0]) && NameDigit(r) == i
    ensures 1 <= i ==> IsNumberName(r)
  {
    [('0' as int + i) as char]
  }

  lemma DigitNamesDistinct(i: nat, j: nat)
    requires i <= 9 && j <= 9
    ensures DigitName(i) == DigitName(j) <==> i == j
  {
  }

  /** The value of register `n` in view `v`, or that of a register created on first use. */
  function Get(v: map<string, RegVal>, n: string): RegVal {
    if n in v then v[n] else EmptyVal
  }

  // ---------------------------------------------------------------------
  // A single register, on values

  /** `setText(text, linewise, blockwise)` */
  function SetTextVal(v: RegVal, text: string, linewise: bool, blockwise: bool): (r: RegVal)
    ensures Text(r) == text
    ensures r.linewise == linewise && r.blockwise == blockwise
    ensures r.searchQueries == v.searchQueries
  {
    assert Join([text]) == Join([]) + text;
    RegVal([text], linewise, blockwise, v.searchQueries)
  }

  /** The separator `pushText` inserts before the new text. */
  function LinewiseSeparator(v: RegVal, linewise: bool): string {
    if linewise && !v.linewise then "\n" else ""
  }

  /** `pushText(text, linewise)`: a register that was ever linewise stays linewise,
      and turning linewise inserts a line break before the appended text. */
  function PushTextVal(v: RegVal, text: string, linewise: bool): (r: RegVal)
    ensures Text(r) == Text(v) + (if linewise && !v.linewise then "\n" else "") + text
    ensures r.linewise == (v.linewise || linewise)
    ensures v.linewise ==> r.linewise
    ensures r.blockwise == v.blockwise && r.searchQueries == v.searchQueries
  {
    var sep := LinewiseSeparator(v, linewise);
    var buf := if sep == "" then v.keyBuffer else v.keyBuffer + [sep];
    JoinAppend(v.keyBuffer, sep);
    JoinAppend(buf, text);
    RegVal(buf + [text], v.linewise || linewise, v.blockwise, v.searchQueries)
  }

  /** `clear()`: no text, not linewise, no recorded searches; `blockwise` is kept. */
  function ClearVal(v: RegVal): (r: RegVal)
    ensures Text(r) == "" && !r.linewise && r.searchQueries == []
    ensures r.blockwise == v.blockwise
  {
    RegVal([], false, v.blockwise, [])
  }

  /** Text pushed as linewise is made to end with a line break. */
  function NormText(text: string, linewise: bool): (r: string)
    ensures !linewise ==> r == text
    ensures linewise ==> r != [] && r[|r| - 1] == '\n'
    ensures r == text || r == text + "\n"
    ensures text != [] && text[|text| - 1] == '\n' ==> r == text
  {
    if linewise && CharAt(text, |text| - 1) != "\n" then text + "\n" else text
  }

  // ---------------------------------------------------------------------
  // The controller, on values

  /** `shiftNumericRegisters_` after processing targets 9 down to `j + 1`: each step
      fetches register `k - 1` (creating it when missing) and stores it as `k`. */
  function Shifted(v: map<string, RegVal>, j: nat): map<string, RegVal>
    requires 1 <= j <= 9
    decreases 9 - j
  {
    if j == 9 then v else ShiftStep(Shifted(v, j + 1), j + 1)
  }

  /** One step of the shift: fetch register `k - 1` (creating it) and store it as `k`. */
  function ShiftStep(w: map<string, RegVal>, k: nat): (r: map<string, RegVal>)
    requires 1 <= k <= 9
    ensures DigitName(k) in r && r[DigitName(k)] == Get(w, DigitName(k - 1))
  {
    var src := Get(w, DigitName(k - 1));
    w[DigitName(k - 1) := src][DigitName(k) := src]
  }

  /** What the steps from target 9 down to `j + 1` leave in `s`, starting from `v`:
      register `k - 1` moved into `k` for every `k > j`, `j` created when it was
      missing, and nothing else touched. */
  predicate ShiftedFacts(v: map<string, RegVal>, s: map<string, RegVal>, j: nat)
    requires 1 <= j <= 9
  {
    && (forall k :: j < k <= 9 ==> DigitName(k) in s && s[DigitName(k)] == Get(v, DigitName(k - 1)))
    && (j < 9 ==> DigitName(j) in s && s[DigitName(j)] == Get(v, DigitName(j)))
    && (forall n :: n in v ==> n in s)
    && (forall n :: n in s ==> n in v || (IsNumberName(n) && NameDigit(n) >= j))
    && (forall n :: n in v && !(IsNumberName(n) && NameDigit(n) > j) ==> s[n] == v[n])
  }

  lemma {:induction false} ShiftedValues(v: map<string, RegVal>, j: nat)
    requires 1 <= j <= 9
    ensures ShiftedFacts(v, Shifted(v, j), j)
    decreases 9 - j
  {
    if j < 9 {
      ShiftedValues(v, j + 1);
      ShiftStepFacts(v, Shifted(v, j + 1), j);
    }
  }

  /** One more step of the shift, for target `j + 1`. */
  lemma ShiftStepFacts(v: map<string, RegVal>, w: map<string, RegVal>, j: nat)
    requires 1 <= j < 9 && ShiftedFacts(v, w, j + 1)
    ensures ShiftedFacts(v, ShiftStep(w, j + 1), j)
  {
    var a, b := DigitName(j), DigitName(j + 1);
    var src := Get(w, a);
    assert src == Get(v, a);
    var s := w[a := src][b := src];
    assert ShiftStep(w, j + 1) == s;
    forall k | j < k <= 9
      ensures DigitName(k) in s && s[DigitName(k)] == Get(v, DigitName(k - 1))
    {
      if k > j + 1 { assert DigitName(k) != b; assert DigitName(k) != a; }
    }
    forall n | n in v && !(IsNumberName(n) && NameDigit(n) > j) ensures s[n] == v[n] {
      if n == a { assert src == v[a]; } else { assert n != b; }
    }
  }

  /** The whole shift: registers 1..8 move to 2..9, the old 9 is dropped, 1 keeps
      its value (and is created when missing), and no other register changes. */
  lemma ShiftMovesDown(v: map<string, RegVal>)
    ensures forall k :: 2 <= k <= 9 ==> DigitName(k) in Shifted(v, 1) && Shifted(v, 1)[DigitName(k)] == Get(v, DigitName(k - 1))
    ensures DigitName(1) in Shifted(v, 1) && Shifted(v, 1)[DigitName(1)] == Get(v, DigitName(1))
    ensures forall n :: n in v && !IsNumberName(n) ==> n in Shifted(v, 1) && Shifted(v, 1)[n] == v[n]
    ensures forall n :: n in Shifted(v, 1) ==> n in v || IsNumberName(n)
  {
    ShiftedValues(v, 1);
  }

  predicate IsValidName(valid: seq<string>, name: string) {
    name != "" && name in valid
  }

  /** The key a valid name is stored under: upper case names refer to the lower case register. */
  function KeyOf(name: string): string { ToLower(name) }

  /** Where text pushed without a valid register name goes, before the unnamed
      register is set. */
  function RouteDefault(v: map<string, RegVal>, operator: string, t: string, linewise: bool, blockwise: bool): (r: map<string, RegVal>)
    ensures forall n :: n in v ==> n in r
    ensures forall n :: n in v && !IsNumberName(n) && n != "0" && n != "-" ==> r[n] == v[n]
  {
    ShiftMovesDown(v);
    if operator == "yank" then v["0" := RegVal([t], linewise, blockwise, [])]
    else if operator == "delete" || operator == "change" then
      if '\n' !in t then v["-" := RegVal([t], linewise, false, [])]
      else Shifted(v, 1)["1" := RegVal([t], linewise, false, [])]
    else v
  }

  /** `pushText(registerName, operator, text, linewise, blockwise)` on the register values. */
  function PushTextSpec(v: map<string, RegVal>, valid: seq<string>, name: string, operator: string,
                        text: string, linewise: bool, blockwise: bool): (r: map<string, RegVal>)
    requires UnnamedName in v
    ensures UnnamedName in r && forall n :: n in v ==> n in r
    ensures name == "_" ==> r == v
    ensures name != "_" && !(IsValidName(valid, name) && IsUpperCase(name)) ==> Text(r[UnnamedName]) == NormText(text, linewise)
  {
    if name == "_" then v
    else if !IsValidName(valid, name) then DefaultPush(v, operator, NormText(text, linewise), linewise, blockwise)
    else NamedPush(v, name, NormText(text, linewise), linewise, blockwise)
  }

  /** Pushing normalised text `t` without a valid register name. */
  function DefaultPush(v: map<string, RegVal>, operator: string, t: string, linewise: bool, blockwise: bool): map<string, RegVal>
    requires UnnamedName in v
  {
    RouteDefault(v, operator, t, linewise, blockwise)[UnnamedName := SetTextVal(v[UnnamedName], t, linewise, blockwise)]
  }

  /** Pushing normalised text `t` under the valid register name `name`. */
  function NamedPush(v: map<string, RegVal>, name: string, t: string, linewise: bool, blockwise: bool): (r: map<string, RegVal>)
    requires UnnamedName in v
    ensures KeyOf(name) in r && UnnamedName in r
    ensures Text(r[UnnamedName]) == Text(r[KeyOf(name)])
    ensures !IsUpperCase(name) ==> Text(r[KeyOf(name)]) == t
    ensures forall n :: n in v && n != KeyOf(name) && n != UnnamedName ==> n in r && r[n] == v[n]
  {
    var key := KeyOf(name);
    var base := Get(v, key);
    var nv := if IsUpperCase(name) then PushTextVal(base, t, linewise) else SetTextVal(base, t, linewise, blockwise);
    var w := v[key := nv];
    w[UnnamedName := SetTextVal(w[UnnamedName], Text(nv), linewise, false)]
  }

  lemma ShiftNamesNotSpecial(i: nat)
    requires 1 <= i <= 9
    ensures DigitName(i) != UnnamedName && DigitName(i) != "0" && DigitName(i) != "-"
  {
    assert DigitName(i)[0] != UnnamedName[0];
    assert "0" == DigitName(0);
    DigitNamesDistinct(i, 0);
    assert DigitName(i)[0] != "-"[0];
  }

  /** The black hole register `_` discards the text: no register changes. */
  lemma BlackHoleKeepsAll(v: map<string, RegVal>, valid: seq<string>, operator: string, text: string, linewise: bool, blockwise: bool)
    requires UnnamedName in v
    ensures PushTextSpec(v, valid, "_", operator, text, linewise, blockwise) == v
  {
  }

  /** Without a valid register name the unnamed register always receives the
      (normalised) text with the given paste mode. */
  lemma DefaultSetsUnnamed(v: map<string, RegVal>, valid: seq<string>, name: string, operator: string,
                           text: string, linewise: bool, blockwise: bool)
    requires UnnamedName in v && name != "_" && !IsValidName(valid, name)
    ensures var r := PushTextSpec(v, valid, name, operator, text, linewise, blockwise);
      && UnnamedName in r && Text(r[UnnamedName]) == NormText(text, linewise)
      && r[UnnamedName].linewise == linewise && r[UnnamedName].blockwise == blockwise
  {
  }

  /** A yank without a valid name writes register `0` and the unnamed register only. */
  lemma YankGoesToZero(v: map<string, RegVal>, valid: seq<string>, name: string,
                       text: string, linewise: bool, blockwise: bool)
    requires UnnamedName in v && name != "_" && !IsValidName(valid, name)
    ensures var r := PushTextSpec(v, valid, name, "yank", text, linewise, blockwise);
      && "0" in r && r["0"] == RegVal([NormText(text, linewise)], linewise, blockwise, [])
      && r.Keys == v.Keys + {"0"}
      && forall n :: n in v && n != "0" && n != UnnamedName ==> r[n] == v[n]
  {
  }

  /** A delete or change without a line break and without a valid name writes the
      small delete register `-` and the unnamed register only; such text is never
      linewise, since linewise text ends with a line break. */
  lemma SmallDeleteGoesToDash(v: map<string, RegVal>, valid: seq<string>, name: string, operator: string,
                              text: string, linewise: bool, blockwise: bool)
    requires UnnamedName in v && name != "_" && !IsValidName(valid, name)
    requires operator == "delete" || operator == "change"
    requires '\n' !in NormText(text, linewise)
    ensures var r := PushTextSpec(v, valid, name, operator, text, linewise, blockwise);
      && "-" in r && r["-"] == RegVal([text], false, false, [])
      && r.Keys == v.Keys + {"-"}
      && forall n :: n in v && n != "-" && n != UnnamedName ==> r[n] == v[n]
  {
  }

  /** A delete or change of text with a line break, without a valid name, shifts
      registers 1..8 into 2..9 (dropping 9), writes `1` and the unnamed register,
      and changes no other register. */
  lemma LineDeleteShifts(v: map<string, RegVal>, valid: seq<string>, name: string, operator: string,
                         text: string, linewise: bool, blockwise: bool)
    requires UnnamedName in v && name != "_" && !IsValidName(valid, name)
    requires operator == "delete" || operator == "change"
    requires '\n' in NormText(text, linewise)
    ensures var r := PushTextSpec(v, valid, name, operator, text, linewise, blockwise);
      && "1" in r && r["1"] == RegVal([NormText(text, linewise)], linewise, false, [])
      && (forall k :: 2 <= k <= 9 ==> DigitName(k) in r && r[DigitName(k)] == Get(v, DigitName(k - 1)))
      && (forall n :: n in r ==> n in v || IsNumberName(n))
      && forall n :: n in v && !IsNumberName(n) && n != UnnamedName ==> r[n] == v[n]
  {
    LineDeleteShiftsText(v, operator, NormText(text, linewise), linewise, blockwise);
  }

  lemma LineDeleteShiftsText(v: map<string, RegVal>, operator: string, t: string, linewise: bool, blockwise: bool)
    requires UnnamedName in v && (operator == "delete" || operator == "change") && '\n' in t
    ensures var r := DefaultPush(v, operator, t, linewise, blockwise);
      && "1" in r && r["1"] == RegVal([t], linewise, false, [])
      && (forall k :: 2 <= k <= 9 ==> DigitName(k) in r && r[DigitName(k)] == Get(v, DigitName(k - 1)))
      && (forall n :: n in r ==> n in v || IsNumberName(n))
      && forall n :: n in v && !IsNumberName(n) && n != UnnamedName ==> r[n] == v[n]
  {
    ShiftMovesDown(v);
    var sh := Shifted(v, 1);
    var one := DigitName(1);
    assert "1" == one;
    var x := RegVal([t], linewise, false, []);
    var y := SetTextVal(v[UnnamedName], t, linewise, blockwise);
    assert DefaultPush(v, operator, t, linewise, blockwise) == sh[one := x][UnnamedName := y];
    WritesKeepShift(v, sh, x, y);
  }

  /** Writing `1` and the unnamed register after the shift leaves 2..9 as shifted. */
  lemma WritesKeepShift(v: map<string, RegVal>, sh: map<string, RegVal>, x: RegVal, y: RegVal)
    requires UnnamedName in v
    requires forall k :: 2 <= k <= 9 ==> DigitName(k) in sh && sh[DigitName(k)] == Get(v, DigitName(k - 1))
    requires forall n :: n in sh ==> n in v || IsNumberName(n)
    requires forall n :: n in v && !IsNumberName(n) ==> n in sh && sh[n] == v[n]
    ensures var r := sh[DigitName(1) := x][UnnamedName := y];
      && DigitName(1) in r && r[DigitName(1)] == x
      && (forall k :: 2 <= k <= 9 ==> DigitName(k) in r && r[DigitName(k)] == Get(v, DigitName(k - 1)))
      && (forall n :: n in r ==> n in v || IsNumberName(n))
      && forall n :: n in v && !IsNumberName(n) && n != UnnamedName ==> r[n] == v[n]
  {
    var r := sh[DigitName(1) := x][UnnamedName := y];
    ShiftNamesNotSpecial(1);
    forall k | 2 <= k <= 9 ensures DigitName(k) in r && r[DigitName(k)] == Get(v, DigitName(k - 1)) {
      ShiftNamesNotSpecial(k);
      DigitNamesDistinct(k, 1);
    }
  }

  /** Any other operator without a valid name writes only the unnamed register. */
  lemma OtherOperatorOnlyUnnamed(v: map<string, RegVal>, valid: seq<string>, name: string, operator: string,
                                 text: string, linewise: bool, blockwise: bool)
    requires UnnamedName in v && name != "_" && !IsValidName(valid, name)
    requires operator != "yank" && operator != "delete" && operator != "change"
    ensures var r := PushTextSpec(v, valid, name, operator, text, linewise, blockwise);
      r.Keys == v.Keys && forall n :: n in v && n != UnnamedName ==> r[n] == v[n]
  {
  }

  /** With a valid name: an upper case name appends to its lower case register, a
      lower case one overwrites it; the unnamed register then holds that register's
      text, and no other register changes. */
  lemma NamedRouting(v: map<string, RegVal>, valid: seq<string>, name: string, operator: string,
                     text: string, linewise: bool, blockwise: bool)
    requires UnnamedName in v && name != "_" && IsValidName(valid, name)
    ensures var r := PushTextSpec(v, valid, name, operator, text, linewise, blockwise);
      var t := NormText(text, linewise);
      var key := KeyOf(name);
      var old_ := Get(v, key);
      && key in r && UnnamedName in r
      && (IsUpperCase(name) && key != UnnamedName ==>
            Text(r[key]) == Text(old_) + (if linewise && !old_.linewise then "\n" else "") + t
            && r[key].linewise == (old_.linewise || linewise))
      && (!IsUpperCase(name) && key != UnnamedName ==>
            Text(r[key]) == t && r[key].linewise == linewise && r[key].blockwise == blockwise)
      && Text(r[UnnamedName]) == Text(r[key]) && r[UnnamedName].linewise == linewise
      && (forall n :: n in v && n != key && n != UnnamedName ==> n in r && r[n] == v[n])
  {
  }

  /** `toLowerCase` of a one-character upper case name is the matching lower case letter. */
  lemma UpperCaseKey(name: string)
    requires IsUpperCase(name)
    ensures |KeyOf(name)| == 1 && 'a' <= KeyOf(name)[0] <= 'z' && KeyOf(name)[0] as int == name[0] as int + 32
  {
  }

  // ---------------------------------------------------------------------
  // Objects

  class Register {
    var keyBuffer: seq<string>
    var searchQueries: seq<string>
    var linewise: bool
    var blockwise: bool
    /** Whether this is an instance of the built-in register type (and not an
        externally defined one). */
    const internal: bool

    function Val(): RegVal
      reads this
    {
      RegVal(keyBuffer, linewise, blockwise, searchQueries)
    }

    function ToString(): (r: string)
      reads this
      ensures r == Text(Val())
    {
      Join(keyBuffer)
    }

    /** `new Register(text, linewise, blockwise)` */
    constructor (text: string, linewise: bool, blockwise: bool)
      ensures Val() == RegVal([text], linewise, blockwise, [])
      ensures ToString() == text
      ensures internal
    {
      keyBuffer := [text];
      searchQueries := [];
      this.linewise := linewise;
      this.blockwise := blockwise;
      internal := true;
      new;
      assert Join([text]) == Join([]) + text;
    }

    /** A register supplied from outside through `defineRegister`; it is modelled
        with the same behaviour as a built-in one. */
    constructor External()
      ensures Val() == EmptyVal
      ensures !internal
    {
      keyBuffer := [""];
      searchQueries := [];
      linewise, blockwise := false, false;
      internal := false;
    }

    method SetText(text: string, linewise: bool, blockwise: bool)
      modifies this
      ensures Val() == SetTextVal(old(Val()), text, linewise, blockwise)
      ensures ToString() == text && this.linewise == linewise && this.blockwise == blockwise
    {
      keyBuffer := [text];
      this.linewise := linewise;
      this.blockwise := blockwise;
      assert Join([text]) == Join([]) + text;
    }

    method PushText(text: string, linewise: bool)
      modifies this
      ensures Val() == PushTextVal(old(Val()), text, linewise)
      ensures ToString() == old(ToString()) + (if linewise && !old(this.linewise) then "\n" else "") + text
      ensures old(this.linewise) ==> this.linewise
    {
      if linewise {
        if !this.linewise {
          keyBuffer := keyBuffer + ["\n"];
        }
        this.linewise := true;
      }
      keyBuffer := keyBuffer + [text];
      ghost var expected := PushTextVal(old(Val()), text, linewise);
      assert Val() == expected;
    }

    method PushSearchQuery(query: string)
      modifies this
      ensures searchQueries == old(searchQueries) + [query]
      ensures keyBuffer == old(keyBuffer) && linewise == old(linewise) && blockwise == old(blockwise)
    {
      searchQueries := searchQueries + [query];
    }

    method Clear()
      modifies this
      ensures Val() == ClearVal(old(Val()))
      ensures ToString() == "" && !linewise
    {
      keyBuffer := [];
      searchQueries := [];
      linewise := false;
    }
  }

  /** Different names hold different register objects. */
  ghost predicate Injective(m: map<string, Register>) {
    forall a, b :: a in m && b in m && a != b ==> m[a] != m[b]
  }

  /** The keymap's list of valid register names includes the digits that
      `shiftNumericRegisters_` reads through `getRegister`. */
  predicate NumbersValid(valid: seq<string>) {
    forall i :: 1 <= i <= 8 ==> DigitName(i) in valid
  }

  function ViewOf(m: map<string, Register>): map<string, RegVal>
    reads m.Values
  {
    map n | n in m :: m[n].Val()
  }

  lemma ViewOfUpdate(m: map<string, Register>, k: string, o: Register)
    ensures ViewOf(m[k := o]) == ViewOf(m)[k := o.Val()]
  {
  }

  class RegisterController {
    var registers: map<string, Register>
    var unnamedRegister: Register
    /** The keymap's `validRegisters` list, which `defineRegister` extends. */
    var validRegisters: seq<string>

    ghost predicate Valid()
      reads this
    {
      && UnnamedName in registers && registers[UnnamedName] == unnamedRegister
      && Injective(registers)
      && NumbersValid(validRegisters)
    }

    /** The value of every register, by name. */
    function View(): map<string, RegVal>
      reads this, registers.Values
    {
      ViewOf(registers)
    }

    /** `new RegisterController({})`: the unnamed, `.`, `:` and `/` registers, all empty. */
    constructor (validRegisters: seq<string>)
      requires NumbersValid(validRegisters)
      ensures Valid()
      ensures View() == map[UnnamedName := EmptyVal, "." := EmptyVal, ":" := EmptyVal, "/" := EmptyVal]
      ensures this.validRegisters == validRegisters
      ensures fresh(registers.Values)
    {
      var m := StartingMap();
      registers := m;
      unnamedRegister := m[UnnamedName];
      this.validRegisters := validRegisters;
    }

    /** `defineRegister(name, register)`: a one-character name not yet in use gets
        the external register and becomes a valid register name. */
    method DefineRegister(name: string, register: Register) returns (r: Result<()>)
      requires Valid()
      modifies this`registers, this`validRegisters
      ensures Valid() <==> r.Err? || register !in old(registers).Values
      ensures |name| != 1 ==> r == Err("Register name must be 1 character")
      ensures |name| == 1 && name in old(registers) ==> r == Err("Register already defined " + name)
      ensures r.Err? ==> registers == old(registers) && validRegisters == old(validRegisters)
      ensures r.Ok? <==> |name| == 1 && name !in old(registers)
      ensures r.Ok? ==> registers == old(registers)[name := register] && validRegisters == old(validRegisters) + [name]
    {
      if name == "" || |name| != 1 {
        return Err("Register name must be 1 character");
      }
      if name in registers {
        return Err("Register already defined " + name);
      }
      if register in registers.Values {
        var other :| other in registers && registers[other] == register;
        registers := registers[name := register];
        assert other in registers && name in registers && other != name && registers[other] == registers[name];
      } else {
        InjectiveReplace(registers, name, register);
        registers := registers[name := register];
      }
      validRegisters := validRegisters + [name];
      r := Ok(());
    }

    /** `isValidRegister(name)` */
    predicate IsValidRegister(name: string)
      reads this
    {
      IsValidName(validRegisters, name)
    }

    /** `getRegister(name)`: the unnamed register for an invalid name; otherwise the
        register under the lower-cased name, created empty on first use. */
    method GetRegister(name: string) returns (r: Register)
      modifies this`registers
      ensures !IsValidRegister(name) ==> r == unnamedRegister && registers == old(registers)
      ensures IsValidRegister(name) ==>
        && KeyOf(name) in registers && r == registers[KeyOf(name)]
        && (KeyOf(name) in old(registers) ==> registers == old(registers))
        && (KeyOf(name) !in old(registers) ==> fresh(r) && r.Val() == EmptyVal && registers == old(registers)[KeyOf(name) := r])
      ensures View() == if IsValidRegister(name) then old(View())[KeyOf(name) := Get(old(View()), KeyOf(name))] else old(View())
      ensures old(Valid()) ==> Valid()
    {
      if !IsValidRegister(name) {
        return unnamedRegister;
      }
      var key := KeyOf(name);
      if key !in registers {
        var fresh_ := new Register("", false, false);
        registers := registers[key := fresh_];
      }
      r := registers[key];
    }

    /** `getInternalRegister(name)`: like `getRegister`, but an externally defined
        register is replaced by the unnamed one. */
    method GetInternalRegister(name: string) returns (r: Register)
      modifies this`registers
      ensures r.internal || r == unnamedRegister
      ensures IsValidRegister(name) ==> KeyOf(name) in registers
      ensures IsValidRegister(name) && registers[KeyOf(name)].internal ==> r == registers[KeyOf(name)]
      ensures !IsValidRegister(name) ==> r == unnamedRegister
      ensures View() == if IsValidRegister(name) then old(View())[KeyOf(name) := Get(old(View()), KeyOf(name))] else old(View())
      ensures old(Valid()) ==> Valid()
    {
      var reg := GetRegister(name);
      if reg.internal {
        return reg;
      }
      return unnamedRegister;
    }

    /** `shiftNumericRegisters_`: for k from 9 down to 2, register k becomes the
        register object k - 1. Afterwards `1` and `2` share an object, until the
        caller replaces `1`. */
    method ShiftNumericRegisters()
      requires Valid()
      modifies this`registers
      ensures View() == Shifted(old(View()), 1)
      ensures UnnamedName in registers && registers[UnnamedName] == unnamedRegister
      ensures DigitName(1) in registers && Injective(registers - {DigitName(1)})
    {
      MoveAllDown();
      AliasSwap(registers, DigitName(1), DigitName(2));
    }

    /** The loop of `shiftNumericRegisters_`, targets 9 down to 2. */
    method MoveAllDown()
      requires Valid()
      modifies this`registers
      ensures View() == Shifted(old(View()), 1)
      ensures UnnamedName in registers && registers[UnnamedName] == unnamedRegister
      ensures AliasedAt(registers, 1)
    {
      ghost var v0 := View();
      var j := 9;
      while j >= 2
        invariant 1 <= j <= 9
        invariant NumbersValid(validRegisters)
        invariant View() == Shifted(v0, j)
        invariant UnnamedName in registers && registers[UnnamedName] == unnamedRegister
        invariant AliasedAt(registers, j)
        decreases j
      {
        MoveDown(j);
        j := j - 1;
      }
    }

    /** The body of the shift loop for target `j`. */
    method MoveDown(j: nat)
      requires 2 <= j <= 9 && NumbersValid(validRegisters)
      requires UnnamedName in registers && registers[UnnamedName] == unnamedRegister
      requires AliasedAt(registers, j)
      modifies this`registers
      ensures View() == ShiftStep(old(View()), j)
      ensures UnnamedName in registers && registers[UnnamedName] == unnamedRegister
      ensures AliasedAt(registers, j - 1)
    {
      ShiftNamesNotSpecial(j);
      ShiftNamesNotSpecial(j - 1);
      if j < 9 { DigitNamesDistinct(j - 1, j + 1); }
      DigitNamesDistinct(j - 1, j);
      var src := DigitName(j - 1);
      assert KeyOf(src) == src;
      ghost var before := registers;
      ghost var w := View();
      var reg := FetchDigit(src);
      ghost var w1 := View();
      assert w1 == w[src := reg.Val()] && reg.Val() == Get(w, src);
      Rebind(DigitName(j), reg);
      StepIsShift(w, j, reg.Val());
      ShiftStepInjective(before, registers, j, reg);
    }

    /** `registers[name] = register`: the name now stands for that object. */
    method Rebind(name: string, register: Register)
      modifies this`registers
      ensures registers == old(registers)[name := register]
      ensures View() == old(View())[name := register.Val()]
    {
      ghost var m0 := registers;
      registers := registers[name := register];
      ViewOfUpdate(m0, name, register);
    }

    /** `getRegister(src)` for a digit name, as the shift loop uses it. */
    method FetchDigit(src: string) returns (reg: Register)
      requires IsNumberName(src) && src in validRegisters
      modifies this`registers
      ensures registers == old(registers)[src := reg]
      ensures src in old(registers) ==> reg == old(registers)[src]
      ensures src !in old(registers) ==> reg !in old(registers).Values
      ensures reg.Val() == Get(old(View()), src)
      ensures View() == old(View())[src := reg.Val()]
      ensures unnamedRegister == old(unnamedRegister) && validRegisters == old(validRegisters)
    {
      assert KeyOf(src) == src;
      reg := GetRegister(src);
      if src in old(registers) {
        SameEntry(old(registers), src);
      }
    }

    /** `pushText(registerName, operator, text, linewise, blockwise)` */
    method PushText(name: string, operator: string, text: string, linewise: bool, blockwise: bool)
      requires Valid()
      modifies this`registers, registers.Values
      ensures Valid()
      ensures View() == PushTextSpec(old(View()), validRegisters, name, operator, text, linewise, blockwise)
      ensures unnamedRegister == old(unnamedRegister) && validRegisters == old(validRegisters)
    {
      if name == "_" {
        return;
      }
      var t := NormText(text, linewise);
      if !IsValidRegister(name) {
        PushDefault(operator, t, linewise, blockwise);
      } else {
        PushNamed(name, t, linewise, blockwise);
      }
    }

    method PushDefault(operator: string, t: string, linewise: bool, blockwise: bool)
      requires Valid()
      modifies this`registers, unnamedRegister
      ensures Valid()
      ensures View() == DefaultPush(old(View()), operator, t, linewise, blockwise)
    {
      RouteByOperator(operator, t, linewise, blockwise);
      assert "0" != UnnamedName && "-" != UnnamedName && "1" != UnnamedName;
      WriteUnnamed(t, linewise, blockwise);
    }

    method PushNamed(name: string, t: string, linewise: bool, blockwise: bool)
      requires Valid() && IsValidRegister(name)
      modifies this`registers, registers.Values
      ensures Valid()
      ensures View() == NamedPush(old(View()), name, t, linewise, blockwise)
    {
      ghost var v := View();
      var reg := GetRegister(name);
      var key := KeyOf(name);
      ghost var base := Get(v, key);
      ghost var nv := if IsUpperCase(name) then PushTextVal(base, t, linewise) else SetTextVal(base, t, linewise, blockwise);
      ghost var mid := View();
      assert mid == v[key := base] && mid[key] == base;
      WriteAt(key, IsUpperCase(name), t, linewise, blockwise);
      assert View() == mid[key := nv];
      Overwrite(v, key, base, nv);
      assert reg.Val() == nv;
      var s := reg.ToString();
      assert s == Text(nv);
      WriteUnnamed(s, linewise, false);
    }

    /** The default routing of `pushText` for an operator: a fresh register `0`, `-`
        or (after the shift) `1`. */
    method RouteByOperator(operator: string, t: string, linewise: bool, blockwise: bool)
      requires Valid()
      modifies this`registers
      ensures Valid()
      ensures View() == RouteDefault(old(View()), operator, t, linewise, blockwise)
    {
      if operator == "yank" {
        InjectiveRemove(registers, "0");
        StoreNew("0", t, linewise, blockwise);
      } else if operator == "delete" || operator == "change" {
        if '\n' !in t {
          InjectiveRemove(registers, "-");
          StoreNew("-", t, linewise, false);
        } else {
          ShiftNumericRegisters();
          assert "1" == DigitName(1);
          StoreNew("1", t, linewise, false);
        }
      }
    }

    /** `this.registers[key] = new Register(t, linewise, blockwise)` */
    method StoreNew(key: string, t: string, linewise: bool, blockwise: bool)
      requires key != UnnamedName && UnnamedName in registers && registers[UnnamedName] == unnamedRegister
      requires NumbersValid(validRegisters) && Injective(registers - {key})
      modifies this`registers
      ensures Valid()
      ensures View() == old(View())[key := RegVal([t], linewise, blockwise, [])]
    {
      var r := new Register(t, linewise, blockwise);
      ReplaceFresh(key, r);
    }

    /** `this.registers[key] = r` for a register object not stored under any other name. */
    method ReplaceFresh(key: string, r: Register)
      requires key != UnnamedName && UnnamedName in registers && registers[UnnamedName] == unnamedRegister
      requires NumbersValid(validRegisters) && Injective(registers - {key})
      requires forall n :: n in registers && n != key ==> registers[n] != r
      modifies this`registers
      ensures Valid()
      ensures View() == old(View())[key := r.Val()]
    {
      ViewOfUpdate(registers, key, r);
      InjectiveReplace(registers, key, r);
      registers := registers[key := r];
    }

    /** `register.pushText(text, linewise)` when `append`, else
        `register.setText(text, linewise, blockwise)`, on the register stored under `key`. */
    method WriteAt(key: string, append: bool, text: string, linewise: bool, blockwise: bool)
      requires Valid() && key in registers
      modifies registers[key]
      ensures Valid()
      ensures View() == old(View())[key := if append then PushTextVal(old(View())[key], text, linewise)
                                           else SetTextVal(old(View())[key], text, linewise, blockwise)]
    {
      var reg := registers[key];
      if append {
        reg.PushText(text, linewise);
      } else {
        reg.SetText(text, linewise, blockwise);
      }
      assert forall n :: n in registers && n != key ==> registers[n] != reg;
      OnlyOneChanged(registers, old(View()), key);
    }

    /** `this.unnamedRegister.setText(text, linewise, blockwise)`: only the unnamed
        register's value changes. */
    method WriteUnnamed(text: string, linewise: bool, blockwise: bool)
      requires Valid()
      modifies unnamedRegister
      ensures Valid()
      ensures View() == old(View())[UnnamedName := SetTextVal(old(View())[UnnamedName], text, linewise, blockwise)]
    {
      unnamedRegister.SetText(text, linewise, blockwise);
      assert forall n :: n in registers && n != UnnamedName ==> registers[n] != unnamedRegister;
      OnlyOneChanged(registers, old(View()), UnnamedName);
    }
  }

  /** The object sharing in the middle of the shift loop, before target `j`: targets
      above `j` are done and `j` shares its object with `j + 1`. */
  ghost predicate AliasedAt(m: map<string, Register>, j: nat)
    requires 1 <= j <= 9
  {
    && (j == 9 ==> Injective(m))
    && (j < 9 ==> DigitName(j) in m && DigitName(j + 1) in m
                  && m[DigitName(j)] == m[DigitName(j + 1)] && Injective(m - {DigitName(j + 1)}))
  }

  /** The four registers a new controller starts with, each a new empty object. */
  method StartingMap() returns (m: map<string, Register>)
    ensures UnnamedName in m && Injective(m) && fresh(m.Values)
    ensures ViewOf(m) == map[UnnamedName := EmptyVal, "." := EmptyVal, ":" := EmptyVal, "/" := EmptyVal]
  {
    var u := new Register("", false, false);
    var dot := new Register("", false, false);
    var colon := new Register("", false, false);
    var slash := new Register("", false, false);
    m := map[UnnamedName := u, "." := dot, ":" := colon, "/" := slash];
    StartingRegisters(u, dot, colon, slash);
  }

  lemma StartingRegisters(u: Register, dot: Register, colon: Register, slash: Register)
    requires u != dot && u != colon && u != slash && dot != colon && dot != slash && colon != slash
    requires u.Val() == EmptyVal && dot.Val() == EmptyVal && colon.Val() == EmptyVal && slash.Val() == EmptyVal
    ensures var m := map[UnnamedName := u, "." := dot, ":" := colon, "/" := slash];
      && Injective(m)
      && m.Values == {u, dot, colon, slash}
      && ViewOf(m) == map[UnnamedName := EmptyVal, "." := EmptyVal, ":" := EmptyVal, "/" := EmptyVal]
  {
    var m := map[UnnamedName := u, "." := dot, ":" := colon, "/" := slash];
    assert UnnamedName != "." && UnnamedName != ":" && UnnamedName != "/" by {
      assert UnnamedName[0] == '"';
    }
    assert "." != ":" && "." != "/" && ":" != "/" by {
      assert "."[0] == '.' && ":"[0] == ':' && "/"[0] == '/';
    }
    assert m.Keys == {UnnamedName, ".", ":", "/"};
    assert m[UnnamedName] == u && m["."] == dot && m[":"] == colon && m["/"] == slash;
  }

  /** When every name but `key` kept its value, the view is the old one with `key` updated. */
  lemma OnlyOneChanged(m: map<string, Register>, v0: map<string, RegVal>, key: string)
    requires key in m && m.Keys == v0.Keys
    requires forall n :: n in m && n != key ==> m[n].Val() == v0[n]
    ensures ViewOf(m) == v0[key := m[key].Val()]
  {
  }

  /** Writing a name twice keeps the second value only. */
  lemma Overwrite(v: map<string, RegVal>, k: string, a: RegVal, b: RegVal)
    ensures v[k := a][k := b] == v[k := b]
  {
  }

  lemma SameEntry(m: map<string, Register>, k: string)
    requires k in m
    ensures m[k := m[k]] == m
  {
  }

  lemma InjectiveRemove(m: map<string, Register>, k: string)
    requires Injective(m)
    ensures Injective(m - {k})
  {
  }

  /** Storing an object no other name holds keeps names on distinct objects. */
  lemma InjectiveReplace(m: map<string, Register>, k: string, o: Register)
    requires Injective(m - {k})
    requires forall n :: n in m && n != k ==> m[n] != o
    ensures Injective(m[k := o])
  {
    var r := m[k := o];
    forall x, y | x in r && y in r && x != y ensures r[x] != r[y] {
      if x != k && y != k { assert x in m - {k} && y in m - {k}; }
    }
  }

  /** With two names on one object, dropping either name leaves an injective map. */
  lemma AliasSwap(m: map<string, Register>, a: string, b: string)
    requires a in m && b in m && m[a] == m[b] && Injective(m - {b})
    ensures Injective(m - {a})
  {
    var r := m - {a};
    forall x, y | x in r && y in r && x != y ensures r[x] != r[y] {
      var x' := if x == b then a else x;
      var y' := if y == b then a else y;
      assert x' in m - {b} && y' in m - {b} && x' != y';
    }
  }

  /** Storing the fetched value under both digit names is one step of the shift. */
  lemma StepIsShift(w: map<string, RegVal>, j: nat, x: RegVal)
    requires 2 <= j <= 9 && x == Get(w, DigitName(j - 1))
    ensures w[DigitName(j - 1) := x][DigitName(j) := x] == ShiftStep(w, j)
  {
  }

  /** One step of the shift keeps every name but the alias pair on its own object. */
  lemma ShiftStepInjective(m0: map<string, Register>, m1: map<string, Register>, j: nat, reg: Register)
    requires 2 <= j <= 9
    requires AliasedAt(m0, j)
    requires DigitName(j - 1) in m0 ==> reg == m0[DigitName(j - 1)]
    requires DigitName(j - 1) !in m0 ==> reg !in m0.Values
    requires m1 == m0[DigitName(j - 1) := reg][DigitName(j) := reg]
    ensures AliasedAt(m1, j - 1)
  {
    var a, b := DigitName(j - 1), DigitName(j);
    DigitNamesDistinct(j - 1, j);
    var r := m1 - {b};
    // Every name of r but a stands on the object of some name of m, where m is
    // m0 less the alias c; b stands in for c.
    var m := if j < 9 then m0 - {DigitName(j + 1)} else m0;
    assert Injective(m);
    if j < 9 { DigitNamesDistinct(j - 1, j + 1); DigitNamesDistinct(j, j + 1); }
    forall x | x in r && x != a
      ensures (if j < 9 && x == DigitName(j + 1) then b else x) in m
      ensures r[x] == m[if j < 9 && x == DigitName(j + 1) then b else x]
    {
    }
    forall x | x in r && x == a ensures r[x] == reg && (a in m0 ==> a in m && reg == m[a]) {
    }
    forall x, y | x in r && y in r && x != y ensures r[x] != r[y] {
      var x' := if j < 9 && x == DigitName(j + 1) then b else x;
      var y' := if j < 9 && y == DigitName(j + 1) then b else y;
      if x != a && y != a {
        assert x' != y';
      } else if x == a {
        assert y' != a;
        if a !in m0 { assert m[y'] in m0.Values; }
      } else {
        assert x' != a;
        if a !in m0 { assert m[x'] in m0.Values; }
      }
    }
  }
}
