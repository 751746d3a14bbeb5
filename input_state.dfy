/** The per-session key accumulator of input-state.ts: the pending counts typed
    before and after an operator, the operator and motion names, and the raw key buffer. */
module InputStates {
  import opened Common

  /** A count fragment as the key dispatcher pushes it: a non-empty digit run. */
  predicate IsDigitRun(s: string) { s != [] && AllDigits(s) }

  predicate AllRuns(runs: seq<string>) {
    forall i :: 0 <= i < |runs| ==> IsDigitRun(runs[i])
  }

  lemma {:induction false} JoinOfRuns(runs: seq<string>)
    requires AllRuns(runs)
    ensures AllDigits(Join(runs))
    decreases |runs|
  {
    if runs != [] {
      var init := runs[..|runs| - 1];
      assert AllRuns(init);
      JoinOfRuns(init);
      var a, b := Join(init), runs[|runs| - 1];
      assert IsDigitRun(runs[|runs| - 1]);
      forall i | 0 <= i < |a + b| ensures IsDigit((a + b)[i]) {
        if i < |a| { assert (a + b)[i] == a[i]; } else { assert (a + b)[i] == b[i - |a|]; }
      }
    }
  }

  /** `parseInt(runs.join(""), 10)` for a list of digit runs. */
  function RunsValue(runs: seq<string>): nat
    requires AllRuns(runs)
  {
    JoinOfRuns(runs);
    DigitsValue(Join(runs))
  }

  /** What a repeat list contributes to `getRepeat()`: 1 when it is empty. */
  function Factor(runs: seq<string>): nat
    requires AllRuns(runs)
  {
    if runs == [] then 1 else RunsValue(runs)
  }

  /** Typing one more digit run after `runs` extends the number to the right. */
  lemma PushedRunExtendsValue(runs: seq<string>, d: string)
    requires AllRuns(runs) && IsDigitRun(d)
    ensures AllRuns(runs + [d])
    ensures RunsValue(runs + [d]) == RunsValue(runs) * Pow10(|d|) + DigitsValue(d)
  {
    assert AllRuns(runs + [d]) by {
      forall i | 0 <= i < |runs + [d]| ensures IsDigitRun((runs + [d])[i]) {
        if i < |runs| { assert (runs + [d])[i] == runs[i]; }
      }
    }
    JoinOfRuns(runs);
    JoinAppend(runs, d);
    DigitsValueConcat(Join(runs), d);
  }

  /** Pushing single digits one by one yields the decimal number they spell. */
  lemma {:induction false} DigitsOneByOne(digits: string)
    requires IsDigitRun(digits)
    ensures AllRuns(Singletons(digits))
    ensures RunsValue(Singletons(digits)) == DigitsValue(digits)
    decreases |digits|
  {
    var init := digits[..|digits| - 1];
    var last := digits[|digits| - 1..];
    assert digits == init + last;
    assert last == [digits[|digits| - 1]];
    if init == [] {
      assert Singletons(digits) == [last];
      assert Join([last]) == Join([]) + last;
    } else {
      assert IsDigitRun(init);
      DigitsOneByOne(init);
      assert Singletons(digits) == Singletons(init) + [last];
      PushedRunExtendsValue(Singletons(init), last);
      DigitsValueConcat(init, last);
    }
  }

  /** A digit run that does not start with 0 spells a positive number. */
  lemma {:induction false} LeadingNonZeroPositive(s: string)
    requires IsDigitRun(s) && IsNonZeroDigit(s[0])
    ensures DigitsValue(s) >= 1
    decreases |s|
  {
    var init := s[..|s| - 1];
    if init != [] {
      assert init[0] == s[0];
      assert IsDigitRun(init);
      LeadingNonZeroPositive(init);
    }
  }

  /** Count lists whose first run starts with a non-zero digit: the key dispatcher
      never pushes a run "0", and a count never starts with 0. */
  predicate StartsNonZero(runs: seq<string>) {
    runs != [] ==> runs[0] != [] && IsNonZeroDigit(runs[0][0])
  }

  lemma RunsValuePositive(runs: seq<string>)
    requires AllRuns(runs) && runs != [] && StartsNonZero(runs)
    ensures RunsValue(runs) >= 1
  {
    assert runs == [runs[0]] + runs[1..];
    JoinConcat([runs[0]], runs[1..]);
    assert Join([runs[0]]) == Join([]) + runs[0];
    JoinOfRuns(runs);
    var j := Join(runs);
    assert j[0] == runs[0][0];
    LeadingNonZeroPositive(j);
  }

  /** The one-character runs of `s`, in order. */
  function Singletons(s: string): (r: seq<string>)
    ensures |r| == |s|
    ensures forall i :: 0 <= i < |s| ==> r[i] == [s[i]]
  {
    if s == [] then [] else Singletons(s[..|s| - 1]) + [[s[|s| - 1]]]
  }

  class InputState {
    var prefixRepeat: seq<string>
    var motionRepeat: seq<string>
    var operator: Option<string>
    var motion: Option<string>
    var keyBuffer: string
    var registerName: Option<string>
    var selectedCharacter: Option<string>
    var repeatOverride: Option<int>
    var operatorShortcut: Option<string>

    /** Every pushed count fragment is a digit run. */
    predicate Valid()
      reads this
    {
      AllRuns(prefixRepeat) && AllRuns(motionRepeat)
    }

    /** `this.operator` is truthy. */
    predicate HasOperator()
      reads this
    {
      operator.Some? && operator.value != ""
    }

    constructor ()
      ensures Valid()
      ensures prefixRepeat == [] && motionRepeat == [] && keyBuffer == ""
      ensures operator.None? && motion.None? && registerName.None?
      ensures selectedCharacter.None? && repeatOverride.None? && operatorShortcut.None?
    {
      prefixRepeat, motionRepeat := [], [];
      operator, motion := None, None;
      keyBuffer := "";
      registerName, selectedCharacter := None, None;
      repeatOverride, operatorShortcut := None, None;
    }

    method PushRepeatDigit(n: string)
      requires Valid() && IsDigitRun(n)
      modifies this`prefixRepeat, this`motionRepeat
      ensures Valid()
      ensures !HasOperator() ==> prefixRepeat == old(prefixRepeat) + [n] && motionRepeat == old(motionRepeat)
      ensures HasOperator() ==> motionRepeat == old(motionRepeat) + [n] && prefixRepeat == old(prefixRepeat)
    {
      if !HasOperator() {
        prefixRepeat := prefixRepeat + [n];
        assert forall i :: 0 <= i < |prefixRepeat| - 1 ==> prefixRepeat[i] == old(prefixRepeat)[i];
      } else {
        motionRepeat := motionRepeat + [n];
        assert forall i :: 0 <= i < |motionRepeat| - 1 ==> motionRepeat[i] == old(motionRepeat)[i];
      }
    }

    /** `getRepeat()`: 0 means "no count was typed"; otherwise the product of the
        numbers spelled by the two lists, an empty list counting as 1. */
    function GetRepeat(): (r: nat)
      reads this
      requires Valid()
      ensures prefixRepeat == [] && motionRepeat == [] ==> r == 0
      ensures r == 0 ==>
        || (prefixRepeat == [] && motionRepeat == [])
        || (prefixRepeat != [] && RunsValue(prefixRepeat) == 0)
        || (motionRepeat != [] && RunsValue(motionRepeat) == 0)
      ensures prefixRepeat != [] && motionRepeat == [] ==> r == RunsValue(prefixRepeat)
      ensures prefixRepeat == [] && motionRepeat != [] ==> r == RunsValue(motionRepeat)
      ensures prefixRepeat != [] && motionRepeat != [] ==>
        r == RunsValue(prefixRepeat) * RunsValue(motionRepeat)
    {
      if prefixRepeat == [] && motionRepeat == [] then 0
      else
        var r := Factor(prefixRepeat) * Factor(motionRepeat);
        assert r == 0 ==> Factor(prefixRepeat) == 0 || Factor(motionRepeat) == 0;
        r
    }
  }

  /** With counts that do not start with 0, `getRepeat()` is 0 exactly when no count was typed. */
  lemma GetRepeatZeroIffNoCount(s: InputState)
    requires s.Valid() && StartsNonZero(s.prefixRepeat) && StartsNonZero(s.motionRepeat)
    ensures s.GetRepeat() == 0 <==> s.prefixRepeat == [] && s.motionRepeat == []
  {
    if s.prefixRepeat != [] { RunsValuePositive(s.prefixRepeat); }
    if s.motionRepeat != [] { RunsValuePositive(s.motionRepeat); }
  }
}
