/** The key-dispatch front end of vim-api.ts: `findKey` with its macro, `<Esc>`,
    insert-mode and normal-mode handlers and the mapping of handler results,
    `<…>` tokenisation for key-to-key mappings, `defineEx`, `noremap` and
    `mapclear`. The key-map matcher `commandDispatcher.matchCommand` is a
    parameter. */
module VimApis {
  import opened Common
  import opened KeyMaps
  import opened InputStates
  import opened MacroModeStates
  import opened ExCommandDispatchers
  import opened Globals
  import opened RegisterControllers
  import opened Types

  // ---------------------------------------------------------------------
  // The matcher and what the handlers decide

  datatype MatchResult = NoMatch | PartialMatch | FullMatch(command: KeyMapping)

  /** `commandDispatcher.matchCommand(keys, defaultKeymap, inputState, context)`,
      for the key map and input state of the call. */
  type Matcher = (string, Context) -> MatchResult

  /** What a handler decides for one key. */
  datatype Step =
    | StopRecording                         // `q` while recording: recording ends, input is cleared
    | LeaveMode(visual: bool)               // `<Esc>`: visual (or else insert) mode ends, input is cleared
    | Buffer(keys: string, handled: bool)   // the keys wait in the buffer
    | Reject                                // input is cleared
    | Accept(command: KeyMapping, repeat: Option<string>, erase: Option<int>)

  /** The handler's return value: `false`, `true` or a command. */
  datatype HandlerValue = HFalse | HTrue | HCommand(command: KeyMapping)

  /** What `findKey` hands back: `undefined`, a no-op that reports the key handled,
      or a function running the command. */
  datatype KeyResult = Unhandled | Handled | Execute(command: KeyMapping)

  function HandlerOf(step: Step): HandlerValue {
    match step
    case StopRecording => HTrue
    case LeaveMode(_) => HTrue
    case Buffer(_, handled) => if handled then HTrue else HFalse
    case Reject => HFalse
    case Accept(c, _, _) => HCommand(c)
  }

  /** The result mapping at the end of `findKey`, given the mode after the handler. */
  function ResultOf(h: HandlerValue, insertMode: bool, key: string): KeyResult {
    match h
    case HFalse => if !insertMode && |key| == 1 then Handled else Unhandled
    case HTrue => Handled
    case HCommand(c) => Execute(c)
  }

  // ---------------------------------------------------------------------
  // Normal and visual mode

  /** `/^[1-9]\d*$/` */
  predicate IsCount(keys: string) {
    keys != [] && IsNonZeroDigit(keys[0]) && AllDigits(keys)
  }

  predicate HasLineTerminator(s: string) {
    exists i :: 0 <= i < |s| && IsLineTerminator(s[i])
  }

  /** Group 1 of `/^(\d*)(.*)$/`: the leading digits. */
  function DigitPrefix(keys: string): (d: string)
    ensures AllDigits(d) && StartsWith(keys, d)
    ensures |d| == |keys| || !IsDigit(keys[|d|])
  {
    keys[..PrefixRun(keys, IsDigit)]
  }

  /** `keysMatcher[2] || keysMatcher[1]`: what follows the count, or the count
      itself when nothing follows. */
  function MainKey(keys: string): string {
    var d := DigitPrefix(keys);
    if keys[|d|..] != "" then keys[|d|..] else d
  }

  /** A pending operator shortcut whose last character is the main key replaces it. */
  predicate ShortcutApplies(shortcut: Option<string>, mainKey: string) {
    shortcut.Some? && shortcut.value != "" && [shortcut.value[|shortcut.value| - 1]] == mainKey
  }

  function LookupKey(keys: string, shortcut: Option<string>): string {
    if ShortcutApplies(shortcut, MainKey(keys)) then shortcut.value else MainKey(keys)
  }

  /** The count pushed on a full match: the leading digits, unless empty or `0`. */
  function RepeatOf(keys: string): Option<string> {
    var d := DigitPrefix(keys);
    if d != "" && d != "0" then Some(d) else None
  }

  function Resolve(m: MatchResult, keys: string): Step {
    match m
    case NoMatch => Reject
    case PartialMatch => Buffer(keys, true)
    case FullMatch(c) => Accept(c, RepeatOf(keys), None)
  }

  /** `handleKeyNonInsertMode` for `key` with the buffered keys `buffer`. */
  function NonInsertSpec(recording: bool, visual: bool, buffer: string, shortcut: Option<string>,
                         key: string, matcher: Matcher): (r: Step)
    ensures r == StopRecording <==> recording && key == "q"
    ensures r.Buffer? ==> r.keys == buffer + key && r.handled
    ensures r.Accept? ==> r.erase.None?
  {
    if recording && key == "q" then StopRecording
    else if key == "<Esc>" && visual then LeaveMode(true)
    else
      var keys := buffer + key;
      if IsCount(keys) then Buffer(keys, true)
      else if HasLineTerminator(keys) then Reject
      else Resolve(matcher(LookupKey(keys, shortcut), if visual then Visual else Normal), keys)
  }

  /** `logKey` is called while recording for every key but `q`, unless the key came
      from a mapping. */
  predicate Logs(recording: bool, key: string, fromMapping: bool) {
    recording && key != "q" && !fromMapping
  }

  // ---------------------------------------------------------------------
  // Insert mode

  /** The insert-mode loop from start index `i` of `all`, `kept` being the match
      kept so far: the final start index and match. */
  function ShrinkFrom(all: string, i: nat, kept: MatchResult, matcher: Matcher): (r: (nat, MatchResult))
    requires i <= |all|
    ensures i <= r.0 <= |all|
    decreases |all| - i
  {
    if |all| - i > 1 && !kept.FullMatch? then
      var t := matcher(all[i + 1..], Insert);
      ShrinkFrom(all, i + 1, if t.NoMatch? then kept else t, matcher)
    else (i, kept)
  }

  /** No suffix starting after `lo` and up to `hi` matches at all. */
  predicate NoneBetween(all: string, lo: nat, hi: nat, matcher: Matcher)
    requires hi <= |all|
  {
    forall j :: lo < j <= hi ==> matcher(all[j..], Insert).NoMatch?
  }

  lemma {:induction false} ShrinkFromFacts(all: string, i: nat, kept: MatchResult, matcher: Matcher)
    requires i <= |all|
    ensures var r := ShrinkFrom(all, i, kept, matcher);
      && (|all| - r.0 <= 1 || r.1.FullMatch?)
      && (r.0 > i ==> !kept.FullMatch?)
      && (forall j :: i < j < r.0 ==> !matcher(all[j..], Insert).FullMatch?)
      && ((r.1 == kept && NoneBetween(all, i, r.0, matcher))
          || exists k :: i < k <= r.0 && !r.1.NoMatch? && r.1 == matcher(all[k..], Insert) && NoneBetween(all, k, r.0, matcher))
    decreases |all| - i
  {
    if |all| - i > 1 && !kept.FullMatch? {
      var t := matcher(all[i + 1..], Insert);
      var kept' := if t.NoMatch? then kept else t;
      ShrinkFromFacts(all, i + 1, kept', matcher);
      var r := ShrinkFrom(all, i + 1, kept', matcher);
      assert r == ShrinkFrom(all, i, kept, matcher);
      if r.0 > i + 1 {
        assert !t.FullMatch?;
      }
      if r.1 == kept' && NoneBetween(all, i + 1, r.0, matcher) {
        if t.NoMatch? {
          assert NoneBetween(all, i, r.0, matcher);
        } else {
          assert i < i + 1 <= r.0 && r.1 == matcher(all[i + 1..], Insert);
        }
      }
    }
  }

  /** The insert-mode loop of `handleKeyInsertMode` over `all`, the buffer with the
      key appended: it ends at the first suffix that matches in full, or at the last
      character; no longer suffix matched in full; and the match kept is the one of
      the last suffix that matched at all, or nothing when none did. */
  lemma InsertShrink(all: string, matcher: Matcher)
    ensures var r := ShrinkFrom(all, 0, matcher(all, Insert), matcher);
      && (|all| - r.0 <= 1 || r.1.FullMatch?)
      && (forall j :: 0 <= j < r.0 ==> !matcher(all[j..], Insert).FullMatch?)
      && (r.1.NoMatch? <==> forall j :: 0 <= j <= r.0 ==> matcher(all[j..], Insert).NoMatch?)
      && (!r.1.NoMatch? ==> exists k :: 0 <= k <= r.0 && r.1 == matcher(all[k..], Insert) && NoneBetween(all, k, r.0, matcher))
  {
    var kept := matcher(all, Insert);
    assert all[0..] == all;
    ShrinkFromFacts(all, 0, kept, matcher);
    var r := ShrinkFrom(all, 0, kept, matcher);
    if r.0 > 0 {
      assert !matcher(all[0..], Insert).FullMatch?;
    }
    if r.1.NoMatch? && r.1 == kept && NoneBetween(all, 0, r.0, matcher) {
      assert forall j :: 0 <= j <= r.0 ==> matcher(all[j..], Insert).NoMatch?;
    }
    if forall j :: 0 <= j <= r.0 ==> matcher(all[j..], Insert).NoMatch? {
      assert kept.NoMatch?;
    }
  }

  /** `handleKeyInsertMode` for `key` with the buffered keys `buffer`. */
  function InsertSpec(visual: bool, buffer: string, key: string, matcher: Matcher): (r: Step)
    ensures r.LeaveMode? <==> key == "<Esc>"
    ensures r != StopRecording
    ensures r.Buffer? ==> |r.keys| <= |buffer + key| && r.keys == (buffer + key)[|buffer + key| - |r.keys|..]
    ensures r.Buffer? ==> (r.handled <==> |key| != 1)
    ensures r.Accept? ==> r.repeat.None?
  {
    if key == "<Esc>" then LeaveMode(visual)
    else
      var all := buffer + key;
      var r := ShrinkFrom(all, 0, matcher(all, Insert), matcher);
      var keys := all[r.0..];
      match r.1
      case NoMatch => Reject
      case PartialMatch => Buffer(keys, |key| != 1)
      case FullMatch(c) => Accept(c, None, if |key| == 1 then Some(|keys| - 1) else None)
  }

  /** What an insert-mode key leaves: the keys kept waiting are a suffix of the
      buffer with the key appended, and a character waiting on a partial match is
      passed on to the editor. */
  lemma InsertKeepsSuffix(visual: bool, buffer: string, key: string, matcher: Matcher)
    ensures var step := InsertSpec(visual, buffer, key, matcher);
      && (step.Buffer? ==> |step.keys| <= |buffer + key| && step.keys == (buffer + key)[|buffer + key| - |step.keys|..])
      && (step.Buffer? ==> (step.handled <==> |key| != 1))
      && (step.Accept? && |key| == 1 ==> step.erase.Some? && 0 <= step.erase.value + 1 <= |buffer + key|)
  {
  }

  /** The handler `findKey` runs in the given mode. */
  function StepSpec(insertMode: bool, recording: bool, visual: bool, buffer: string, shortcut: Option<string>,
                    key: string, matcher: Matcher): Step
  {
    if insertMode then InsertSpec(visual, buffer, key, matcher)
    else NonInsertSpec(recording, visual, buffer, shortcut, key, matcher)
  }

  /** Whether insert mode holds after the handler: only `<Esc>` outside visual mode ends it. */
  function InsertAfter(insertMode: bool, step: Step): bool {
    insertMode && step != LeaveMode(false)
  }

  /** `findKey(adapter, key, origin)`: its result. */
  function FindKeySpec(insertMode: bool, recording: bool, visual: bool, buffer: string, shortcut: Option<string>,
                       key: string, matcher: Matcher): (r: KeyResult)
    ensures r.Execute? <==> StepSpec(insertMode, recording, visual, buffer, shortcut, key, matcher).Accept?
    ensures r.Execute? ==> r.command == StepSpec(insertMode, recording, visual, buffer, shortcut, key, matcher).command
  {
    var step := StepSpec(insertMode, recording, visual, buffer, shortcut, key, matcher);
    ResultOf(HandlerOf(step), InsertAfter(insertMode, step), key)
  }

  // ---------------------------------------------------------------------
  // Properties of key handling

  /** Outside insert mode a buffer that spells a count is kept and reported handled
      without consulting the matcher. */
  lemma CountIsBuffered(recording: bool, visual: bool, buffer: string, shortcut: Option<string>, key: string,
                        m1: Matcher, m2: Matcher)
    requires !(recording && key == "q") && !(key == "<Esc>" && visual)
    requires IsCount(buffer + key)
    ensures NonInsertSpec(recording, visual, buffer, shortcut, key, m1) == Buffer(buffer + key, true)
    ensures NonInsertSpec(recording, visual, buffer, shortcut, key, m1) == NonInsertSpec(recording, visual, buffer, shortcut, key, m2)
  {
  }

  /** When a pending operator shortcut ends in the main key, the matcher is asked
      about the whole shortcut, and otherwise about the main key. */
  lemma ShortcutTakesOver(recording: bool, visual: bool, buffer: string, shortcut: Option<string>, key: string,
                          matcher: Matcher)
    requires !(recording && key == "q") && !(key == "<Esc>" && visual)
    requires !IsCount(buffer + key) && !HasLineTerminator(buffer + key)
    ensures var keys := buffer + key;
      var ctx := if visual then Visual else Normal;
      && (ShortcutApplies(shortcut, MainKey(keys)) ==>
            NonInsertSpec(recording, visual, buffer, shortcut, key, matcher) == Resolve(matcher(shortcut.value, ctx), keys))
      && (!ShortcutApplies(shortcut, MainKey(keys)) ==>
            NonInsertSpec(recording, visual, buffer, shortcut, key, matcher) == Resolve(matcher(MainKey(keys), ctx), keys))
  {
  }

  /** A full match outside insert mode pushes the leading count exactly when it is
      neither empty nor `0`, and the keys are the count followed by what was matched. */
  lemma FullMatchRepeat(recording: bool, visual: bool, buffer: string, shortcut: Option<string>, key: string,
                        matcher: Matcher)
    ensures var step := NonInsertSpec(recording, visual, buffer, shortcut, key, matcher);
      var d := DigitPrefix(buffer + key);
      step.Accept? ==>
        && (step.repeat.Some? <==> d != "" && d != "0")
        && (step.repeat.Some? ==> step.repeat.value == d && IsDigitRun(d))
        && buffer + key == d + (buffer + key)[|d|..]
        && step.erase.None?
  {
    var keys := buffer + key;
    var d := DigitPrefix(keys);
    assert keys == d + keys[|d|..];
  }

  /** A count before a command: `2` then `d` with `d` mapped resolves the command and
      pushes `2`; a lone `0` mapped to a command pushes no count. */
  lemma CountThenCommand(c: KeyMapping, matcher: Matcher)
    requires matcher("d", Normal) == FullMatch(c) && matcher("0", Normal) == FullMatch(c)
    ensures NonInsertSpec(false, false, "2", None, "d", matcher) == Accept(c, Some("2"), None)
    ensures NonInsertSpec(false, false, "", None, "0", matcher) == Accept(c, None, None)
  {
    var keys := "2" + "d";
    assert keys == "2d";
    assert PrefixRun("2d", IsDigit) == 1 by { assert "2d"[1..] == "d"; }
    assert "2d"[..1] == "2" && "2d"[1..] == "d";
    assert !HasLineTerminator("2d") by {
      forall i | 0 <= i < 2 ensures !IsLineTerminator("2d"[i]) { }
    }
    assert "" + "0" == "0";
    assert PrefixRun("0", IsDigit) == 1 by { assert "0"[1..] == ""; }
    assert "0"[..1] == "0" && "0"[1..] == "";
    assert !HasLineTerminator("0") by { assert !IsLineTerminator("0"[0]); }
  }

  /** `q` while recording stops recording whatever the mode and the matcher;
      `<Esc>` ends visual or insert mode; in normal mode `<Esc>` is looked up. */
  lemma MacroAndEscape(visual: bool, buffer: string, shortcut: Option<string>, matcher: Matcher)
    ensures NonInsertSpec(true, visual, buffer, shortcut, "q", matcher) == StopRecording
    ensures visual ==> NonInsertSpec(false, visual, buffer, shortcut, "<Esc>", matcher) == LeaveMode(true)
    ensures InsertSpec(visual, buffer, "<Esc>", matcher) == LeaveMode(visual)
    ensures NonInsertSpec(false, false, "", None, "<Esc>", matcher) == Resolve(matcher("<Esc>", Normal), "<Esc>")
  {
    var k := "<Esc>";
    assert "" + k == k;
    assert !IsCount(k) by { assert !IsNonZeroDigit(k[0]); }
    assert !HasLineTerminator(k) by {
      forall i | 0 <= i < |k| ensures !IsLineTerminator(k[i]) { }
    }
    assert PrefixRun(k, IsDigit) == 0;
    assert k[0..] == k;
  }

  /** A key that nothing matches is swallowed outside insert mode when it is a
      single character, and reaches the editor in insert mode. */
  lemma UnmatchedKeys(buffer: string, key: string, matcher: Matcher)
    requires |key| == 1 && key != "q"
    requires forall s :: matcher(s, Insert) == NoMatch
    requires NonInsertSpec(false, false, buffer, None, key, matcher) == Reject
    ensures FindKeySpec(false, false, false, buffer, None, key, matcher) == Handled
    ensures FindKeySpec(true, false, false, buffer, None, key, matcher) == Unhandled
  {
    InsertShrink(buffer + key, matcher);
  }

  /** `findKey` reports a key unhandled exactly when the handler returned `false` and
      insert mode holds afterwards or the key is not a single character. */
  lemma UnhandledWhen(insertMode: bool, recording: bool, visual: bool, buffer: string, shortcut: Option<string>,
                      key: string, matcher: Matcher)
    ensures var step := StepSpec(insertMode, recording, visual, buffer, shortcut, key, matcher);
      FindKeySpec(insertMode, recording, visual, buffer, shortcut, key, matcher) == Unhandled <==>
        (HandlerOf(step) == HFalse && (InsertAfter(insertMode, step) || |key| != 1))
  {
  }

  // ---------------------------------------------------------------------
  // Key-to-key mappings

  /** The first index from `k` on that holds no line break: where `exec` of the
      token pattern starts to match, since none of its alternatives matches a line
      break. */
  function BreaksEnd(s: string, k: nat): (r: nat)
    requires k <= |s|
    ensures k <= r <= |s|
    ensures forall i :: k <= i < r ==> IsLineTerminator(s[i])
    ensures r < |s| ==> !IsLineTerminator(s[r])
    decreases |s| - k
  {
    if k == |s| || !IsLineTerminator(s[k]) then k else BreaksEnd(s, k + 1)
  }

  /** `\w*` from index `k` on: where the run of word characters ends. */
  function WordEnd(s: string, k: nat): (r: nat)
    requires k <= |s|
    ensures k <= r <= |s|
    ensures r < |s| ==> !IsWordChar(s[r])
    decreases |s| - k
  {
    if k == |s| || !IsWordChar(s[k]) then k else WordEnd(s, k + 1)
  }

  /** `.+?>` from index `k` on, past its first character: the index after the `>`. */
  function CloseFrom(s: string, k: nat): (r: Option<nat>)
    ensures r.Some? ==> k < r.value <= |s| && s[r.value - 1] == '>'
    decreases |s| - k
  {
    if k >= |s| then None
    else if s[k] == '>' then Some(k + 1)
    else if IsLineTerminator(s[k]) then None
    else CloseFrom(s, k + 1)
  }

  /** `<\w+-.+?>` at index `k`: the index after it. `\w` excludes `-`, so the word
      run cannot give back characters to reach a `-`. */
  function DashKeyAt(s: string, k: nat): (r: Option<nat>)
    requires k < |s|
    ensures r.Some? ==> k + 4 <= r.value <= |s| && s[k] == '<' && s[r.value - 1] == '>'
  {
    if s[k] != '<' then None
    else
      var w := WordEnd(s, k + 1);
      if w == k + 1 || w + 1 >= |s| || s[w] != '-' || IsLineTerminator(s[w + 1]) then None
      else CloseFrom(s, w + 2)
  }

  /** `<\w+>` at index `k`: the index after it. */
  function NamedKeyAt(s: string, k: nat): (r: Option<nat>)
    requires k < |s|
    ensures r.Some? ==> k + 3 <= r.value <= |s| && s[k] == '<' && s[r.value - 1] == '>'
  {
    if s[k] != '<' then None
    else
      var w := WordEnd(s, k + 1);
      if w == k + 1 || w >= |s| || s[w] != '>' then None
      else Some(w + 1)
  }

  /** Where the match of `/<\w+-.+?>|<\w+>|./` at index `k` ends. */
  function TokenEnd(s: string, k: nat): (e: nat)
    requires k < |s| && !IsLineTerminator(s[k])
    ensures k < e <= |s|
    ensures e > k + 1 ==> s[k] == '<' && s[e - 1] == '>'
  {
    if DashKeyAt(s, k).Some? then DashKeyAt(s, k).value
    else if NamedKeyAt(s, k).Some? then NamedKeyAt(s, k).value
    else k + 1
  }

  /** The keys `doKeyToKey` hands to `handleKey`, and whether it then throws (no
      match is left, only line terminators). */
  datatype Fed = Fed(tokens: seq<string>, failed: bool)

  /** The tokens of `s` from index `k` on: `exec` finds the first index where a
      token starts, and the rest of the keys follows the token. */
  function TokensFrom(s: string, k: nat): (r: Fed)
    requires k <= |s|
    ensures forall i :: 0 <= i < |r.tokens| ==> r.tokens[i] != ""
    decreases |s| - k
  {
    if k == |s| then Fed([], false)
    else if BreaksEnd(s, k) == |s| then Fed([], true)
    else
      var b := BreaksEnd(s, k);
      var e := TokenEnd(s, b);
      Fed([s[b..e]] + TokensFrom(s, e).tokens, TokensFrom(s, e).failed)
  }

  /** `doKeyToKey(keys)` */
  function Tokenize(keys: string): (r: Fed)
    ensures forall i :: 0 <= i < |r.tokens| ==> r.tokens[i] != ""
    ensures keys == "" ==> r == Fed([], false)
  {
    TokensFrom(keys, 0)
  }

  /** One token from index `k`: it starts after the line breaks and ends at
      `TokenEnd`. */
  lemma TokensStep(s: string, k: nat, b: nat, e: nat)
    requires k < |s| && b == BreaksEnd(s, k) < |s| && e == TokenEnd(s, b)
    ensures TokensFrom(s, k) == Fed([s[b..e]] + TokensFrom(s, e).tokens, TokensFrom(s, e).failed)
  {
  }

  /** One turn of the `doKeyToKey` loop keeps the tokens still to come in step. */
  lemma TokensAdvance(keys: string, tokens: seq<string>, k: nat, b: nat, e: nat)
    requires k < |keys| && Tokenize(keys) == Fed(tokens + TokensFrom(keys, k).tokens, TokensFrom(keys, k).failed)
    requires b == BreaksEnd(keys, k) < |keys| && e == TokenEnd(keys, b)
    ensures Tokenize(keys) == Fed((tokens + [keys[b..e]]) + TokensFrom(keys, e).tokens, TokensFrom(keys, e).failed)
  {
    var after := TokensFrom(keys, e);
    calc {
      Tokenize(keys);
      Fed(tokens + TokensFrom(keys, k).tokens, TokensFrom(keys, k).failed);
      { TokensStep(keys, k, b, e); }
      Fed(tokens + ([keys[b..e]] + after.tokens), after.failed);
      { assert tokens + ([keys[b..e]] + after.tokens) == (tokens + [keys[b..e]]) + after.tokens; }
      Fed((tokens + [keys[b..e]]) + after.tokens, after.failed);
    }
  }

  /** A token is one character or a `<…>` name. */
  predicate IsToken(t: string) {
    |t| == 1 || (|t| > 1 && t[0] == '<' && t[|t| - 1] == '>')
  }

  predicate AllTokens(ts: seq<string>) {
    forall k :: 0 <= k < |ts| ==> IsToken(ts[k])
  }

  lemma AllTokensCons(t: string, ts: seq<string>)
    requires IsToken(t) && AllTokens(ts)
    ensures AllTokens([t] + ts)
  {
    forall k | 0 <= k < |[t] + ts| ensures IsToken(([t] + ts)[k]) {
      if k > 0 {
        assert ([t] + ts)[k] == ts[k - 1];
      }
    }
  }

  /** Keys without line breaks: `.` matches each of their characters. */
  predicate NoBreaks(s: string) {
    forall i :: 0 <= i < |s| ==> !IsLineTerminator(s[i])
  }

  lemma JoinCons(x: string, ts: seq<string>)
    ensures Join([x] + ts) == x + Join(ts)
  {
    JoinConcat([x], ts);
    assert [x][..0] == [];
  }

  /** For keys without line breaks nothing throws, and the tokens joined back give
      the keys from `k` on. */
  lemma {:induction false} TokensRebuildFrom(s: string, k: nat)
    requires k <= |s| && NoBreaks(s)
    ensures !TokensFrom(s, k).failed
    ensures Join(TokensFrom(s, k).tokens) == s[k..]
    decreases |s| - k
  {
    if k < |s| {
      assert BreaksEnd(s, k) == k;
      var e := TokenEnd(s, k);
      TokensRebuildFrom(s, e);
      calc {
        Join(TokensFrom(s, k).tokens);
        { TokensStep(s, k, k, e); }
        Join([s[k..e]] + TokensFrom(s, e).tokens);
        { JoinCons(s[k..e], TokensFrom(s, e).tokens); }
        s[k..e] + Join(TokensFrom(s, e).tokens);
        s[k..e] + s[e..];
        { assert s[k..e] + s[e..] == s[k..]; }
        s[k..];
      }
      TokensStep(s, k, k, e);
    }
  }

  /** For keys without line breaks nothing throws, and the tokens joined back give
      the keys. */
  lemma TokensRebuildKeys(keys: string)
    requires NoBreaks(keys)
    ensures !Tokenize(keys).failed
    ensures Join(Tokenize(keys).tokens) == keys
  {
    TokensRebuildFrom(keys, 0);
    assert keys[0..] == keys;
  }

  /** Every token fed from index `k` on is one character or a `<…>` name. */
  lemma {:induction false} TokensAreKeysFrom(s: string, k: nat)
    requires k <= |s|
    ensures AllTokens(TokensFrom(s, k).tokens)
    decreases |s| - k
  {
    if k < |s| {
      var b := BreaksEnd(s, k);
      if b < |s| {
        var e := TokenEnd(s, b);
        TokensAreKeysFrom(s, e);
        calc {
          AllTokens(TokensFrom(s, k).tokens);
          { TokensStep(s, k, b, e); }
          AllTokens([s[b..e]] + TokensFrom(s, e).tokens);
          { assert IsToken(s[b..e]); AllTokensCons(s[b..e], TokensFrom(s, e).tokens); }
          true;
        }
      }
    }
  }

  /** Every token fed is one character or a `<…>` name. */
  lemma TokensAreKeys(keys: string)
    ensures AllTokens(Tokenize(keys).tokens)
  {
    TokensAreKeysFrom(keys, 0);
  }

  lemma {:induction false} AllBreaks(s: string, k: nat)
    requires k <= |s|
    requires forall i :: k <= i < |s| ==> IsLineTerminator(s[i])
    ensures BreaksEnd(s, k) == |s|
    decreases |s| - k
  {
    if k < |s| {
      AllBreaks(s, k + 1);
    }
  }

  /** Keys made only of line breaks feed nothing and throw. */
  lemma LineBreaksThrow(keys: string)
    requires keys != [] && forall i :: 0 <= i < |keys| ==> IsLineTerminator(keys[i])
    ensures Tokenize(keys) == Fed([], true)
  {
    AllBreaks(keys, 0);
  }

  /** `<C-w>x` is fed as `<C-w>` then `x`. */
  lemma ControlKeyToken()
    ensures Tokenize("<C-w>x") == Fed(["<C-w>", "x"], false)
  {
    var s := "<C-w>x";
    assert BreaksEnd(s, 0) == 0;
    assert DashKeyAt(s, 0) == Some(5) by {
      assert WordEnd(s, 2) == 2;
      assert WordEnd(s, 1) == 2;
      assert CloseFrom(s, 4) == Some(5);
    }
    assert TokenEnd(s, 0) == 5;
    assert TokensFrom(s, 5) == Fed(["x"], false) by {
      assert BreaksEnd(s, 5) == 5;
      assert TokenEnd(s, 5) == 6;
      TokensStep(s, 5, 5, 6);
      assert s[5..6] == "x";
    }
    TokensStep(s, 0, 0, 5);
    assert s[0..5] == "<C-w>";
  }

  // ---------------------------------------------------------------------
  // defineEx

  /** The command-map entry `defineEx` stores. */
  function ApiCommand(name: string, prefix: string): ExCommand {
    ExCommand(name, Some(Api), Some(prefix), false, false, None, None, false)
  }

  /** `defineEx(name, prefix, func)`: the result and the new command map. */
  function DefineExSpec(cm: map<string, ExCommand>, name: string, prefix: string): (r: (Result<()>, map<string, ExCommand>))
    ensures r.0.Ok? <==> prefix == "" || StartsWith(name, prefix)
    ensures r.0.Err? ==> r.1 == cm
  {
    if prefix == "" then (Ok(()), cm[name := ApiCommand(name, name)])
    else if !StartsWith(name, prefix) then
      (Err("(Vim.defineEx) \"" + prefix + "\" is not a prefix of \"" + name + "\", command not registered"), cm)
    else (Ok(()), cm[prefix := ApiCommand(name, prefix)])
  }

  /** `defineEx` succeeds exactly when the prefix is empty or starts the name; the
      command is then stored under the prefix (the name when empty), and typing
      that prefix resolves to it. A rejected definition changes nothing. */
  lemma DefineExRegisters(cm: map<string, ExCommand>, name: string, prefix: string)
    ensures var (r, cm') := DefineExSpec(cm, name, prefix);
      var key := if prefix == "" then name else prefix;
      && (r.Ok? <==> prefix == "" || StartsWith(name, prefix))
      && (r.Ok? ==> cm'.Keys == cm.Keys + {key} && cm'[key] == ApiCommand(name, key)
                    && forall k :: k in cm && k != key ==> cm'[k] == cm[k])
      && (r.Ok? && key != "" ==> MatchCommandSpec(cm', key) == Some(ApiCommand(name, key)))
      && (r.Err? ==> cm' == cm)
  {
    var (r, cm') := DefineExSpec(cm, name, prefix);
    var key := if prefix == "" then name else prefix;
    if r.Ok? && key != "" {
      assert key[..|key|] == key;
      assert StartsWith(name, key);
      assert Qualifies(cm', key, |key|);
    }
  }

  // ---------------------------------------------------------------------
  // noremap

  /** `entries` is still at the back of `r`, behind what was put in front. */
  predicate KeptBehind(r: seq<KeyMapping>, entries: seq<KeyMapping>) {
    |entries| <= |r| && r[|r| - |entries|..] == entries
  }

  /** `toCtxArray(ctx)` */
  function ToCtxArray(ctx: Option<Context>): seq<Context> {
    if ctx.Some? then [ctx.value] else [Normal, Insert, Visual]
  }

  /** `ctxs.filter(el => mapped.indexOf(el) === -1)` */
  function Unmapped(ctxs: seq<Context>, mapped: seq<Context>): (r: seq<Context>)
    ensures forall c :: c in r <==> c in ctxs && c !in mapped
    ensures |r| <= |ctxs|
  {
    if ctxs == [] then []
    else (if ctxs[0] in mapped then [] else [ctxs[0]]) + Unmapped(ctxs[1..], mapped)
  }

  /** An entry `noremap` copies: the right keys, a fitting mode, and neither an Ex
      nor a key mapping. */
  predicate Candidate(m: KeyMapping, rhs: string, ctx: Option<Context>) {
    m.keys == rhs && (ctx.None? || m.context.None? || m.context == ctx) && !IsExType(m.kind) && !IsKeyType(m.kind)
  }

  /** The copy under the new keys, put in the requested mode when it had none. */
  function Retarget(m: KeyMapping, lhs: string, ctx: Option<Context>): KeyMapping {
    m.(keys := lhs, context := if ctx.Some? && m.context.None? then ctx else m.context)
  }

  /** The `noremap` loop as written, at index `i` of the live key map: each copy is
      put in front, so the entry just copied moves to `i + 1`, where it is read again. */
  function NoremapLoop(entries: seq<KeyMapping>, i: int, end: int, ctxs: seq<Context>,
                       lhs: string, rhs: string, ctx: Option<Context>): (r: Result<seq<KeyMapping>>)
    ensures r.Ok? ==> KeptBehind(r.value, entries)
    decreases end - i
  {
    if !(i < end && ctxs != []) then Ok(entries)
    else if i < 0 || i >= |entries| then Err("TypeError")
    else
      var m := entries[i];
      if Candidate(m, rhs, ctx) then
        NoremapLoop([Retarget(m, lhs, ctx)] + entries, i + 1, end, Unmapped(ctxs, ToCtxArray(m.context)), lhs, rhs, ctx)
      else NoremapLoop(entries, i + 1, end, ctxs, lhs, rhs, ctx)
  }

  /** `noremap(lhs, rhs, ctx)` as written: the scan starts at `actualLength -
      origLength`, which is negative, and reading there throws, once entries were
      removed from the defaults. */
  function NoremapAsWritten(entries: seq<KeyMapping>, defaultLength: nat, lhs: string, rhs: string,
                            ctx: Option<Context>): (r: Result<seq<KeyMapping>>)
    ensures r.Ok? ==> KeptBehind(r.value, entries)
  {
    NoremapLoop(entries, |entries| - defaultLength, |entries|, ToCtxArray(ctx), lhs, rhs, ctx)
  }

  /** Where the defaults start: after the user entries in front. */
  function DefaultsStart(entries: seq<KeyMapping>, defaultLength: nat): nat {
    if |entries| > defaultLength then |entries| - defaultLength else 0
  }

  /** The copies made from the default entries `ds` from `i` on while modes are
      left, in the order they end up: each later copy goes in front. */
  function AddedFrom(ds: seq<KeyMapping>, i: nat, ctxs: seq<Context>, lhs: string, rhs: string,
                     ctx: Option<Context>): seq<KeyMapping>
    requires i <= |ds|
    decreases |ds| - i
  {
    if i == |ds| || ctxs == [] then []
    else if Candidate(ds[i], rhs, ctx) then
      AddedFrom(ds, i + 1, Unmapped(ctxs, ToCtxArray(ds[i].context)), lhs, rhs, ctx) + [Retarget(ds[i], lhs, ctx)]
    else AddedFrom(ds, i + 1, ctxs, lhs, rhs, ctx)
  }

  /** `noremap` as intended: every default entry is looked at once, in order, and
      the copies go in front of the key map. */
  function NoremapSpec(entries: seq<KeyMapping>, defaultLength: nat, lhs: string, rhs: string,
                       ctx: Option<Context>): (r: seq<KeyMapping>)
    ensures KeptBehind(r, entries)
  {
    var ds := entries[DefaultsStart(entries, defaultLength)..];
    AddedFrom(ds, 0, ToCtxArray(ctx), lhs, rhs, ctx) + entries
  }

  /** A copy put in front of the key map lands behind the copies still to come. */
  lemma CopyInFront(later: seq<KeyMapping>, copy: KeyMapping, entries: seq<KeyMapping>)
    ensures (later + [copy]) + entries == later + ([copy] + entries)
  {
  }

  /** `m` is the copy of an entry of `ds` from `lo` on that `noremap` may copy. */
  predicate IsCopy(m: KeyMapping, ds: seq<KeyMapping>, lo: nat, lhs: string, rhs: string, ctx: Option<Context>) {
    exists j :: lo <= j < |ds| && Candidate(ds[j], rhs, ctx) && m == Retarget(ds[j], lhs, ctx)
  }

  lemma {:induction false} AddedAreCopies(ds: seq<KeyMapping>, i: nat, ctxs: seq<Context>, lhs: string, rhs: string,
                                          ctx: Option<Context>)
    requires i <= |ds|
    ensures |AddedFrom(ds, i, ctxs, lhs, rhs, ctx)| <= |ds| - i
    ensures forall k :: 0 <= k < |AddedFrom(ds, i, ctxs, lhs, rhs, ctx)| ==>
      IsCopy(AddedFrom(ds, i, ctxs, lhs, rhs, ctx)[k], ds, i, lhs, rhs, ctx)
    decreases |ds| - i
  {
    if i < |ds| && ctxs != [] {
      var next := if Candidate(ds[i], rhs, ctx) then Unmapped(ctxs, ToCtxArray(ds[i].context)) else ctxs;
      AddedAreCopies(ds, i + 1, next, lhs, rhs, ctx);
    }
  }

  /** `noremap` keeps the key map behind the copies it puts in front; each copy is a
      default entry with the right keys under the new keys, and with a mode given
      every copy is in that mode. */
  lemma NoremapCopies(entries: seq<KeyMapping>, defaultLength: nat, lhs: string, rhs: string, ctx: Option<Context>)
    ensures var r := NoremapSpec(entries, defaultLength, lhs, rhs, ctx);
      var n := |r| - |entries|;
      && |r| >= |entries| && r[n..] == entries
      && forall k :: 0 <= k < n ==>
           && r[k].keys == lhs
           && (ctx.Some? ==> r[k].context == ctx)
           && IsCopy(r[k], entries, DefaultsStart(entries, defaultLength), lhs, rhs, ctx)
  {
    var start := DefaultsStart(entries, defaultLength);
    var ds := entries[start..];
    AddedAreCopies(ds, 0, ToCtxArray(ctx), lhs, rhs, ctx);
    var added := AddedFrom(ds, 0, ToCtxArray(ctx), lhs, rhs, ctx);
    var r := NoremapSpec(entries, defaultLength, lhs, rhs, ctx);
    assert r == added + entries;
    assert |r| - |entries| == |added| && r[|added|..] == entries;
    forall k | 0 <= k < |added|
      ensures && r[k].keys == lhs
              && (ctx.Some? ==> r[k].context == ctx)
              && IsCopy(r[k], entries, start, lhs, rhs, ctx)
    {
      CopyFromDefaults(entries, start, added, k, lhs, rhs, ctx);
    }
  }

  /** Copy `k` in front of the key map is the retargeted copy of a default entry. */
  lemma CopyFromDefaults(entries: seq<KeyMapping>, start: nat, added: seq<KeyMapping>, k: nat,
                         lhs: string, rhs: string, ctx: Option<Context>)
    requires start <= |entries| && k < |added| && IsCopy(added[k], entries[start..], 0, lhs, rhs, ctx)
    ensures var r := added + entries;
      && r[k].keys == lhs
      && (ctx.Some? ==> r[k].context == ctx)
      && IsCopy(r[k], entries, start, lhs, rhs, ctx)
  {
    var ds := entries[start..];
    var j :| 0 <= j < |ds| && Candidate(ds[j], rhs, ctx) && added[k] == Retarget(ds[j], lhs, ctx);
    assert ds[j] == entries[start + j];
    assert (added + entries)[k] == added[k];
  }

  /** The key map of the example: `x` bound in normal and in insert mode. */
  function TwoModeMap(kind: MappingType): seq<KeyMapping> {
    [KeyMapping("x", kind, Some(Normal), None, None, ""), KeyMapping("x", kind, Some(Insert), None, None, "")]
  }

  /** As written, mapping `y` to `x` in every mode copies the normal-mode entry twice
      and never reaches the insert-mode one, since the copy pushes the entry just
      read to the next index. */
  lemma NoremapRevisits()
    ensures var ds := TwoModeMap(Action);
      NoremapAsWritten(ds, 2, "y", "x", None) ==
        Ok([Retarget(ds[0], "y", None), Retarget(ds[0], "y", None)] + ds)
  {
    var ds := TwoModeMap(Action);
    var y := Retarget(ds[0], "y", None);
    RevisitFirstStep();
    RevisitSecondStep();
    assert [y] + ([y] + ds) == [y, y] + ds;
  }

  /** The first step of the example as written: the normal-mode entry is copied in front. */
  lemma RevisitFirstStep()
    ensures var ds := TwoModeMap(Action);
      NoremapLoop(ds, 0, 2, ToCtxArray(None), "y", "x", None) ==
        NoremapLoop([Retarget(ds[0], "y", None)] + ds, 1, 2, [Insert, Visual], "y", "x", None)
  {
    LeftAfterNormal();
  }

  /** The second step of the example as written: index 1 holds the normal-mode entry again,
      and the scan ends after copying it once more. */
  lemma RevisitSecondStep()
    ensures var ds := TwoModeMap(Action); var y := Retarget(ds[0], "y", None);
      NoremapLoop([y] + ds, 1, 2, [Insert, Visual], "y", "x", None) == Ok([y] + ([y] + ds))
  {
    var ds := TwoModeMap(Action);
    var y := Retarget(ds[0], "y", None);
    assert ([y] + ds)[1] == ds[0];
    NoneLeftAfterNormal();
  }

  /** Copying a normal-mode entry leaves the insert and visual modes. */
  lemma LeftAfterNormal()
    ensures Unmapped([Normal, Insert, Visual], [Normal]) == [Insert, Visual]
  {
    assert [Normal, Insert, Visual][1..] == [Insert, Visual] && [Insert, Visual][1..] == [Visual];
  }

  /** Copying a normal-mode entry again leaves the same modes. */
  lemma NoneLeftAfterNormal()
    ensures Unmapped([Insert, Visual], [Normal]) == [Insert, Visual]
  {
    assert [Insert, Visual][1..] == [Visual];
  }

  /** Copying then an insert-mode entry leaves the visual mode. */
  lemma LeftAfterInsert()
    ensures Unmapped([Insert, Visual], [Insert]) == [Visual]
  {
    assert [Insert, Visual][1..] == [Visual];
  }

  /** As intended, the same call copies both entries, the insert-mode one in front. */
  lemma NoremapCopiesEachOnce()
    ensures var ds := TwoModeMap(Action);
      NoremapSpec(ds, 2, "y", "x", None) ==
        [Retarget(ds[1], "y", None), Retarget(ds[0], "y", None)] + ds
  {
    var ds := TwoModeMap(Action);
    assert DefaultsStart(ds, 2) == 0 && ds[0..] == ds;
    LeftAfterNormal();
    CopiesInsertEntry();
    assert AddedFrom(ds, 0, ToCtxArray(None), "y", "x", None) ==
      [Retarget(ds[1], "y", None), Retarget(ds[0], "y", None)];
  }

  /** The second step of the example as intended: the insert-mode entry is copied, and
      no mode is left after it. */
  lemma CopiesInsertEntry()
    ensures var ds := TwoModeMap(Action);
      AddedFrom(ds, 1, [Insert, Visual], "y", "x", None) == [Retarget(ds[1], "y", None)]
  {
    var ds := TwoModeMap(Action);
    LeftAfterInsert();
    assert AddedFrom(ds, 2, [Visual], "y", "x", None) == [];
  }

  /** As written, once default entries were removed (by `unmap`) so the key map is
      shorter than its original length, the scan starts at a negative index and
      throws; as intended the scan starts at the front. */
  lemma NoremapShortMap()
    ensures var ds := TwoModeMap(Action);
      && NoremapAsWritten(ds[..1], 2, "y", "x", None).Err?
      && NoremapSpec(ds[..1], 2, "y", "x", None) == [Retarget(ds[0], "y", None)] + ds[..1]
  {
    var ds := TwoModeMap(Action);
    assert ds[..1][0..] == ds[..1];
  }

  // ---------------------------------------------------------------------
  // mapclear

  /** The copies of a mode-less entry for every mode in `cs`, in the order the
      puts in front leave them: the last mode first. */
  function Spread(m: KeyMapping, cs: seq<Context>): (r: seq<KeyMapping>)
    ensures |r| == |cs|
    ensures forall k :: 0 <= k < |r| ==> r[k] == m.(context := Some(cs[|cs| - 1 - k]))
  {
    if cs == [] then [] else [m.(context := Some(cs[|cs| - 1]))] + Spread(m, cs[..|cs| - 1])
  }

  /** The modes other than `c`. */
  function OtherModes(c: Context): seq<Context> {
    Unmapped([Normal, Insert, Visual], [c])
  }

  /** What `mapclear(c)` puts back for one user entry. */
  function KeptFor(m: KeyMapping, c: Context): seq<KeyMapping> {
    if m.context == Some(c) then []
    else if m.context.Some? then [m]
    else Spread(m, OtherModes(c))
  }

  /** What `mapclear(c)` puts back for the user entries from index `i` on, in order. */
  function ReaddedFrom(user: seq<KeyMapping>, i: nat, c: Context): seq<KeyMapping>
    requires i <= |user|
    decreases |user| - i
  {
    if i == |user| then [] else KeptFor(user[i], c) + ReaddedFrom(user, i + 1, c)
  }

  /** `mapclear(ctx)`: the user entries in front are removed; with a mode given, the
      ones for other modes are put back. */
  function MapclearSpec(entries: seq<KeyMapping>, defaultLength: nat, ctx: Option<Context>): (r: seq<KeyMapping>)
    ensures KeptBehind(r, entries[DefaultsStart(entries, defaultLength)..])
    ensures ctx.None? ==> |r| == |entries| - DefaultsStart(entries, defaultLength)
  {
    var u := DefaultsStart(entries, defaultLength);
    if ctx.None? then entries[u..] else ReaddedFrom(entries[..u], 0, ctx.value) + entries[u..]
  }

  /** Nothing put back is for the cleared mode or without a mode. */
  predicate OtherModesOnly(ms: seq<KeyMapping>, c: Context) {
    forall k :: 0 <= k < |ms| ==> ms[k].context.Some? && ms[k].context != Some(c)
  }

  lemma ReaddedModes(user: seq<KeyMapping>, i: nat, c: Context)
    requires i <= |user|
    ensures OtherModesOnly(ReaddedFrom(user, i, c), c)
  {
    var r := ReaddedFrom(user, i, c);
    forall k | 0 <= k < |r| ensures r[k].context.Some? && r[k].context != Some(c) {
      ReaddedModeAt(user, i, c, k);
    }
  }

  /** Element `k` of what is put back from index `i` on has another mode. */
  lemma {:induction false} ReaddedModeAt(user: seq<KeyMapping>, i: nat, c: Context, k: nat)
    requires i <= |user| && k < |ReaddedFrom(user, i, c)|
    ensures ReaddedFrom(user, i, c)[k].context.Some? && ReaddedFrom(user, i, c)[k].context != Some(c)
    decreases |user| - i
  {
    var head, rest := KeptFor(user[i], c), ReaddedFrom(user, i + 1, c);
    assert ReaddedFrom(user, i, c) == head + rest;
    if k < |head| {
      KeptForModes(user[i], c);
      assert (head + rest)[k] == head[k];
    } else {
      ReaddedModeAt(user, i + 1, c, k - |head|);
      assert (head + rest)[k] == rest[k - |head|];
    }
  }

  /** What is put back for one entry has a mode, and not the cleared one. */
  lemma KeptForModes(m: KeyMapping, c: Context)
    ensures OtherModesOnly(KeptFor(m, c), c)
  {
    if m.context.None? {
      var cs := OtherModes(c);
      forall k | 0 <= k < |cs| ensures cs[k] != c {
        assert cs[k] in cs;
      }
    }
  }

  lemma InLeft(a: seq<KeyMapping>, b: seq<KeyMapping>, x: KeyMapping)
    requires x in a
    ensures x in a + b
  {
    var j :| 0 <= j < |a| && a[j] == x;
    assert (a + b)[j] == x;
  }

  lemma InRight(a: seq<KeyMapping>, b: seq<KeyMapping>, x: KeyMapping)
    requires x in b
    ensures x in a + b
  {
    var j :| 0 <= j < |b| && b[j] == x;
    assert (a + b)[|a| + j] == x;
  }

  /** A user entry for another mode, at or after index `i`, is among what is put back. */
  lemma {:induction false} ReaddedKeeps(user: seq<KeyMapping>, i: nat, c: Context, k: nat)
    requires i <= k < |user| && user[k].context.Some? && user[k].context != Some(c)
    ensures user[k] in ReaddedFrom(user, i, c)
    decreases k - i
  {
    ReaddedUnfold(user, i, c);
    if k == i {
      KeptForOtherMode(user[i], c);
      InLeft(KeptFor(user[i], c), ReaddedFrom(user, i + 1, c), user[k]);
    } else {
      ReaddedKeeps(user, i + 1, c, k);
      InRight(KeptFor(user[i], c), ReaddedFrom(user, i + 1, c), user[k]);
    }
  }

  /** An entry for another mode is put back as it is. */
  lemma KeptForOtherMode(m: KeyMapping, c: Context)
    requires m.context.Some? && m.context != Some(c)
    ensures m in KeptFor(m, c)
  {
    assert KeptFor(m, c) == [m];
  }

  /** One step of putting back: the entry at `i`, then those after it. */
  lemma ReaddedUnfold(user: seq<KeyMapping>, i: nat, c: Context)
    requires i < |user|
    ensures ReaddedFrom(user, i, c) == KeptFor(user[i], c) + ReaddedFrom(user, i + 1, c)
  {
  }

  /** Without a mode, `mapclear` removes exactly the user entries in front and keeps
      the defaults; with a mode, what it puts back has a mode other than the cleared
      one, and every user entry for another mode survives, in front of the defaults. */
  lemma MapclearPartitions(entries: seq<KeyMapping>, defaultLength: nat, ctx: Option<Context>)
    ensures var r := MapclearSpec(entries, defaultLength, ctx);
      var u := DefaultsStart(entries, defaultLength);
      && (ctx.None? ==> r == entries[u..] && |r| == if |entries| < defaultLength then |entries| else defaultLength)
      && (ctx.Some? ==>
            && |r| >= |entries| - u && r[|r| - (|entries| - u)..] == entries[u..]
            && (forall k :: 0 <= k < |r| - (|entries| - u) ==> r[k].context.Some? && r[k].context != ctx)
            && (forall k :: 0 <= k < u && entries[k].context.Some? && entries[k].context != ctx ==> entries[k] in r))
  {
    var u := DefaultsStart(entries, defaultLength);
    if ctx.Some? {
      ReaddedModes(entries[..u], 0, ctx.value);
      var back := ReaddedFrom(entries[..u], 0, ctx.value);
      var r := back + entries[u..];
      assert r[|back|..] == entries[u..];
      forall k | 0 <= k < u && entries[k].context.Some? && entries[k].context != ctx ensures entries[k] in r {
        assert entries[k] == entries[..u][k];
        ReaddedKeeps(entries[..u], 0, ctx.value, k);
      }
    }
  }

  // ---------------------------------------------------------------------
  // The objects

  /** Where the editor keeps its vim state: reset after a command throws. */
  class EditorSlot {
    var vim: VimState

    constructor ()
      ensures fresh(vim) && !vim.insertMode && !vim.visualMode
    {
      vim := new VimState();
    }
  }

  /** What running a found command does: key-to-key mappings feed their keys,
      others go to `processCommand`, whose thrown message (if any) is given. */
  datatype CommandOutcome = FedKeys(fed: Fed) | Processed(thrown: Option<string>)

  /** The command threw: the fed keys ran out, or `processCommand` threw. */
  predicate Threw(o: CommandOutcome) {
    (o.FedKeys? && o.fed.failed) || (o.Processed? && o.thrown.Some?)
  }

  /** `clearInputState(adapter)`: a new input state replaces the old one. */
  method ClearInputState(vim: VimState)
    modifies vim`inputState
    ensures fresh(vim.inputState) && Cleared(vim.inputState)
  {
    vim.inputState := new InputState();
  }

  class VimApi {
    /** `lastInsertModeKeyTimer` is scheduled and not cleared. */
    var timerArmed: bool
    /** The keys handed to `logKey`, in order. */
    var loggedKeys: seq<string>
    /** For each insert-mode character mapping run, how many typed characters before
        each cursor were deleted. */
    var erasures: seq<int>

    /** `new VimApi()`: resets the session state. */
    constructor (scope: GlobalScope, validRegisters: seq<string>)
      requires NumbersValid(validRegisters)
      modifies scope
      ensures !timerArmed && loggedKeys == [] && erasures == []
      ensures scope.vimGlobalState != null && fresh(scope.vimGlobalState)
      ensures scope.vimGlobalState.registerController.View() == map[UnnamedName := EmptyVal, "." := EmptyVal, ":" := EmptyVal, "/" := EmptyVal]
    {
      timerArmed, loggedKeys, erasures := false, [], [];
      new;
      scope.ResetVimGlobalState(validRegisters);
    }

    /** `defineEx(name, prefix, func)` on the dispatcher's command map. */
    method DefineEx(d: ExCommandDispatcher, name: string, prefix: string) returns (r: Result<()>)
      modifies d`commandMap
      ensures (r, d.commandMap) == DefineExSpec(old(d.commandMap), name, prefix)
    {
      var p := prefix;
      if p == "" {
        p := name;
      } else if !StartsWith(name, p) {
        return Err("(Vim.defineEx) \"" + p + "\" is not a prefix of \"" + name + "\", command not registered");
      }
      d.commandMap := d.commandMap[p := ApiCommand(name, p)];
      return Ok(());
    }

    /** `noremap(lhs, rhs, ctx)`, reading the default entries from the key map as it
        was before the first copy went in front. */
    method Noremap(keymap: Keymap, lhs: string, rhs: string, ctx: Option<Context>)
      modifies keymap`entries
      ensures keymap.entries == NoremapSpec(old(keymap.entries), keymap.defaultLength, lhs, rhs, ctx)
    {
      var ctxsToMap := ToCtxArray(ctx);
      var defaults := keymap.entries[DefaultsStart(keymap.entries, keymap.defaultLength)..];
      ghost var target := NoremapSpec(keymap.entries, keymap.defaultLength, lhs, rhs, ctx);
      var i := 0;
      while i < |defaults| && ctxsToMap != []
        invariant 0 <= i <= |defaults|
        invariant AddedFrom(defaults, i, ctxsToMap, lhs, rhs, ctx) + keymap.entries == target
      {
        var mapping := defaults[i];
        if Candidate(mapping, rhs, ctx) {
          var copy := Retarget(mapping, lhs, ctx);
          var rest := Unmapped(ctxsToMap, ToCtxArray(mapping.context));
          assert AddedFrom(defaults, i, ctxsToMap, lhs, rhs, ctx) == AddedFrom(defaults, i + 1, rest, lhs, rhs, ctx) + [copy];
          CopyInFront(AddedFrom(defaults, i + 1, rest, lhs, rhs, ctx), copy, keymap.entries);
          keymap.MapCommand(copy);
          ctxsToMap := rest;
        }
        i := i + 1;
      }
    }

    /** `mapclear(ctx)` */
    method Mapclear(keymap: Keymap, ctx: Option<Context>)
      modifies keymap
      ensures keymap.entries == MapclearSpec(old(keymap.entries), keymap.defaultLength, ctx)
    {
      var u := DefaultsStart(keymap.entries, keymap.defaultLength);
      var userKeymap := keymap.entries[..u];
      keymap.entries := keymap.entries[u..];
      if ctx.Some? {
        PutBackAll(keymap, userKeymap, ctx.value);
      }
    }

    /** `doKeyToKey(keys)`: the tokens fed, and whether it threw. The keys still to
        scan, `keys.substring(…)`, are kept as the index `pos` where they start. */
    method DoKeyToKey(keys: string) returns (fed: Fed)
      ensures fed == Tokenize(keys)
    {
      var pos := 0;
      var tokens: seq<string> := [];
      while pos < |keys|
        invariant pos <= |keys|
        invariant Tokenize(keys) == Fed(tokens + TokensFrom(keys, pos).tokens, TokensFrom(keys, pos).failed)
        decreases |keys| - pos
      {
        var index := BreaksEnd(keys, pos);
        if index == |keys| {
          return Fed(tokens, true);
        }
        var end := TokenEnd(keys, index);
        TokensAdvance(keys, tokens, pos, index, end);
        tokens := tokens + [keys[index..end]];
        pos := end;
      }
      return Fed(tokens, false);
    }

    /** The function `findKey` returns for a command, when called: on a throw the
        editor's vim state is replaced by a fresh one. */
    method RunCommand(editor: EditorSlot, command: KeyMapping, process: KeyMapping -> Option<string>)
      returns (outcome: CommandOutcome)
      modifies editor
      ensures command.kind == KeyToKey ==>
        outcome == FedKeys(Tokenize(if command.toKeys.Some? then command.toKeys.value else ""))
      ensures command.kind != KeyToKey ==> outcome == Processed(process(command))
      ensures Threw(outcome) ==> fresh(editor.vim) && !editor.vim.insertMode && !editor.vim.visualMode
      ensures !Threw(outcome) ==> editor.vim == old(editor.vim)
    {
      var failed: bool;
      if command.kind == KeyToKey {
        var fed := DoKeyToKey(if command.toKeys.Some? then command.toKeys.value else "");
        outcome := FedKeys(fed);
        failed := fed.failed;
      } else {
        var thrown := process(command);
        outcome := Processed(thrown);
        failed := thrown.Some?;
      }
      if failed {
        editor.vim := new VimState();
      }
    }

    /** `handleMacroRecording()` */
    method HandleMacroRecording(vim: VimState, macro: MacroModeState, key: string, fromMapping: bool)
      returns (handled: bool)
      modifies this`loggedKeys, macro`isRecording, macro`onRecordingDone, vim`inputState
      ensures handled <==> old(macro.isRecording) && key == "q"
      ensures handled ==> !macro.isRecording && macro.onRecordingDone.None? && fresh(vim.inputState) && Cleared(vim.inputState)
      ensures !handled ==> macro.isRecording == old(macro.isRecording) && macro.onRecordingDone == old(macro.onRecordingDone)
                           && vim.inputState == old(vim.inputState)
      ensures loggedKeys == old(loggedKeys) + if Logs(old(macro.isRecording), key, fromMapping) then [key] else []
    {
      handled := false;
      if macro.isRecording {
        if key == "q" {
          var _ := macro.ExitMacroRecordMode();
          ClearInputState(vim);
          return true;
        }
        if !fromMapping {
          loggedKeys := loggedKeys + [key];
        }
      }
    }

    /** `handleEsc()`: `exitVisualMode` and `exitInsertMode` are reduced to leaving
        their mode. */
    method HandleEsc(vim: VimState, key: string) returns (handled: bool)
      modifies vim`visualMode, vim`insertMode, vim`inputState
      ensures handled <==> key == "<Esc>" && (old(vim.visualMode) || old(vim.insertMode))
      ensures vim.visualMode == (old(vim.visualMode) && !handled)
      ensures vim.insertMode == (old(vim.insertMode) && !(handled && !old(vim.visualMode)))
      ensures handled ==> fresh(vim.inputState) && Cleared(vim.inputState)
      ensures !handled ==> vim.inputState == old(vim.inputState)
    {
      if key != "<Esc>" {
        return false;
      }
      if vim.visualMode {
        vim.visualMode := false;
      } else if vim.insertMode {
        vim.insertMode := false;
      } else {
        return false;
      }
      ClearInputState(vim);
      return true;
    }

    /** `handleKeyInsertMode()` */
    method HandleKeyInsertMode(vim: VimState, key: string, matcher: Matcher) returns (h: HandlerValue)
      requires vim.insertMode && vim.inputState.Valid()
      modifies this`timerArmed, this`erasures, vim`visualMode, vim`insertMode, vim`inputState, vim.inputState`keyBuffer
      ensures var step := InsertSpec(old(vim.visualMode), old(vim.inputState.keyBuffer), key, matcher);
        && h == HandlerOf(step)
        && vim.inputState.Valid()
        && vim.insertMode == InsertAfter(true, step)
        && vim.visualMode == (old(vim.visualMode) && step != LeaveMode(true))
        && (step.Buffer? ==> vim.inputState == old(vim.inputState) && vim.inputState.keyBuffer == step.keys && timerArmed)
        && (!step.Buffer? ==> fresh(vim.inputState) && Cleared(vim.inputState))
        && (step.Accept? ==> !timerArmed)
        && (!step.Buffer? && !step.Accept? ==> timerArmed == old(timerArmed))
        && erasures == old(erasures) + if step.Accept? && step.erase.Some? then [step.erase.value] else []
    {
      var escaped := HandleEsc(vim, key);
      if escaped {
        return HTrue;
      }
      vim.inputState.keyBuffer := vim.inputState.keyBuffer + key;
      var keys := vim.inputState.keyBuffer;
      ghost var all := keys;
      var keysAreChars := |key| == 1;
      var m := matcher(keys, Insert);
      ghost var i: nat := 0;
      while |keys| > 1 && !m.FullMatch?
        invariant i <= |all| && keys == all[i..] && vim.inputState.keyBuffer == keys
        invariant vim.inputState == old(vim.inputState) && vim.inputState.Valid()
        invariant vim.insertMode && vim.visualMode == old(vim.visualMode)
        invariant timerArmed == old(timerArmed) && erasures == old(erasures)
        invariant ShrinkFrom(all, i, m, matcher) == ShrinkFrom(all, 0, matcher(all, Insert), matcher)
        decreases |keys|
      {
        keys := keys[1..];
        vim.inputState.keyBuffer := keys;
        assert keys == all[i + 1..];
        i := i + 1;
        var thisMatch := matcher(keys, Insert);
        if !thisMatch.NoMatch? {
          m := thisMatch;
        }
      }
      if m.NoMatch? {
        ClearInputState(vim);
        return HFalse;
      } else if m.PartialMatch? {
        timerArmed := true;
        return if keysAreChars then HFalse else HTrue;
      }
      timerArmed := false;
      if keysAreChars {
        erasures := erasures + [|keys| - 1];
      }
      ClearInputState(vim);
      return HCommand(m.command);
    }

    /** `handleKeyNonInsertMode()`; a count on a full match goes to `pushRepeatDigit`. */
    method HandleKeyNonInsertMode(vim: VimState, macro: MacroModeState, key: string, fromMapping: bool,
                                  matcher: Matcher) returns (h: HandlerValue)
      requires !vim.insertMode && vim.inputState.Valid()
      modifies this`loggedKeys, macro`isRecording, macro`onRecordingDone, vim`visualMode, vim`insertMode, vim`inputState,
               vim.inputState`keyBuffer, vim.inputState`prefixRepeat, vim.inputState`motionRepeat
      ensures var step := NonInsertSpec(old(macro.isRecording), old(vim.visualMode), old(vim.inputState.keyBuffer),
                                        old(vim.inputState.operatorShortcut), key, matcher);
        && h == HandlerOf(step)
        && vim.inputState.Valid()
        && !vim.insertMode
        && vim.visualMode == (old(vim.visualMode) && step != LeaveMode(true))
        && macro.isRecording == (old(macro.isRecording) && !step.StopRecording?)
        && loggedKeys == old(loggedKeys) + (if Logs(old(macro.isRecording), key, fromMapping) then [key] else [])
        && (step.StopRecording? || step.LeaveMode? || step.Reject? ==> fresh(vim.inputState) && Cleared(vim.inputState))
        && (step.Buffer? ==> vim.inputState == old(vim.inputState) && vim.inputState.keyBuffer == step.keys
                             && vim.inputState.prefixRepeat == old(vim.inputState.prefixRepeat)
                             && vim.inputState.motionRepeat == old(vim.inputState.motionRepeat))
        && (step.Accept? ==> vim.inputState == old(vim.inputState) && vim.inputState.keyBuffer == ""
                             && (vim.inputState.prefixRepeat, vim.inputState.motionRepeat)
                                == Pushed(old(vim.inputState.prefixRepeat), old(vim.inputState.motionRepeat),
                                          vim.inputState.HasOperator(), step.repeat))
    {
      ghost var step := NonInsertSpec(macro.isRecording, vim.visualMode, vim.inputState.keyBuffer,
                                      vim.inputState.operatorShortcut, key, matcher);
      var stopped := HandleMacroRecording(vim, macro, key, fromMapping);
      if stopped {
        assert step == StopRecording;
        return HTrue;
      }
      var escaped := HandleEsc(vim, key);
      if escaped {
        assert step == LeaveMode(true);
        return HTrue;
      }
      var s := vim.inputState;
      s.keyBuffer := s.keyBuffer + key;
      var keys := s.keyBuffer;
      if IsCount(keys) {
        assert step == Buffer(keys, true);
        return HTrue;
      }
      if HasLineTerminator(keys) {
        assert step == Reject;
        ClearInputState(vim);
        return HFalse;
      }
      var context := if vim.visualMode then Visual else Normal;
      var mainKey := LookupKey(keys, s.operatorShortcut);
      var match_ := matcher(mainKey, context);
      if match_.NoMatch? {
        assert step == Reject;
        ClearInputState(vim);
        return HFalse;
      } else if match_.PartialMatch? {
        assert step == Buffer(keys, true);
        return HTrue;
      }
      assert step == Accept(match_.command, RepeatOf(keys), None);
      s.keyBuffer := "";
      var repeat := RepeatOf(keys);
      if repeat.Some? {
        s.PushRepeatDigit(repeat.value);
      }
      return HCommand(match_.command);
    }

    /** `findKey(adapter, key, origin)`; `fromMapping` is `origin == "mapping"`. */
    method FindKey(vim: VimState, macro: MacroModeState, key: string, fromMapping: bool, matcher: Matcher)
      returns (r: KeyResult)
      requires vim.inputState.Valid()
      modifies this`timerArmed, this`erasures, this`loggedKeys, macro`isRecording, macro`onRecordingDone,
               vim, vim.inputState`keyBuffer, vim.inputState`prefixRepeat, vim.inputState`motionRepeat
      ensures vim.inputState.Valid()
      ensures r == FindKeySpec(old(vim.insertMode), old(macro.isRecording), old(vim.visualMode),
                               old(vim.inputState.keyBuffer), old(vim.inputState.operatorShortcut), key, matcher)
      ensures var step := StepSpec(old(vim.insertMode), old(macro.isRecording), old(vim.visualMode),
                                   old(vim.inputState.keyBuffer), old(vim.inputState.operatorShortcut), key, matcher);
        && vim.insertMode == InsertAfter(old(vim.insertMode), step)
        && (step.Buffer? ==> vim.inputState.keyBuffer == step.keys)
        && (step.StopRecording? ==> !macro.isRecording)
    {
      var h;
      if vim.insertMode {
        h := HandleKeyInsertMode(vim, key, matcher);
      } else {
        h := HandleKeyNonInsertMode(vim, macro, key, fromMapping, matcher);
      }
      r := ResultOf(h, vim.insertMode, key);
    }
  }

  /** What `pushRepeatDigit` does to the two count lists. */
  function Pushed(prefix: seq<string>, motion: seq<string>, hasOperator: bool, d: Option<string>): (seq<string>, seq<string>) {
    if d.None? then (prefix, motion)
    else if hasOperator then (prefix, motion + [d.value])
    else (prefix + [d.value], motion)
  }

  /** One turn of the `mapclear` loop: what entry `i` puts back goes in front of
      what the later entries put back. */
  lemma ReaddedStep(user: seq<KeyMapping>, i: nat, c: Context, defaults: seq<KeyMapping>)
    requires i < |user|
    ensures KeptFor(user[i], c) + (ReaddedFrom(user, i + 1, c) + defaults) == ReaddedFrom(user, i, c) + defaults
  {
  }

  /** The loop of `mapclear(c)` over the removed user entries, last first. */
  method PutBackAll(keymap: Keymap, user: seq<KeyMapping>, c: Context)
    modifies keymap
    ensures keymap.entries == ReaddedFrom(user, 0, c) + old(keymap.entries)
  {
    var i := |user|;
    while i > 0
      invariant 0 <= i <= |user|
      invariant keymap.entries == ReaddedFrom(user, i, c) + old(keymap.entries)
    {
      i := i - 1;
      ReaddedStep(user, i, c, old(keymap.entries));
      PutBack(keymap, user[i], c);
    }
  }

  /** One step of `mapclear(c)`: an entry for another mode goes back in front, a
      mode-less one once for each other mode. */
  method PutBack(keymap: Keymap, mapping: KeyMapping, c: Context)
    modifies keymap`entries
    ensures keymap.entries == KeptFor(mapping, c) + old(keymap.entries)
  {
    if Some(c) != mapping.context {
      if mapping.context.Some? {
        keymap.MapCommand(mapping);
      } else {
        PutCopies(keymap, mapping, OtherModes(c));
      }
    }
  }

  /** `forEach(el => _mapCommand({ ...mapping, context: el }))` over the modes `cs`. */
  method PutCopies(keymap: Keymap, mapping: KeyMapping, cs: seq<Context>)
    modifies keymap`entries
    ensures keymap.entries == Spread(mapping, cs) + old(keymap.entries)
  {
    for j := 0 to |cs|
      invariant keymap.entries == Spread(mapping, cs[..j]) + old(keymap.entries)
    {
      assert cs[..j + 1][..j] == cs[..j];
      keymap.MapCommand(mapping.(context := Some(cs[j])));
    }
    assert cs[..|cs|] == cs;
  }
}
