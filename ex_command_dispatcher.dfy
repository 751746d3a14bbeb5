/** The Ex command layer of ex-command-dispatcher.ts: the default command table and
    the map built from it, prefix lookup of command names, the line-range and
    argument parsers over a `StringStream`, the command-history rule of
    `_processCommand`, and `map` / `unmap`. */
module ExCommandDispatchers {
  import opened Common
  import opened StringStreams
  import opened KeyMaps
  import opened RegisterControllers
  import opened Types

  // ---------------------------------------------------------------------
  // The default command table

  /** A built-in entry with no flags. An empty `shortName` stands for none. */
  function Builtin(name: string, shortName: string): ExCommand {
    ExCommand(name, None, if shortName == "" then None else Some(shortName), false, false, None, None, false)
  }

  /** `defaultExCommandMap` */
  const DefaultExCommands: seq<ExCommand> := [
    Builtin("colorscheme", "colo"),
    Builtin("map", ""),
    Builtin("imap", "im"),
    Builtin("nmap", "nm"),
    Builtin("vmap", "vm"),
    Builtin("unmap", ""),
    Builtin("edit", "e"),
    Builtin("write", "w"),
    Builtin("save", "sav"),
    Builtin("undo", "u"),
    Builtin("redo", "red"),
    Builtin("set", "se"),
    Builtin("setlocal", "setl"),
    Builtin("setglobal", "setg"),
    Builtin("sort", "sor"),
    Builtin("substitute", "s").(possiblyAsync := true),
    Builtin("nohlsearch", "noh"),
    Builtin("yank", "y"),
    Builtin("delmarks", "delm"),
    Builtin("registers", "reg").(excludeFromCommandHistory := true),
    Builtin("vglobal", "v"),
    Builtin("global", "g"),
    Builtin("version", "ve")
  ]

  /** The key an entry is stored under: `command.shortName || command.name`. */
  function KeyFor(c: ExCommand): string {
    if c.shortName.Some? && c.shortName.value != "" then c.shortName.value else c.name
  }

  /** The map after the first `n` entries of `cmds` were set in order. */
  function BuildMap(cmds: seq<ExCommand>, n: nat): map<string, ExCommand>
    requires n <= |cmds|
  {
    if n == 0 then map[] else BuildMap(cmds, n - 1)[KeyFor(cmds[n - 1]) := cmds[n - 1]]
  }

  /** The last of the first `n` entries stored under `k`. */
  predicate LastWithKey(cmds: seq<ExCommand>, n: nat, k: string, i: nat)
    requires n <= |cmds|
  {
    i < n && KeyFor(cmds[i]) == k && forall j :: i < j < n ==> KeyFor(cmds[j]) != k
  }

  /** `buildCommandMap_` keys every entry by its short name, or its name when it
      has none; where two entries share a key, the later one wins. */
  lemma {:induction false} BuildMapKeys(cmds: seq<ExCommand>, n: nat)
    requires n <= |cmds|
    ensures forall k :: k in BuildMap(cmds, n) <==> exists i :: 0 <= i < n && KeyFor(cmds[i]) == k
    ensures forall k, i :: 0 <= i && LastWithKey(cmds, n, k, i) ==> k in BuildMap(cmds, n) && BuildMap(cmds, n)[k] == cmds[i]
    decreases n
  {
    if n > 0 {
      BuildMapKeys(cmds, n - 1);
      forall k ensures k in BuildMap(cmds, n) <==> exists i :: 0 <= i < n && KeyFor(cmds[i]) == k {
        if k != KeyFor(cmds[n - 1]) {
          assert k in BuildMap(cmds, n) <==> k in BuildMap(cmds, n - 1);
          if exists i :: 0 <= i < n && KeyFor(cmds[i]) == k {
            var i :| 0 <= i < n && KeyFor(cmds[i]) == k;
            assert i < n - 1;
          }
        }
      }
      forall k, i | 0 <= i && LastWithKey(cmds, n, k, i) ensures k in BuildMap(cmds, n) && BuildMap(cmds, n)[k] == cmds[i] {
        if i < n - 1 {
          assert KeyFor(cmds[n - 1]) != k;
          assert LastWithKey(cmds, n - 1, k, i);
        }
      }
    }
  }

  /** The command map the default table gives. */
  const DefaultCommandMap: map<string, ExCommand> := map[
    "colo" := DefaultExCommands[0], "map" := DefaultExCommands[1], "im" := DefaultExCommands[2],
    "nm" := DefaultExCommands[3], "vm" := DefaultExCommands[4], "unmap" := DefaultExCommands[5],
    "e" := DefaultExCommands[6], "w" := DefaultExCommands[7], "sav" := DefaultExCommands[8],
    "u" := DefaultExCommands[9], "red" := DefaultExCommands[10], "se" := DefaultExCommands[11],
    "setl" := DefaultExCommands[12], "setg" := DefaultExCommands[13], "sor" := DefaultExCommands[14],
    "s" := DefaultExCommands[15], "noh" := DefaultExCommands[16], "y" := DefaultExCommands[17],
    "delm" := DefaultExCommands[18], "reg" := DefaultExCommands[19], "v" := DefaultExCommands[20],
    "g" := DefaultExCommands[21], "ve" := DefaultExCommands[22]]

  /** Building from the default table gives the map above, one key per entry. */
  lemma DefaultMapBuilt()
    ensures BuildMap(DefaultExCommands, |DefaultExCommands|) == DefaultCommandMap
  {
    var d := DefaultExCommands;
    assert BuildMap(d, 1) == map["colo" := d[0]];
    assert BuildMap(d, 2) == BuildMap(d, 1)["map" := d[1]];
    assert BuildMap(d, 3) == BuildMap(d, 2)["im" := d[2]];
    assert BuildMap(d, 4) == BuildMap(d, 3)["nm" := d[3]];
    assert BuildMap(d, 5) == BuildMap(d, 4)["vm" := d[4]];
    assert BuildMap(d, 6) == BuildMap(d, 5)["unmap" := d[5]];
    assert BuildMap(d, 7) == BuildMap(d, 6)["e" := d[6]];
    assert BuildMap(d, 8) == BuildMap(d, 7)["w" := d[7]];
    assert BuildMap(d, 9) == BuildMap(d, 8)["sav" := d[8]];
    assert BuildMap(d, 10) == BuildMap(d, 9)["u" := d[9]];
    assert BuildMap(d, 11) == BuildMap(d, 10)["red" := d[10]];
    assert BuildMap(d, 12) == BuildMap(d, 11)["se" := d[11]];
    assert BuildMap(d, 13) == BuildMap(d, 12)["setl" := d[12]];
    assert BuildMap(d, 14) == BuildMap(d, 13)["setg" := d[13]];
    assert BuildMap(d, 15) == BuildMap(d, 14)["sor" := d[14]];
    assert BuildMap(d, 16) == BuildMap(d, 15)["s" := d[15]];
    assert BuildMap(d, 17) == BuildMap(d, 16)["noh" := d[16]];
    assert BuildMap(d, 18) == BuildMap(d, 17)["y" := d[17]];
    assert BuildMap(d, 19) == BuildMap(d, 18)["delm" := d[18]];
    assert BuildMap(d, 20) == BuildMap(d, 19)["reg" := d[19]];
    assert BuildMap(d, 21) == BuildMap(d, 20)["v" := d[20]];
    assert BuildMap(d, 22) == BuildMap(d, 21)["g" := d[21]];
    assert BuildMap(d, 23) == BuildMap(d, 22)["ve" := d[22]];
  }

  // ---------------------------------------------------------------------
  // Command name lookup

  /** The prefix of length `i` is a key whose command's name starts with the whole
      typed name. */
  predicate Qualifies(m: map<string, ExCommand>, name: string, i: nat)
    requires i <= |name|
  {
    name[..i] in m && StartsWith(m[name[..i]].name, name)
  }

  /** The `matchCommand_` loop from prefix length `i` down to 1. */
  function MatchFrom(m: map<string, ExCommand>, name: string, i: nat): (r: Option<ExCommand>)
    requires i <= |name|
    ensures r.Some? ==> StartsWith(r.value.name, name)
  {
    if i == 0 then None
    else if Qualifies(m, name, i) then Some(m[name[..i]])
    else MatchFrom(m, name, i - 1)
  }

  /** `matchCommand_(name)` */
  function MatchCommandSpec(m: map<string, ExCommand>, name: string): (r: Option<ExCommand>)
    ensures r.Some? ==> StartsWith(r.value.name, name)
    ensures name == "" ==> r.None?
  {
    MatchFrom(m, name, |name|)
  }

  /** The command found is stored under the longest qualifying prefix of length at
      most `i`, and nothing is found exactly when no such prefix qualifies. */
  lemma {:induction false} MatchFromLongest(m: map<string, ExCommand>, name: string, i: nat)
    requires i <= |name|
    ensures MatchFrom(m, name, i).None? <==> forall j :: 1 <= j <= i ==> !Qualifies(m, name, j)
    ensures MatchFrom(m, name, i).Some? ==>
      exists k :: (&& 1 <= k <= i && Qualifies(m, name, k)
                   && MatchFrom(m, name, i).value == m[name[..k]]
                   && forall j :: k < j <= i ==> !Qualifies(m, name, j))
    decreases i
  {
    if i > 0 && !Qualifies(m, name, i) {
      MatchFromLongest(m, name, i - 1);
      if MatchFrom(m, name, i).Some? {
        var k :| && 1 <= k <= i - 1 && Qualifies(m, name, k)
                 && MatchFrom(m, name, i - 1).value == m[name[..k]]
                 && forall j :: k < j <= i - 1 ==> !Qualifies(m, name, j);
        assert forall j :: k < j <= i ==> !Qualifies(m, name, j);
      }
    }
  }

  /** What `matchCommand_` returns: a command whose name starts with the typed name,
      stored under the longest prefix of the typed name that qualifies; nothing when
      no prefix qualifies. */
  lemma MatchCommandIsLongestPrefix(m: map<string, ExCommand>, name: string)
    ensures var r := MatchCommandSpec(m, name);
      && (r.Some? ==> StartsWith(r.value.name, name))
      && (r.None? <==> forall j :: 1 <= j <= |name| ==> !Qualifies(m, name, j))
      && (r.Some? ==> exists k :: (&& 1 <= k <= |name| && Qualifies(m, name, k) && r.value == m[name[..k]]
                                   && forall j :: k < j <= |name| ==> !Qualifies(m, name, j)))
  {
    MatchFromLongest(m, name, |name|);
  }

  /** `g` and `gl` both resolve to `global`, and `v` and `vg` both to `vglobal`. */
  lemma GlobalResolutions()
    ensures MatchCommandSpec(DefaultCommandMap, "g") == Some(DefaultExCommands[21])
    ensures MatchCommandSpec(DefaultCommandMap, "gl") == Some(DefaultExCommands[21])
    ensures MatchCommandSpec(DefaultCommandMap, "v") == Some(DefaultExCommands[20])
    ensures MatchCommandSpec(DefaultCommandMap, "vg") == Some(DefaultExCommands[20])
    ensures DefaultExCommands[21].name == "global" && DefaultExCommands[20].name == "vglobal"
  {
    var m := DefaultCommandMap;
    assert "g"[..1] == "g" && "global"[..1] == "g";
    assert Qualifies(m, "g", 1);
    assert "gl"[..2] == "gl" && "gl"[..1] == "g" && "global"[..2] == "gl";
    assert "gl" !in m;
    assert Qualifies(m, "gl", 1);
    assert MatchFrom(m, "gl", 2) == MatchFrom(m, "gl", 1);
    assert "v"[..1] == "v" && "vglobal"[..1] == "v";
    assert Qualifies(m, "v", 1);
    assert "vg"[..2] == "vg" && "vg"[..1] == "v" && "vglobal"[..2] == "vg";
    assert "vg" !in m;
    assert Qualifies(m, "vg", 1);
    assert MatchFrom(m, "vg", 2) == MatchFrom(m, "vg", 1);
  }

  /** `sav` resolves to `save`. */
  lemma SaveResolution()
    ensures MatchCommandSpec(DefaultCommandMap, "sav") == Some(DefaultExCommands[8])
    ensures DefaultExCommands[8].name == "save"
  {
    assert "sav"[..3] == "sav" && "save"[..3] == "sav";
    assert Qualifies(DefaultCommandMap, "sav", 3);
  }

  /** `col` resolves to nothing: no prefix of it is a key. */
  lemma ColUnresolved()
    ensures MatchCommandSpec(DefaultCommandMap, "col").None?
  {
    var m := DefaultCommandMap;
    assert "col"[..3] == "col" && "col"[..2] == "co" && "col"[..1] == "c";
    assert "col" !in m;
    assert "co" !in m;
    assert "c" !in m;
    assert MatchFrom(m, "col", 3) == MatchFrom(m, "col", 2);
    assert MatchFrom(m, "col", 2) == MatchFrom(m, "col", 1);
  }

  /** `so` resolves to nothing: the key `s` belongs to `substitute`. */
  lemma SoUnresolved()
    ensures MatchCommandSpec(DefaultCommandMap, "so").None?
  {
    var m := DefaultCommandMap;
    assert "so"[..2] == "so" && "so"[..1] == "s";
    assert "so" !in m;
    assert m["s"].name == "substitute";
    assert !StartsWith("substitute", "so") by { assert "substitute"[..2][1] != "so"[1]; }
    assert MatchFrom(m, "so", 2) == MatchFrom(m, "so", 1);
  }

  /** `unm` resolves to nothing: the key `u` belongs to `undo`, and `unmap` is only
      reached through its full name. */
  lemma UnmUnresolved()
    ensures MatchCommandSpec(DefaultCommandMap, "unm").None?
  {
    var m := DefaultCommandMap;
    assert "unm"[..3] == "unm" && "unm"[..2] == "un" && "unm"[..1] == "u";
    assert "unm" !in m;
    assert "un" !in m;
    assert m["u"].name == "undo";
    assert !StartsWith("undo", "unm") by { assert "undo"[..3][2] != "unm"[2]; }
    assert MatchFrom(m, "unm", 3) == MatchFrom(m, "unm", 2);
    assert MatchFrom(m, "unm", 2) == MatchFrom(m, "unm", 1);
  }

  // ---------------------------------------------------------------------
  // Line specifications

  /** What the parsers ask of the editor: its first and last line, the cursor's line,
      and the line of a named mark (`getMarkPos`), if it is set. */
  datatype LineEnv = LineEnv(firstLine: int, lastLine: int, cursorLine: int, markLine: string -> Option<int>)

  /** `parseLineSpecOffset_(stream, line)` from position `p`: the line adjusted by
      an optional `[+-]N`, and the position after it. */
  function OffsetSpec(str: string, p: int, line: int): (r: (int, int))
    ensures p <= r.1
    ensures r.1 == p ==> r.0 == line
  {
    var m := SignedDigitRun(Slice(str, p));
    if m.None? then (line, p)
    else
      var offset := DigitsValue(m.value.digits);
      (if m.value.sign == Some('-') then line - offset else line + offset, p + SignedRunLength(m.value))
  }

  /** The sign and digits `"+N"` / `"-N"` of an offset `k`. */
  function OffsetText(k: int): string {
    (if k < 0 then "-" else "+") + Decimal(if k < 0 then -k else k)
  }

  /** Reading a written offset back: `parseLineSpecOffset_` at the end of `pre`
      recovers `line + k` and consumes exactly the offset's text, whatever follows
      that is not a digit. */
  lemma OffsetRoundTrip(pre: string, k: int, rest: string, line: int)
    requires rest == [] || !IsDigit(rest[0])
    ensures OffsetSpec(pre + OffsetText(k) + rest, |pre|, line) == (line + k, |pre| + |OffsetText(k)|)
  {
    var n := if k < 0 then -k else k;
    var digits := Decimal(n);
    var sign := if k < 0 then '-' else '+';
    assert OffsetText(k) == [sign] + digits;
    var str := pre + OffsetText(k) + rest;
    assert str[|pre|..] == [sign] + digits + rest;
    OffsetFrom(str, |pre|, sign, digits, rest, line);
    assert DigitsValue(digits) == n;
    OffsetSigned(line, k, n, sign);
    var r := OffsetSpec(str, |pre|, line);
    assert r.0 == line + k;
    assert r.1 == |pre| + |OffsetText(k)|;
  }

  /** Adding back a signed offset spelled as a sign and its magnitude. */
  lemma OffsetSigned(line: int, k: int, n: int, sign: char)
    requires n == (if k < 0 then -k else k) && sign == (if k < 0 then '-' else '+')
    ensures (if sign == '-' then line - n else line + n) == line + k
  {
  }

  /** `parseLineSpecOffset_` where the stream shows a sign, digits and a non-digit. */
  lemma OffsetFrom(str: string, p: int, sign: char, digits: string, rest: string, line: int)
    requires 0 <= p <= |str| && str[p..] == [sign] + digits + rest
    requires sign == '+' || sign == '-'
    requires digits != [] && AllDigits(digits)
    requires rest == [] || !IsDigit(rest[0])
    ensures OffsetSpec(str, p, line).0 == if sign == '-' then line - DigitsValue(digits) else line + DigitsValue(digits)
    ensures OffsetSpec(str, p, line).1 == p + 1 + |digits|
  {
    SignedDigitRunOf(sign, digits, rest);
    assert SignedDigitRun(Slice(str, p)) == Some(SignedRun(Some(sign), digits));
  }

  /** `Ok(Some(line))` and the position, from an offset result. */
  function AtLine(r: (int, int)): (Result<Option<int>>, int) {
    (Ok(Some(r.0)), r.1)
  }

  /** `parseLineSpec_(adapter, stream)` from position `p`, as written: the line (or
      nothing, or the error thrown) and the position it leaves. */
  function LineSpecAsWritten(str: string, p: int, env: LineEnv): (r: (Result<Option<int>>, int))
    ensures 0 <= p ==> p - 1 <= r.1
    ensures 0 <= p < |str| && r.0 == Ok(None) ==> r.1 == p
    ensures r.0.Err? ==> r.0.message == "Mark not set"
  {
    var number := DigitRun(Slice(str, p));
    if number.Some? then (Ok(Some(DigitsValue(number.value) - 1)), p + |number.value|)
    else AfterFirst(str, NextChar(str, p), NextPos(str, p), env)
  }

  /** The rest of `parseLineSpec_` once no line number was read and `next()` gave `c`,
      leaving the stream at `p1`. */
  function AfterFirst(str: string, c: Option<char>, p1: int, env: LineEnv): (r: (Result<Option<int>>, int))
    ensures c == Some('.') || c == Some('$') || c == Some('+') || c == Some('-') ==> r.0.Ok? && r.0.value.Some?
    ensures r.0.Err? ==> c == Some('\'') && r.0.message == "Mark not set"
  {
    if c == Some('.') then AtLine(OffsetSpec(str, p1, env.cursorLine))
    else if c == Some('$') then AtLine(OffsetSpec(str, p1, env.lastLine))
    else if c == Some('\'') then AfterMark(str, p1, env)
    else if c == Some('-') || c == Some('+') then AtLine(OffsetSpec(str, p1 - 1, env.cursorLine))
    else (Ok(None), p1 - 1)
  }

  /** The mark branch of `parseLineSpec_`, after the quote, with the stream at `p1`. */
  function AfterMark(str: string, p1: int, env: LineEnv): (r: (Result<Option<int>>, int))
    ensures r.0.Err? <==> NextChar(str, p1).Some? && env.markLine([NextChar(str, p1).value]).None?
    ensures r.0.Err? ==> r.0.message == "Mark not set"
  {
    var mark := NextChar(str, p1);
    var p2 := NextPos(str, p1);
    if mark.None? then (Ok(None), p2 - 1)
    else if env.markLine([mark.value]).None? then (Err("Mark not set"), p2)
    else AtLine(OffsetSpec(str, p2, env.markLine([mark.value]).value))
  }

  /** `parseLineSpec_` as evidently intended: when no line is found the stream is
      back where it was, including at the end of the input, where `next()` consumed
      nothing for `backUp(1)` to give back. */
  function LineSpec(str: string, p: int, env: LineEnv): (r: (Result<Option<int>>, int))
    ensures 0 <= p ==> p <= r.1
    ensures r.0.Err? ==> r.0.message == "Mark not set"
  {
    var (res, q) := LineSpecAsWritten(str, p, env);
    if res == Ok(None) then (res, p) else (res, q)
  }

  /** Both read the same line; they differ only in where the stream is left. */
  lemma LineSpecSameLine(str: string, p: int, env: LineEnv)
    ensures LineSpec(str, p, env).0 == LineSpecAsWritten(str, p, env).0
    ensures LineSpec(str, p, env).0 != Ok(None) ==> LineSpec(str, p, env).1 == LineSpecAsWritten(str, p, env).1
  {
  }

  /** As written, a line specification at the end of the input moves the stream one
      character back. */
  lemma AsWrittenBacksUpAtEnd(str: string, p: int, env: LineEnv)
    requires p >= |str|
    ensures LineSpecAsWritten(str, p, env) == (Ok(None), p - 1)
  {
    assert Slice(str, p) == [];
  }

  /** Before the end of the input the two agree: an unrecognised character is read
      and put back. */
  lemma LineSpecAgreesBeforeEnd(str: string, p: int, env: LineEnv)
    requires 0 <= p < |str|
    ensures LineSpec(str, p, env) == LineSpecAsWritten(str, p, env)
  {
  }

  /** A line number `N` gives line `N - 1` and consumes only the digits: an offset
      after it is not applied. */
  lemma NumberLineSpec(n: nat, rest: string, env: LineEnv)
    requires rest == [] || !IsDigit(rest[0])
    ensures LineSpec(Decimal(n) + rest, 0, env) == (Ok(Some(n - 1)), |Decimal(n)|)
  {
    var s := Decimal(n) + rest;
    PrefixRunConcat(Decimal(n), rest, IsDigit);
    assert s[..|Decimal(n)|] == Decimal(n);
  }

  /** `.` reads the cursor's line, adjusted by the offset that follows. */
  lemma DotLineSpec(k: int, rest: string, env: LineEnv)
    requires rest == [] || !IsDigit(rest[0])
    ensures LineSpec("." + OffsetText(k) + rest, 0, env) == (Ok(Some(env.cursorLine + k)), 1 + |OffsetText(k)|)
  {
    OffsetRoundTrip(".", k, rest, env.cursorLine);
    assert Slice("." + OffsetText(k) + rest, 0) == "." + OffsetText(k) + rest;
  }

  /** `$` reads the last line, adjusted by the offset that follows. */
  lemma DollarLineSpec(k: int, rest: string, env: LineEnv)
    requires rest == [] || !IsDigit(rest[0])
    ensures LineSpec("$" + OffsetText(k) + rest, 0, env) == (Ok(Some(env.lastLine + k)), 1 + |OffsetText(k)|)
  {
    OffsetRoundTrip("$", k, rest, env.lastLine);
    assert Slice("$" + OffsetText(k) + rest, 0) == "$" + OffsetText(k) + rest;
  }

  /** Where a line is found, the two agree. */
  lemma LineFound(str: string, p: int, env: LineEnv, line: int, q: int)
    requires LineSpecAsWritten(str, p, env) == (Ok(Some(line)), q)
    ensures LineSpec(str, p, env) == (Ok(Some(line)), q)
  {
  }

  /** A leading sign is put back and read as an offset. */
  lemma SignFirst(str: string, env: LineEnv)
    requires str != [] && (str[0] == '+' || str[0] == '-')
    ensures LineSpecAsWritten(str, 0, env) == AtLine(OffsetSpec(str, 0, env.cursorLine))
  {
    assert Slice(str, 0) == str;
    assert DigitRun(str).None?;
    assert NextChar(str, 0) == Some(str[0]) && NextPos(str, 0) == 1;
  }

  lemma OffsetAtStart(k: int, rest: string, line: int)
    requires rest == [] || !IsDigit(rest[0])
    ensures OffsetSpec(OffsetText(k) + rest, 0, line) == (line + k, |OffsetText(k)|)
  {
    var digits := Decimal(if k < 0 then -k else k);
    var sign := if k < 0 then '-' else '+';
    var str := OffsetText(k) + rest;
    assert str[0..] == [sign] + digits + rest;
    OffsetFrom(str, 0, sign, digits, rest, line);
    assert OffsetSpec(str, 0, line).0 == line + k;
    assert OffsetSpec(str, 0, line).1 == |OffsetText(k)|;
  }

  lemma SignWritten(k: int, rest: string, env: LineEnv)
    requires rest == [] || !IsDigit(rest[0])
    ensures LineSpecAsWritten(OffsetText(k) + rest, 0, env) == (Ok(Some(env.cursorLine + k)), |OffsetText(k)|)
  {
    var str := OffsetText(k) + rest;
    OffsetAtStart(k, rest, env.cursorLine);
    assert str[0] == OffsetText(k)[0];
    SignFirst(str, env);
  }

  /** A bare offset is put back and read relative to the cursor's line. */
  lemma SignLineSpec(k: int, rest: string, env: LineEnv)
    requires rest == [] || !IsDigit(rest[0])
    ensures LineSpec(OffsetText(k) + rest, 0, env) == (Ok(Some(env.cursorLine + k)), |OffsetText(k)|)
  {
    SignWritten(k, rest, env);
    LineFound(OffsetText(k) + rest, 0, env, env.cursorLine + k, |OffsetText(k)|);
  }

  /** `.` with no offset after it is the cursor's line itself. */
  lemma BareDotLineSpec(rest: string, env: LineEnv)
    requires SignedDigitRun(rest).None?
    ensures LineSpec("." + rest, 0, env) == (Ok(Some(env.cursorLine)), 1)
  {
    assert Slice("." + rest, 0) == "." + rest;
    assert Slice("." + rest, 1) == rest;
  }

  /** `'x` reads mark `x`: an unset mark is an error, and a `'` at the end of the
      input gives nothing with the stream put back on the `'`. */
  lemma MarkLineSpec(x: char, rest: string, env: LineEnv)
    requires rest == [] || (!IsDigit(rest[0]) && rest[0] != '+' && rest[0] != '-')
    ensures env.markLine([x]).None? ==> LineSpec(['\'', x] + rest, 0, env).0 == Err("Mark not set")
    ensures env.markLine([x]).Some? ==> LineSpec(['\'', x] + rest, 0, env) == (Ok(Some(env.markLine([x]).value)), 2)
    ensures LineSpec("'", 0, env) == (Ok(None), 0)
    ensures LineSpecAsWritten("'", 0, env) == (Ok(None), 0)
  {
    var s := ['\'', x] + rest;
    assert Slice(s, 2) == rest;
  }

  /** Characters that start no line specification give nothing, the stream unmoved. */
  lemma NoLineSpec(str: string, p: int, env: LineEnv)
    requires 0 <= p < |str|
    requires !IsDigit(str[p]) && str[p] !in {'.', '$', '\'', '+', '-'}
    ensures LineSpec(str, p, env) == (Ok(None), p)
  {
  }

  // ---------------------------------------------------------------------
  // Whole-input parse

  /** What `parseInput_` fills in, and where it leaves the stream. */
  datatype Parsed = Parsed(line: Option<int>, lineEnd: Option<int>, commandName: string, pos: int)

  /** The command name at `p`: a word, `!!`, `@@` or one of `!#&*<=>@~`, or else
      the rest of the line. */
  function CommandNameAt(str: string, p: int): (name: string)
    ensures StartsWith(Slice(str, p), name)
  {
    var token := CommandNameToken(Slice(str, p));
    if token.Some? then token.value else LineText(Slice(str, p))
  }

  /** The parse result with the command name read at `p`. */
  function NameFrom(str: string, p: int, line: Option<int>, lineEnd: Option<int>): Parsed {
    var name := CommandNameAt(str, p);
    Parsed(line, lineEnd, name, p + |name|)
  }

  /** `parseInput_` on a stream over `str`, from `p` on: skip `:`s, read `%` or a
      line specification (and a second after `,`), then the command name. */
  function ParseInputSpec(str: string, p: int, env: LineEnv): (r: Result<Parsed>)
    ensures r.Ok? && r.value.lineEnd.Some? ==> r.value.line.Some?
    ensures r.Err? ==> r.message == "Mark not set"
  {
    var range := RangeSpec(str, EatWhileEnd(str, Exactly(":"), p), env);
    if range.Err? then Err(range.message)
    else Ok(NameFrom(str, range.value.pos, range.value.line, range.value.lineEnd))
  }

  /** A parsed range and the position after it. */
  datatype Range = Range(line: Option<int>, lineEnd: Option<int>, pos: int)

  /** The range part of `parseInput_`, from `p`: `%`, or a line specification and,
      after `,`, a second one. */
  function RangeSpec(str: string, p: int, env: LineEnv): (r: Result<Range>)
    ensures r.Ok? && r.value.lineEnd.Some? ==> r.value.line.Some?
    ensures r.Err? ==> r.message == "Mark not set"
  {
    if CharAt(str, p) == "%" then Ok(Range(Some(env.firstLine), Some(env.lastLine), p + 1))
    else LineRangeSpec(str, p, env)
  }

  /** The range part after a `%` was not found. */
  function LineRangeSpec(str: string, p: int, env: LineEnv): (r: Result<Range>)
    ensures r.Ok? && r.value.lineEnd.Some? ==> r.value.line.Some?
    ensures r.Err? ==> r.message == "Mark not set"
  {
    var first := LineSpec(str, p, env);
    if first.0.Err? then Err(first.0.message)
    else RangeEndSpec(str, first.0.value, first.1, env)
  }

  /** After the first line specification, read at `p1`: the second one, after `,`. */
  function RangeEndSpec(str: string, line: Option<int>, p1: int, env: LineEnv): (r: Result<Range>)
    ensures r.Ok? ==> r.value.line == line
    ensures r.Ok? && r.value.lineEnd.Some? ==> line.Some?
    ensures r.Err? ==> r.message == "Mark not set"
  {
    if line.Some? && CharAt(str, p1) == "," then
      var second := LineSpec(str, p1 + 1, env);
      if second.0.Err? then Err(second.0.message)
      else Ok(Range(line, second.0.value, second.1))
    else Ok(Range(line, None, p1))
  }

  /** `%` stands for the whole file; a second line is read only after `,`. */
  lemma RangeForms(str: string, p: int, env: LineEnv)
    ensures var p0 := EatWhileEnd(str, Exactly(":"), p);
      var r := ParseInputSpec(str, p, env);
      && (CharAt(str, p0) == "%" ==> r.Ok? && r.value.line == Some(env.firstLine) && r.value.lineEnd == Some(env.lastLine))
      && (CharAt(str, p0) != "%" && r.Ok? && r.value.lineEnd.Some? ==>
            r.value.line.Some? && CharAt(str, LineSpec(str, p0, env).1) == ",")
      && (r.Ok? && r.value.lineEnd.Some? ==> r.value.line.Some?)
  {
  }

  /** A run of `:` in front of the input changes nothing that is parsed: the parse
      sees the same input after them. */
  lemma LeadingColonsSkipped(colons: string, s: string, env: LineEnv)
    requires forall i :: 0 <= i < |colons| ==> colons[i] == ':'
    ensures EatWhileEnd(colons + s, Exactly(":"), 0) == |colons| + EatWhileEnd(s, Exactly(":"), 0)
  {
    ColonsEaten(colons, s, 0);
  }

  lemma {:induction false} ColonsEaten(colons: string, s: string, i: nat)
    requires forall k :: 0 <= k < |colons| ==> colons[k] == ':'
    requires i <= |colons|
    ensures EatWhileEnd(colons + s, Exactly(":"), i) == |colons| + EatWhileEnd(s, Exactly(":"), 0)
    decreases |colons| - i
  {
    var t := colons + s;
    if i < |colons| {
      assert CharAt(t, i) == ":";
      ColonsEaten(colons, s, i + 1);
    } else {
      ColonsShift(colons, s, 0);
    }
  }

  lemma {:induction false} ColonsShift(colons: string, s: string, j: nat)
    requires j <= |s|
    ensures EatWhileEnd(colons + s, Exactly(":"), |colons| + j) == |colons| + EatWhileEnd(s, Exactly(":"), j)
    decreases |s| - j
  {
    var t := colons + s;
    assert CharAt(t, |colons| + j) == CharAt(s, j);
    if j < |s| && CharAt(s, j) == ":" {
      ColonsShift(colons, s, j + 1);
    }
  }

  /** `parseCommandArgs_` from `p`: the rest of the line as `argString` (unless at
      the end) and, when it holds more than white space, its words as `args`. */
  function ArgsSpec(str: string, p: int): (r: (Option<string>, Option<seq<string>>))
    ensures r.0.None? <==> p >= |str|
    ensures r.1.Some? ==> r.0.Some? && r.1.value != []
  {
    if p >= |str| then (None, None)
    else
      var argString := LineText(Slice(str, p));
      var words := SplitOnSpace(Trim(argString));
      (Some(argString), if words[0] != "" then Some(words) else None)
  }

  /** `args` is set exactly when the rest of the line is not blank, and then no word
      is empty. */
  lemma ArgsSetWhenNotBlank(str: string, p: int)
    requires p < |str|
    ensures var (argString, args) := ArgsSpec(str, p);
      && argString.Some?
      && (args.Some? <==> Trim(argString.value) != "")
      && (args.Some? ==> forall k :: 0 <= k < |args.value| ==> args.value[k] != "")
  {
    var t := Trim(LineText(Slice(str, p)));
    if t != "" {
      SplitTrimmedWords(t);
    }
  }

  /** A non-empty string with no white space at either end splits into non-empty words. */
  lemma SplitTrimmedWords(t: string)
    requires t != [] && !IsSpace(t[0]) && !IsSpace(t[|t| - 1])
    ensures forall k :: 0 <= k < |SplitOnSpace(t)| ==> SplitOnSpace(t)[k] != ""
  {
    SplitFromWords(t, 0);
  }

  /** The same from a word start `k` onwards. */
  lemma {:induction false} SplitFromWords(t: string, k: nat)
    requires k < |t| && !IsSpace(t[k]) && !IsSpace(t[|t| - 1])
    ensures forall w :: 0 <= w < |SplitFrom(t, k)| ==> SplitFrom(t, k)[w] != ""
    decreases |t| - k
  {
    var i := WordEndAt(t, k);
    assert t[k..i] != [] by { assert i > k; }
    if i < |t| {
      var j := SpaceEndAt(t, i);
      assert j < |t|;
      SplitFromWords(t, j);
      assert SplitFrom(t, k) == [t[k..i]] + SplitFrom(t, j);
      NonEmptyCons(t[k..i], SplitFrom(t, j));
    }
  }

  lemma NonEmptyCons(w: string, ws: seq<string>)
    requires w != "" && forall k :: 0 <= k < |ws| ==> ws[k] != ""
    ensures forall k :: 0 <= k < |[w] + ws| ==> ([w] + ws)[k] != ""
  {
    forall k | 0 <= k < |[w] + ws| ensures ([w] + ws)[k] != "" {
      if k > 0 { assert ([w] + ws)[k] == ws[k - 1]; }
    }
  }

  // ---------------------------------------------------------------------
  // Processing a command line

  /** The parameters handed to the command: `params` after parsing. */
  datatype ExParams = ExParams(
    input: string,
    line: Option<int>,
    lineEnd: Option<int>,
    commandName: string,
    argString: Option<string>,
    args: Option<seq<string>>)

  /** What `_processCommand` does once the `:` register is written. */
  datatype ExOutcome =
    | Failed(message: string)          // shown with `showConfirm` and thrown again
    | NotAnEditorCommand(message: string)
    | FeedKeys(keys: string)           // `exToKey`: each character goes to `handleKey` as a mapping
    | Redispatch(input: string)        // `exToEx`: `processCommand(toInput)`
    | Executed(name: string, params: ExParams, callbackInvoked: bool)

  /** `exCommands[name](adapter, params)`: the message it throws, if it throws. */
  type CommandRunner = (string, ExParams) -> Option<string>

  /** The `:` register's name as `getRegister(":")` resolves it. */
  function HistoryKey(valid: seq<string>): string {
    if IsValidName(valid, ":") then KeyOf(":") else UnnamedName
  }

  /** Runs the resolved command `name` and reports whether the callback was invoked:
      only when the command did not throw and is not possibly asynchronous. */
  function RunSpec(name: string, command: Option<ExCommand>, params: ExParams, hasCallback: bool,
                   run: CommandRunner): (r: ExOutcome)
    ensures r.Failed? <==> run(name, params).Some?
    ensures r.Executed? ==> r.name == name && r.params == params && (r.callbackInvoked ==> hasCallback)
  {
    var thrown := run(name, params);
    if thrown.Some? then Failed(thrown.value)
    else Executed(name, params, (command.None? || !command.value.possiblyAsync) && hasCallback)
  }

  /** `_processCommand(adapter, input, params)`: the outcome, and whether the `:`
      register is put back to its previous text. */
  function ProcessSpec(m: map<string, ExCommand>, input: string, env: LineEnv, hasCallback: bool,
                       run: CommandRunner): (r: (ExOutcome, bool))
    ensures r.0.Executed? ==> r.0.params.input == input && (r.0.params.lineEnd.Some? ==> r.0.params.line.Some?)
  {
    var notFound := NotAnEditorCommand("Not an editor command \":" + input + "\"");
    var parsed := ParseInputSpec(input, 0, env);
    if parsed.Err? then (Failed(parsed.message), false)
    else
      var pr := parsed.value;
      var base := ExParams(input, pr.line, pr.lineEnd, pr.commandName, None, None);
      if pr.commandName == "" then
        if pr.line.Some? then (RunSpec("move", None, base, hasCallback, run), false) else (notFound, false)
      else
        var command := MatchCommandSpec(m, pr.commandName);
        if command.None? then (notFound, false)
        else
          var c := command.value;
          var (argString, args) := ArgsSpec(input, pr.pos);
          var params := base.(argString := argString, args := args);
          (DispatchSpec(input, c, params, hasCallback, run), c.excludeFromCommandHistory)
  }

  /** A resolved command, its arguments parsed: an Ex-to-keys mapping feeds its keys,
      an Ex-to-Ex mapping runs its input, and any other command is run by name. A
      mapping without its target fails the way reading `undefined` does. */
  function DispatchSpec(input: string, c: ExCommand, params: ExParams, hasCallback: bool, run: CommandRunner): (r: ExOutcome)
    ensures r.FeedKeys? ==> c.kind == Some(ExToKey) && Some(r.keys) == c.toKeys
    ensures r.Redispatch? ==> c.kind == Some(ExToEx) && Some(r.input) == c.toInput
    ensures r.Executed? ==> && c.kind != Some(ExToKey) && c.kind != Some(ExToEx)
                            && r.name == c.name && r.params == params
                            && (r.callbackInvoked ==> hasCallback && !c.possiblyAsync)
  {
    if c.kind == Some(ExToKey) then (if c.toKeys.Some? then FeedKeys(c.toKeys.value) else Failed("TypeError"))
    else if c.kind == Some(ExToEx) then (if c.toInput.Some? then Redispatch(c.toInput.value) else Failed("TypeError"))
    else if c.name == "" then NotAnEditorCommand("Not an editor command \":" + input + "\"")
    else RunSpec(c.name, Some(c), params, hasCallback, run)
  }

  /** The `:` register after `_processCommand`: set to the input, then put back to
      its previous text for commands excluded from the history. */
  function HistoryAfter(v: map<string, RegVal>, valid: seq<string>, input: string, restore: bool): (r: map<string, RegVal>)
    ensures HistoryKey(valid) in r
    ensures Text(r[HistoryKey(valid)]) == if restore then Text(Get(v, HistoryKey(valid))) else input
    ensures forall k :: k in v && k != HistoryKey(valid) ==> k in r && r[k] == v[k]
  {
    var key := HistoryKey(valid);
    var before := Get(v, key);
    var written := SetTextVal(before, input, false, false);
    v[key := if restore then SetTextVal(written, Text(before), false, false) else written]
  }

  /** One pass of `_processCommand` as a function of the input and of whether a
      callback came with the parameters: its outcome, and whether the `:` register
      is put back. */
  type Pass = (string, bool) -> (ExOutcome, bool)

  /** The pass of the dispatcher with command map `m` in the editor `env`. */
  function PassOf(m: map<string, ExCommand>, env: LineEnv, run: CommandRunner): (p: Pass)
    ensures forall input, hasCallback :: p(input, hasCallback) == ProcessSpec(m, input, env, hasCallback, run)
  {
    (input: string, hasCallback: bool) => ProcessSpec(m, input, env, hasCallback, run)
  }

  /** `_processCommand` with its Ex-to-Ex re-dispatch: the mapping's input is
      processed again, without the caller's parameters, on the registers the outer
      pass left. `fuel` bounds the chain, which the source follows without end
      when mappings name each other in a cycle. */
  function ProcessChain(pass: Pass, v: map<string, RegVal>, valid: seq<string>, input: string,
                        hasCallback: bool, fuel: nat): (r: (ExOutcome, map<string, RegVal>))
    decreases fuel
    ensures HistoryKey(valid) in r.1
    ensures forall n :: n in v && n != HistoryKey(valid) ==> n in r.1 && r.1[n] == v[n]
    ensures r.0.Redispatch? ==> |ChainInputs(pass, input, hasCallback, fuel)| == fuel + 1
  {
    var (outcome, restore) := pass(input, hasCallback);
    var after := HistoryAfter(v, valid, input, restore);
    if outcome.Redispatch? && fuel > 0 then ProcessChain(pass, after, valid, outcome.input, false, fuel - 1)
    else (outcome, after)
  }

  /** The inputs the chain processes, the typed one first. */
  function ChainInputs(pass: Pass, input: string, hasCallback: bool, fuel: nat): (r: seq<string>)
    decreases fuel
    ensures |r| >= 1 && r[0] == input
  {
    var outcome := pass(input, hasCallback).0;
    [input] + if outcome.Redispatch? && fuel > 0 then ChainInputs(pass, outcome.input, false, fuel - 1) else []
  }

  /** The input of the chain's last pass, and whether that pass puts the
      history register's previous text back. */
  function ChainLast(pass: Pass, input: string, hasCallback: bool, fuel: nat): (string, bool)
    decreases fuel
  {
    var (outcome, restore) := pass(input, hasCallback);
    if outcome.Redispatch? && fuel > 0 then ChainLast(pass, outcome.input, false, fuel - 1)
    else (input, restore)
  }

  /** After an Ex-to-Ex mapping the `:` register no longer holds the typed input
      but what the inner call wrote: the chain's outcome is the inner input's, on
      the registers the outer pass left. */
  lemma RedispatchRunsInner(pass: Pass, v: map<string, RegVal>, valid: seq<string>, input: string,
                            hasCallback: bool, fuel: nat)
    requires fuel > 0 && pass(input, hasCallback).0.Redispatch?
    ensures var (outcome, restore) := pass(input, hasCallback);
      ProcessChain(pass, v, valid, input, hasCallback, fuel)
        == ProcessChain(pass, HistoryAfter(v, valid, input, restore), valid, outcome.input, false, fuel - 1)
  {
  }

  /** The history of a whole chain: the `:` register ends with one of the inputs
      the chain processed, or with the text it had before the typed command. */
  lemma {:induction false} ChainHistory(pass: Pass, v: map<string, RegVal>, valid: seq<string>,
                                         input: string, hasCallback: bool, fuel: nat)
    ensures var text := Text(ProcessChain(pass, v, valid, input, hasCallback, fuel).1[HistoryKey(valid)]);
      text in ChainInputs(pass, input, hasCallback, fuel) || text == Text(Get(v, HistoryKey(valid)))
    decreases fuel
  {
    var (outcome, restore) := pass(input, hasCallback);
    if outcome.Redispatch? && fuel > 0 {
      ChainHistory(pass, HistoryAfter(v, valid, input, restore), valid, outcome.input, false, fuel - 1);
    }
  }

  /** `ChainLast` names the last input the chain processes. */
  lemma {:induction false} ChainLastIsLastInput(pass: Pass, input: string, hasCallback: bool, fuel: nat)
    ensures var inputs := ChainInputs(pass, input, hasCallback, fuel);
      ChainLast(pass, input, hasCallback, fuel).0 == inputs[|inputs| - 1]
    decreases fuel
  {
    var outcome := pass(input, hasCallback).0;
    if outcome.Redispatch? && fuel > 0 {
      ChainLastIsLastInput(pass, outcome.input, false, fuel - 1);
    }
  }

  /** When the last pass of the chain keeps its input in the history, the `:`
      register ends with that input. */
  lemma {:induction false} ChainHistoryLast(pass: Pass, v: map<string, RegVal>, valid: seq<string>,
                                             input: string, hasCallback: bool, fuel: nat)
    ensures var (last, restore) := ChainLast(pass, input, hasCallback, fuel);
      !restore ==> Text(ProcessChain(pass, v, valid, input, hasCallback, fuel).1[HistoryKey(valid)]) == last
    decreases fuel
  {
    var (outcome, restore) := pass(input, hasCallback);
    if outcome.Redispatch? && fuel > 0 {
      ChainHistoryLast(pass, HistoryAfter(v, valid, input, restore), valid, outcome.input, false, fuel - 1);
    }
  }

  /** An Ex-to-Ex mapping whose target is an ordinary command: the `:` register
      ends with the mapping's input, not with the typed one, and the outcome is
      the target's. */
  lemma ExToExHistory(m: map<string, ExCommand>, v: map<string, RegVal>, valid: seq<string>, input: string,
                      env: LineEnv, hasCallback: bool, run: CommandRunner, fuel: nat)
    requires fuel > 0 && ProcessSpec(m, input, env, hasCallback, run).0.Redispatch?
    requires var t := ProcessSpec(m, input, env, hasCallback, run).0.input;
      !ProcessSpec(m, t, env, false, run).0.Redispatch? && !ProcessSpec(m, t, env, false, run).1
    ensures var t := ProcessSpec(m, input, env, hasCallback, run).0.input;
      var r := ProcessChain(PassOf(m, env, run), v, valid, input, hasCallback, fuel);
      && Text(r.1[HistoryKey(valid)]) == t
      && r.0 == ProcessSpec(m, t, env, false, run).0
  {
    var pass := PassOf(m, env, run);
    var t := pass(input, hasCallback).0.input;
    RedispatchRunsInner(pass, v, valid, input, hasCallback, fuel);
    ChainHistoryLast(pass, v, valid, input, hasCallback, fuel);
    assert ChainLast(pass, input, hasCallback, fuel) == ChainLast(pass, t, false, fuel - 1);
  }

  /** Putting the previous text back onto the written `:` register. */
  lemma HistoryRestored(v0: map<string, RegVal>, v1: map<string, RegVal>, valid: seq<string>,
                        input: string, previous: string)
    requires v1 == HistoryAfter(v0, valid, input, false)
    requires previous == Text(Get(v0, HistoryKey(valid)))
    ensures v1[HistoryKey(valid) := SetTextVal(v1[HistoryKey(valid)], previous, false, false)]
      == HistoryAfter(v0, valid, input, true)
  {
  }

  /** The history rule of one pass: the `:` register holds the raw input, even
      when parsing throws or the name does not resolve, and keeps its previous text
      only for a resolved command excluded from the history. */
  lemma HistoryRule(m: map<string, ExCommand>, v: map<string, RegVal>, valid: seq<string>, input: string,
                    env: LineEnv, hasCallback: bool, run: CommandRunner)
    ensures var (outcome, restore) := ProcessSpec(m, input, env, hasCallback, run);
      var after := HistoryAfter(v, valid, input, restore);
      && Text(after[HistoryKey(valid)]) == (if restore then Text(Get(v, HistoryKey(valid))) else input)
      && (forall n :: n in v && n != HistoryKey(valid) ==> after[n] == v[n])
      && (ParseInputSpec(input, 0, env).Err? ==> !restore && outcome.Failed?)
      && (restore ==> (&& ParseInputSpec(input, 0, env).Ok?
                       && var name := ParseInputSpec(input, 0, env).value.commandName;
                       && MatchCommandSpec(m, name).Some?
                       && MatchCommandSpec(m, name).value.excludeFromCommandHistory))
  {
  }

  /** With only a range and no name the command is `move`; a name that resolves to
      nothing is reported as not an editor command, with the input quoted. */
  lemma ResolutionRule(m: map<string, ExCommand>, input: string, env: LineEnv, hasCallback: bool, run: CommandRunner)
    requires ParseInputSpec(input, 0, env).Ok?
    ensures var pr := ParseInputSpec(input, 0, env).value;
      var (outcome, _) := ProcessSpec(m, input, env, hasCallback, run);
      && (pr.commandName == "" && pr.line.Some? && run("move", ExParams(input, pr.line, pr.lineEnd, "", None, None)).None? ==>
            outcome.Executed? && outcome.name == "move" && outcome.callbackInvoked == hasCallback)
      && (pr.commandName == "" && pr.line.None? ==> outcome == NotAnEditorCommand("Not an editor command \":" + input + "\""))
      && (pr.commandName != "" && MatchCommandSpec(m, pr.commandName).None? ==>
            outcome == NotAnEditorCommand("Not an editor command \":" + input + "\""))
  {
  }

  /** `registers` leaves the `:` register as it was, while `reg` and its history
      flags come straight from the default table. */
  lemma RegistersExcludedFromHistory()
    ensures MatchCommandSpec(DefaultCommandMap, "reg") == Some(DefaultExCommands[19])
    ensures DefaultExCommands[19].name == "registers" && DefaultExCommands[19].excludeFromCommandHistory
  {
    assert "reg"[..3] == "reg";
  }

  /** The line number `1` at the start of `1,` is line 0, read up to the `,`. */
  lemma OneCommaFirstLine(env: LineEnv)
    ensures LineSpecAsWritten("1,", 0, env) == (Ok(Some(0)), 1)
    ensures LineSpec("1,", 0, env) == (Ok(Some(0)), 1)
  {
    assert "1," == "1" + ",";
    DigitRunOf("1", ",");
    assert Slice("1,", 0) == "1,";
    assert DigitsValue("1") == 1 by { assert "1"[..0] == ""; }
  }

  /** The input `1,` read as written: the second line specification at the end of the
      input moves the stream back onto the `,`, which then becomes the command name
      and resolves to nothing. */
  lemma OneCommaAsWritten(env: LineEnv)
    ensures LineSpecAsWritten("1,", 2, env) == (Ok(None), 1)
    ensures NameFrom("1,", 1, Some(0), None).commandName == ","
    ensures MatchCommandSpec(DefaultCommandMap, ",").None?
  {
    AsWrittenBacksUpAtEnd("1,", 2, env);
    CommaName();
    CommaUnknown();
  }

  /** From the `,` of `1,` the command name read is `,`. */
  lemma CommaName()
    ensures NameFrom("1,", 1, Some(0), None).commandName == ","
  {
    assert Slice("1,", 1) == ",";
    assert CommandNameToken(",").None?;
    assert PrefixRun(",", NotLineTerminator) == 1;
    assert ","[..1] == ",";
  }

  /** No default command is named by `,`. */
  lemma CommaUnknown()
    ensures MatchCommandSpec(DefaultCommandMap, ",").None?
  {
    assert "," !in DefaultCommandMap;
    assert ","[..1] == ",";
    assert !Qualifies(DefaultCommandMap, ",", 1);
    assert MatchFrom(DefaultCommandMap, ",", 1) == MatchFrom(DefaultCommandMap, ",", 0);
  }

  /** The input `1,` as intended: both line specifications are read, the command
      name is empty, and the command is `move` to line 0. */
  lemma OneCommaMoves(env: LineEnv, m: map<string, ExCommand>, hasCallback: bool, run: CommandRunner)
    ensures ParseInputSpec("1,", 0, env) == Ok(Parsed(Some(0), None, "", 2))
    ensures run("move", ExParams("1,", Some(0), None, "", None, None)).None? ==>
      ProcessSpec(m, "1,", env, hasCallback, run).0 == Executed("move", ExParams("1,", Some(0), None, "", None, None), hasCallback)
  {
    assert EatWhileEnd("1,", Exactly(":"), 0) == 0;
    OneCommaFirstLine(env);
    assert Slice("1,", 2) == "";
    assert LineSpec("1,", 2, env) == (Ok(None), 2);
    assert CharAt("1,", 1) == ",";
  }

  // ---------------------------------------------------------------------
  // map / unmap

  /** `lhs != ":" && lhs.charAt(0) == ":"`: the side that names an Ex command. */
  predicate IsExName(s: string) {
    s != ":" && CharAt(s, 0) == ":"
  }

  /** `map(lhs, rhs, ctx)`: the result, the new command map and the new key map. */
  function MapSpec(cm: map<string, ExCommand>, entries: seq<KeyMapping>, lhs: string, rhs: string,
                   ctx: Option<Context>): (r: (Result<()>, map<string, ExCommand>, seq<KeyMapping>))
    ensures r.0.Err? <==> IsExName(lhs) && ctx.Some?
    ensures r.1 == cm || r.2 == entries
  {
    if IsExName(lhs) then
      if ctx.Some? then (Err("Mode not supported for ex mappings"), cm, entries)
      else
        var name := lhs[1..];
        var command :=
          if IsExName(rhs) then ExCommand(name, Some(ExToEx), None, false, false, None, Some(rhs[1..]), true)
          else ExCommand(name, Some(ExToKey), None, false, false, Some(rhs), None, true);
        (Ok(()), cm[name := command], entries)
    else
      var mapping :=
        if IsExName(rhs) then KeyMapping(lhs, KeyToEx, ctx, None, Some(rhs[1..]), "")
        else KeyMapping(lhs, KeyToKey, ctx, Some(rhs), None, "");
      (Ok(()), cm, [mapping] + entries)
  }

  /** The first entry `unmap` would remove: equal keys and the identical context. */
  function FirstMapping(entries: seq<KeyMapping>, keys: string, ctx: Option<Context>, from: nat): (r: Option<nat>)
    requires from <= |entries|
    ensures r.Some? ==> from <= r.value < |entries| && entries[r.value].keys == keys && entries[r.value].context == ctx
    ensures r.Some? ==> forall j :: from <= j < r.value ==> !(entries[j].keys == keys && entries[j].context == ctx)
    ensures r.None? ==> forall j :: from <= j < |entries| ==> !(entries[j].keys == keys && entries[j].context == ctx)
    decreases |entries| - from
  {
    if from == |entries| then None
    else if entries[from].keys == keys && entries[from].context == ctx then Some(from)
    else FirstMapping(entries, keys, ctx, from + 1)
  }

  /** `unmap(lhs, ctx)`: whether something was removed, the new command map and the
      new key map. */
  function UnmapSpec(cm: map<string, ExCommand>, entries: seq<KeyMapping>, lhs: string,
                     ctx: Option<Context>): (r: (Result<bool>, map<string, ExCommand>, seq<KeyMapping>))
    ensures r.0 != Ok(true) ==> r.1 == cm && r.2 == entries
    ensures r.0 == Ok(true) ==> || (|r.1.Keys| + 1 == |cm.Keys| && r.2 == entries)
                                || (r.1 == cm && |r.2| + 1 == |entries|)
  {
    if IsExName(lhs) then
      if ctx.Some? then (Err("Mode not supported for ex mappings"), cm, entries)
      else
        var name := lhs[1..];
        if name in cm && cm[name].user then (Ok(true), cm - {name}, entries) else (Ok(false), cm, entries)
    else
      var i := FirstMapping(entries, lhs, ctx, 0);
      if i.None? then (Ok(false), cm, entries)
      else (Ok(true), cm, entries[..i.value] + entries[i.value + 1..])
  }

  /** Ex mappings take no mode; other mappings go in front of the key map, and an Ex
      mapping is a user command stored under the name after the `:`. */
  lemma MapShapes(cm: map<string, ExCommand>, entries: seq<KeyMapping>, lhs: string, rhs: string, ctx: Option<Context>)
    ensures var (r, cm', entries') := MapSpec(cm, entries, lhs, rhs, ctx);
      && (IsExName(lhs) && ctx.Some? ==> r.Err? && cm' == cm && entries' == entries)
      && (IsExName(lhs) && ctx.None? ==>
            && r.Ok? && entries' == entries && cm'.Keys == cm.Keys + {lhs[1..]}
            && cm'[lhs[1..]].user && cm'[lhs[1..]].name == lhs[1..]
            && (IsExName(rhs) <==> cm'[lhs[1..]].kind == Some(ExToEx)))
      && (!IsExName(lhs) ==>
            && r.Ok? && cm' == cm && |entries'| == |entries| + 1 && entries'[1..] == entries
            && entries'[0].keys == lhs && entries'[0].context == ctx
            && (IsExName(rhs) <==> entries'[0].kind == KeyToEx))
  {
  }

  /** `unmap` removes a user Ex command and nothing else; a built-in one stays, and
      naming a mode for an Ex mapping throws. */
  lemma UnmapOnlyUser(cm: map<string, ExCommand>, entries: seq<KeyMapping>, lhs: string, c: Context)
    requires IsExName(lhs)
    ensures UnmapSpec(cm, entries, lhs, Some(c)) == (Err("Mode not supported for ex mappings"), cm, entries)
    ensures var (r, cm', entries') := UnmapSpec(cm, entries, lhs, None);
      && entries' == entries
      && (r == Ok(true) <==> lhs[1..] in cm && cm[lhs[1..]].user)
      && (r == Ok(true) ==> cm' == cm - {lhs[1..]})
      && (r != Ok(true) ==> cm' == cm)
  {
  }

  /** A key mapping just added is the one `unmap` with the same keys and mode
      removes, which gives back the key map as it was. */
  lemma UnmapUndoesMap(cm: map<string, ExCommand>, entries: seq<KeyMapping>, lhs: string, rhs: string, ctx: Option<Context>)
    requires !IsExName(lhs)
    ensures var (_, cm1, entries1) := MapSpec(cm, entries, lhs, rhs, ctx);
      UnmapSpec(cm1, entries1, lhs, ctx) == (Ok(true), cm, entries)
  {
    var (_, cm1, entries1) := MapSpec(cm, entries, lhs, rhs, ctx);
    assert FirstMapping(entries1, lhs, ctx, 0) == Some(0);
    assert entries1[..0] + entries1[1..] == entries;
  }

  /** An Ex mapping of a fresh name is removed again by `unmap`. */
  lemma UnmapUndoesExMap(cm: map<string, ExCommand>, entries: seq<KeyMapping>, lhs: string, rhs: string)
    requires IsExName(lhs) && lhs[1..] !in cm
    ensures var (_, cm1, entries1) := MapSpec(cm, entries, lhs, rhs, None);
      UnmapSpec(cm1, entries1, lhs, None) == (Ok(true), cm, entries)
  {
    var (_, cm1, _) := MapSpec(cm, entries, lhs, rhs, None);
    assert cm1 - {lhs[1..]} == cm;
  }

  /** Key `unmap` removes the first entry with equal keys and the identical mode and
      keeps the others in order. */
  lemma UnmapRemovesFirst(cm: map<string, ExCommand>, entries: seq<KeyMapping>, lhs: string, ctx: Option<Context>)
    requires !IsExName(lhs)
    ensures UnmapSpec(cm, entries, lhs, ctx).1 == cm
    ensures UnmapSpec(cm, entries, lhs, ctx).0 == Ok(true) <==>
      exists j :: 0 <= j < |entries| && entries[j].keys == lhs && entries[j].context == ctx
    ensures UnmapSpec(cm, entries, lhs, ctx).0 == Ok(true) ==>
      exists j :: (&& 0 <= j < |entries| && entries[j].keys == lhs && entries[j].context == ctx
                   && (forall k :: 0 <= k < j ==> !(entries[k].keys == lhs && entries[k].context == ctx))
                   && UnmapSpec(cm, entries, lhs, ctx).2 == entries[..j] + entries[j + 1..])
    ensures UnmapSpec(cm, entries, lhs, ctx).0 != Ok(true) ==> UnmapSpec(cm, entries, lhs, ctx).2 == entries
  {
    var i := FirstMapping(entries, lhs, ctx, 0);
    if i.Some? {
      UnmapFound(cm, entries, lhs, ctx, i.value);
    } else {
      UnmapNotFound(cm, entries, lhs, ctx);
    }
  }

  lemma UnmapFound(cm: map<string, ExCommand>, entries: seq<KeyMapping>, lhs: string, ctx: Option<Context>, j: nat)
    requires !IsExName(lhs) && FirstMapping(entries, lhs, ctx, 0) == Some(j)
    ensures UnmapSpec(cm, entries, lhs, ctx) == (Ok(true), cm, entries[..j] + entries[j + 1..])
    ensures 0 <= j < |entries| && entries[j].keys == lhs && entries[j].context == ctx
    ensures forall k :: 0 <= k < j ==> !(entries[k].keys == lhs && entries[k].context == ctx)
  {
  }

  lemma UnmapNotFound(cm: map<string, ExCommand>, entries: seq<KeyMapping>, lhs: string, ctx: Option<Context>)
    requires !IsExName(lhs) && FirstMapping(entries, lhs, ctx, 0).None?
    ensures UnmapSpec(cm, entries, lhs, ctx) == (Ok(false), cm, entries)
    ensures forall j :: 0 <= j < |entries| ==> !(entries[j].keys == lhs && entries[j].context == ctx)
  {
  }

  // ---------------------------------------------------------------------
  // The object

  class ExCommandDispatcher {
    var commandMap: map<string, ExCommand>

    /** A dispatcher with the default command map. */
    constructor ()
      ensures commandMap == DefaultCommandMap
    {
      commandMap := map[];
      new;
      BuildCommandMap();
    }

    /** `buildCommandMap_()` */
    method BuildCommandMap()
      modifies this`commandMap
      ensures commandMap == BuildMap(DefaultExCommands, |DefaultExCommands|)
      ensures commandMap == DefaultCommandMap
    {
      commandMap := map[];
      for i := 0 to |DefaultExCommands|
        invariant commandMap == BuildMap(DefaultExCommands, i)
      {
        var command := DefaultExCommands[i];
        commandMap := commandMap[KeyFor(command) := command];
      }
      DefaultMapBuilt();
    }

    /** `matchCommand_(commandName)` */
    method MatchCommand(commandName: string) returns (r: Option<ExCommand>)
      ensures r == MatchCommandSpec(commandMap, commandName)
    {
      var i := |commandName|;
      while i > 0
        invariant 0 <= i <= |commandName|
        invariant MatchFrom(commandMap, commandName, i) == MatchCommandSpec(commandMap, commandName)
      {
        var prefix := Substring(commandName, 0, i);
        assert prefix == commandName[..i];
        if prefix in commandMap {
          var command := commandMap[prefix];
          if StartsWith(command.name, commandName) {
            return Some(command);
          }
        }
        i := i - 1;
      }
      return None;
    }

    /** `parseLineSpecOffset_(stream, line)` */
    method ParseLineSpecOffset(s: StringStream, line: int) returns (r: int)
      modifies s`pos
      ensures (r, s.pos) == OffsetSpec(s.str, old(s.pos), line)
    {
      var offsetMatch := s.MatchSignedDigits();
      r := line;
      if offsetMatch.Some? {
        var offset := DigitsValue(offsetMatch.value.digits);
        if offsetMatch.value.sign == Some('-') {
          r := r - offset;
        } else {
          r := r + offset;
        }
      }
    }

    /** `parseLineSpec_(adapter, stream)` exactly as written. */
    method ParseLineSpecAsWritten(s: StringStream, env: LineEnv) returns (r: Result<Option<int>>)
      modifies s`pos
      ensures (r, s.pos) == LineSpecAsWritten(s.str, old(s.pos), env)
    {
      var numberMatch := s.MatchDigits();
      if numberMatch.Some? {
        return Ok(Some(DigitsValue(numberMatch.value) - 1));
      }
      var c := s.Next();
      r := ParseAfterFirst(s, c, env);
    }

    /** The branches of `parseLineSpec_` on the character `next()` returned. */
    method ParseAfterFirst(s: StringStream, c: Option<char>, env: LineEnv) returns (r: Result<Option<int>>)
      modifies s`pos
      ensures (r, s.pos) == AfterFirst(s.str, c, old(s.pos), env)
    {
      if c == Some('.') {
        var line := ParseLineSpecOffset(s, env.cursorLine);
        r := Ok(Some(line));
      } else if c == Some('$') {
        var line := ParseLineSpecOffset(s, env.lastLine);
        r := Ok(Some(line));
      } else if c == Some('\'') {
        r := ParseAfterMark(s, env);
      } else if c == Some('-') || c == Some('+') {
        s.BackUp(1);
        var line := ParseLineSpecOffset(s, env.cursorLine);
        r := Ok(Some(line));
      } else {
        s.BackUp(1);
        r := Ok(None);
      }
    }

    /** The mark branch of `parseLineSpec_`, after the quote. */
    method ParseAfterMark(s: StringStream, env: LineEnv) returns (r: Result<Option<int>>)
      modifies s`pos
      ensures (r, s.pos) == AfterMark(s.str, old(s.pos), env)
    {
      var markName := s.Next();
      if markName.None? {
        s.BackUp(1);
        return Ok(None);
      }
      var markPos := env.markLine([markName.value]);
      if markPos.None? {
        return Err("Mark not set");
      }
      var line := ParseLineSpecOffset(s, markPos.value);
      r := Ok(Some(line));
    }

    /** `parseLineSpec_` as intended: when no line is found, the stream goes back to
        where it was. */
    method ParseLineSpec(s: StringStream, env: LineEnv) returns (r: Result<Option<int>>)
      modifies s`pos
      ensures (r, s.pos) == LineSpec(s.str, old(s.pos), env)
    {
      var start := s.pos;
      r := ParseLineSpecAsWritten(s, env);
      if r == Ok(None) {
        s.BackUp(s.pos - start);
      }
    }

    /** The command-name step of `parseInput_`. */
    method ParseCommandName(s: StringStream) returns (name: string)
      modifies s`pos
      ensures name == CommandNameAt(s.str, old(s.pos)) && s.pos == old(s.pos) + |name|
    {
      var commandMatch := s.MatchCommandName();
      if commandMatch.Some? {
        name := commandMatch.value;
      } else {
        name := s.MatchLine();
      }
    }

    /** `parseInput_(adapter, stream, result)` */
    method ParseInput(s: StringStream, env: LineEnv) returns (r: Result<Parsed>)
      modifies s`pos
      ensures r == ParseInputSpec(s.str, old(s.pos), env)
      ensures r.Ok? ==> s.pos == r.value.pos
    {
      var _ := s.EatWhile(Exactly(":"));
      ghost var p0 := s.pos;
      var range := ParseRange(s, env);
      assert range == RangeSpec(s.str, p0, env);
      if range.Err? {
        return Err(range.message);
      }
      var name := ParseCommandName(s);
      r := Ok(Parsed(range.value.line, range.value.lineEnd, name, s.pos));
      assert r.value == NameFrom(s.str, range.value.pos, range.value.line, range.value.lineEnd);
    }

    /** The range part of `parseInput_`; the returned position is the stream's. */
    method ParseRange(s: StringStream, env: LineEnv) returns (r: Result<Range>)
      modifies s`pos
      ensures r == RangeSpec(s.str, old(s.pos), env)
      ensures r.Ok? ==> s.pos == r.value.pos
    {
      var percent := s.Eat(Exactly("%"));
      if percent.Some? {
        return Ok(Range(Some(env.firstLine), Some(env.lastLine), s.pos));
      }
      r := ParseLineRange(s, env);
    }

    /** A line specification and, after `,`, a second one. */
    method ParseLineRange(s: StringStream, env: LineEnv) returns (r: Result<Range>)
      modifies s`pos
      ensures r == LineRangeSpec(s.str, old(s.pos), env)
      ensures r.Ok? ==> s.pos == r.value.pos
    {
      ghost var f := LineSpec(s.str, s.pos, env);
      var first := ParseLineSpec(s, env);
      assert (first, s.pos) == f;
      if first.Err? {
        return Err(first.message);
      }
      r := ParseRangeEnd(s, env, first.value);
    }

    /** After the first line specification: `,` and a second one, if the first was given. */
    method ParseRangeEnd(s: StringStream, env: LineEnv, line: Option<int>) returns (r: Result<Range>)
      modifies s`pos
      ensures r == RangeEndSpec(s.str, line, old(s.pos), env)
      ensures r.Ok? ==> s.pos == r.value.pos
    {
      ghost var p1 := s.pos;
      if line.Some? {
        var comma := s.Eat(Exactly(","));
        if comma.Some? {
          assert CharAt(s.str, p1) == "," && s.pos == p1 + 1;
          ghost var g := LineSpec(s.str, s.pos, env);
          var second := ParseLineSpec(s, env);
          assert (second, s.pos) == g;
          if second.Err? {
            return Err(second.message);
          }
          return Ok(Range(line, second.value, s.pos));
        }
        assert CharAt(s.str, p1) != ",";
      }
      return Ok(Range(line, None, s.pos));
    }

    /** `parseCommandArgs_(stream, params, command)`: `argString` and `args`. */
    method ParseCommandArgs(s: StringStream) returns (argString: Option<string>, args: Option<seq<string>>)
      modifies s`pos
      ensures (argString, args) == ArgsSpec(s.str, old(s.pos))
    {
      if s.Eol() {
        return None, None;
      }
      var rest := s.MatchLine();
      argString := Some(rest);
      var words := SplitOnSpace(Trim(rest));
      args := if |words| > 0 && words[0] != "" then Some(words) else None;
    }

    /** `_processCommand(adapter, input, params)`: `rc` is the session's register
        controller, `vim` the editor's vim state, `env` the editor's answers,
        `hasCallback` whether a callback came with the parameters and `run` the
        command bodies. Visual mode is left first and the `:` register written;
        putting its old text back is done after the dispatch, which touches no
        register. An Ex-to-Ex mapping processes its input again, up to `fuel` times. */
    method ProcessCommand(rc: RegisterController, vim: VimState, input: string, env: LineEnv, hasCallback: bool,
                          run: CommandRunner, fuel: nat) returns (outcome: ExOutcome)
      requires rc.Valid()
      modifies rc`registers, rc.registers.Values, vim`visualMode
      decreases fuel
      ensures rc.Valid() && rc.validRegisters == old(rc.validRegisters)
      ensures !vim.visualMode
      ensures (outcome, rc.View()) == ProcessChain(PassOf(commandMap, env, run), old(rc.View()), rc.validRegisters,
                                                   input, hasCallback, fuel)
    {
      LeaveVisualMode(vim);
      ghost var v0 := rc.View();
      outcome := ProcessPass(rc, input, env, hasCallback, run);
      if outcome.Redispatch? && fuel > 0 {
        RedispatchRunsInner(PassOf(commandMap, env, run), v0, rc.validRegisters, input, hasCallback, fuel);
        outcome := ProcessCommand(rc, vim, outcome.input, env, false, run, fuel - 1);
      }
    }

    /** `if (vim.visualMode) exitVisualMode(adapter)`, as far as the mode flag goes. */
    static method LeaveVisualMode(vim: VimState)
      modifies vim`visualMode
      ensures !vim.visualMode
    {
      if vim.visualMode {
        vim.visualMode := false;
      }
    }

    /** One pass of `_processCommand`, up to running the command or returning the
        mapping it leads to. */
    method ProcessPass(rc: RegisterController, input: string, env: LineEnv, hasCallback: bool,
                       run: CommandRunner) returns (outcome: ExOutcome)
      requires rc.Valid()
      modifies rc`registers, rc.registers.Values
      ensures rc.Valid() && rc.validRegisters == old(rc.validRegisters)
      ensures outcome == ProcessSpec(commandMap, input, env, hasCallback, run).0
      ensures rc.View() == HistoryAfter(old(rc.View()), rc.validRegisters, input,
                                        ProcessSpec(commandMap, input, env, hasCallback, run).1)
      ensures forall r :: r in rc.registers.Values ==> r in old(rc.registers.Values) || fresh(r)
    {
      ghost var v0 := rc.View();
      var historyKey := HistoryKey(rc.validRegisters);
      var previousCommand := RecordHistory(rc, input);
      ghost var v1 := rc.View();
      var restore;
      outcome, restore := Dispatch(input, env, hasCallback, run);
      assert rc.View() == v1;
      if restore {
        RestoreHistory(rc, historyKey, input, previousCommand);
        HistoryRestored(v0, v1, rc.validRegisters, input, previousCommand);
      }
    }

    /** Everything `_processCommand` does after writing the `:` register: the
        outcome, and whether the register's old text is to be put back. */
    method Dispatch(input: string, env: LineEnv, hasCallback: bool, run: CommandRunner)
      returns (outcome: ExOutcome, restore: bool)
      ensures (outcome, restore) == ProcessSpec(commandMap, input, env, hasCallback, run)
    {
      var inputStream := new StringStream(input, None);
      var parsed := ParseInput(inputStream, env);
      if parsed.Err? {
        return Failed(parsed.message), false;
      }
      var pr := parsed.value;
      var params := ExParams(input, pr.line, pr.lineEnd, pr.commandName, None, None);
      if pr.commandName == "" {
        if pr.line.Some? {
          outcome := Run("move", None, params, hasCallback, run);
        } else {
          outcome := NotAnEditorCommand("Not an editor command \":" + input + "\"");
        }
        return outcome, false;
      }
      var command := MatchCommand(pr.commandName);
      if command.None? {
        return NotAnEditorCommand("Not an editor command \":" + input + "\""), false;
      }
      outcome := RunMatched(inputStream, input, command.value, params, hasCallback, run);
      restore := command.value.excludeFromCommandHistory;
    }

    /** A resolved command: its arguments are parsed, then it is mapped or run. */
    method RunMatched(inputStream: StringStream, input: string, c: ExCommand, params: ExParams,
                      hasCallback: bool, run: CommandRunner) returns (outcome: ExOutcome)
      modifies inputStream`pos
      ensures var (argString, args) := ArgsSpec(inputStream.str, old(inputStream.pos));
        outcome == DispatchSpec(input, c, params.(argString := argString, args := args), hasCallback, run)
    {
      var argString, args := ParseCommandArgs(inputStream);
      var withArgs := params.(argString := argString, args := args);
      if c.kind == Some(ExToKey) {
        outcome := if c.toKeys.Some? then FeedKeys(c.toKeys.value) else Failed("TypeError");
      } else if c.kind == Some(ExToEx) {
        outcome := if c.toInput.Some? then Redispatch(c.toInput.value) else Failed("TypeError");
      } else if c.name == "" {
        outcome := NotAnEditorCommand("Not an editor command \":" + input + "\"");
      } else {
        outcome := Run(c.name, Some(c), withArgs, hasCallback, run);
      }
    }

    /** Runs a resolved command and invokes the callback when it is due. */
    method Run(name: string, command: Option<ExCommand>, params: ExParams, hasCallback: bool, run: CommandRunner)
      returns (outcome: ExOutcome)
      ensures outcome == RunSpec(name, command, params, hasCallback, run)
    {
      var thrown := run(name, params);
      if thrown.Some? {
        return Failed(thrown.value);
      }
      var callbackInvoked := false;
      if (command.None? || !command.value.possiblyAsync) && hasCallback {
        callbackInvoked := true;
      }
      outcome := Executed(name, params, callbackInvoked);
    }

    /** `map(lhs, rhs, ctx)`: an Ex-side mapping goes into the command map, any other
        in front of the key map. */
    method Map(keymap: Keymap, lhs: string, rhs: string, ctx: Option<Context>) returns (r: Result<()>)
      modifies this`commandMap, keymap`entries
      ensures (r, commandMap, keymap.entries) == MapSpec(old(commandMap), old(keymap.entries), lhs, rhs, ctx)
    {
      if IsExName(lhs) {
        if ctx.Some? {
          return Err("Mode not supported for ex mappings");
        }
        var commandName := lhs[1..];
        if IsExName(rhs) {
          commandMap := commandMap[commandName := ExCommand(commandName, Some(ExToEx), None, false, false, None, Some(rhs[1..]), true)];
        } else {
          commandMap := commandMap[commandName := ExCommand(commandName, Some(ExToKey), None, false, false, Some(rhs), None, true)];
        }
      } else {
        var mapping;
        if IsExName(rhs) {
          mapping := KeyMapping(lhs, KeyToEx, ctx, None, Some(rhs[1..]), "");
        } else {
          mapping := KeyMapping(lhs, KeyToKey, ctx, Some(rhs), None, "");
        }
        keymap.MapCommand(mapping);
      }
      return Ok(());
    }

    /** `unmap(lhs, ctx)`; `Ok(false)` stands for the `undefined` it returns when
        nothing was removed. */
    method Unmap(keymap: Keymap, lhs: string, ctx: Option<Context>) returns (r: Result<bool>)
      modifies this`commandMap, keymap`entries
      ensures (r, commandMap, keymap.entries) == UnmapSpec(old(commandMap), old(keymap.entries), lhs, ctx)
    {
      if IsExName(lhs) {
        if ctx.Some? {
          return Err("Mode not supported for ex mappings");
        }
        var commandName := lhs[1..];
        if commandName in commandMap && commandMap[commandName].user {
          commandMap := commandMap - {commandName};
          return Ok(true);
        }
        return Ok(false);
      }
      var i := 0;
      while i < |keymap.entries|
        invariant 0 <= i <= |keymap.entries| && keymap.entries == old(keymap.entries)
        invariant FirstMapping(keymap.entries, lhs, ctx, i) == FirstMapping(keymap.entries, lhs, ctx, 0)
      {
        if lhs == keymap.entries[i].keys && keymap.entries[i].context == ctx {
          keymap.entries := keymap.entries[..i] + keymap.entries[i + 1..];
          return Ok(true);
        }
        i := i + 1;
      }
      return Ok(false);
    }

    /** `getRegister(":")`, its text, then `setText(input)`. */
    method RecordHistory(rc: RegisterController, input: string) returns (previous: string)
      requires rc.Valid()
      modifies rc`registers, rc.registers.Values
      ensures rc.Valid() && rc.validRegisters == old(rc.validRegisters)
      ensures previous == Text(Get(old(rc.View()), HistoryKey(rc.validRegisters)))
      ensures rc.View() == HistoryAfter(old(rc.View()), rc.validRegisters, input, false)
      ensures HistoryKey(rc.validRegisters) in rc.registers
      ensures var r := rc.registers[HistoryKey(rc.validRegisters)];
        r in old(rc.registers.Values) || fresh(r)
      ensures forall r :: r in rc.registers.Values ==> r in old(rc.registers.Values) || fresh(r)
    {
      ghost var v0 := rc.View();
      var register := rc.GetRegister(":");
      var key := HistoryKey(rc.validRegisters);
      assert key in rc.registers && rc.registers[key] == register;
      previous := register.ToString();
      ghost var v1 := rc.View();
      assert v1 == v0[key := Get(v0, key)];
      WriteStored(rc, key, input);
    }

    /** `setText(previousCommand)` on the `:` register. */
    method RestoreHistory(rc: RegisterController, key: string, input: string, previous: string)
      requires rc.Valid() && key in rc.registers
      modifies rc.registers[key]
      ensures rc.Valid()
      ensures rc.View() == old(rc.View())[key := SetTextVal(old(rc.View())[key], previous, false, false)]
    {
      WriteStored(rc, key, previous);
    }
  }

  /** `register.setText(text)` on the register stored under `key`. */
  method WriteStored(rc: RegisterController, key: string, text: string)
    requires rc.Valid() && key in rc.registers
    modifies rc.registers[key]
    ensures rc.Valid()
    ensures rc.View() == old(rc.View())[key := SetTextVal(old(rc.View())[key], text, false, false)]
  {
    var register := rc.registers[key];
    register.SetText(text, false, false);
    assert forall n :: n in rc.registers && n != key ==> rc.registers[n] != register;
    OnlyOneChanged(rc.registers, old(rc.View()), key);
  }
}
