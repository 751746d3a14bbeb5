/** The command-line cursor of string-stream.ts: a string and a position that the
    scanner methods advance. The few regular expressions the Ex parser hands to
    `match` are written out as character-class scanners. */
module StringStreams {
  import opened Common

  /** What `eat` and `eatWhile` accept: a string compared with `===`, or a
      character test (the function form, and the one-character regular expressions). */
  datatype CharMatcher = Exactly(s: string) | Satisfies(test: char -> bool)

  /** The `ok` test of `eat` applied to `ch`, the result of `charAt(pos)`. */
  predicate Accepts(m: CharMatcher, ch: string) {
    match m
    case Exactly(s) => ch == s
    case Satisfies(f) => ch != [] && f(ch[0])
  }

  /** The position `next()` leaves behind when called at `p`. */
  function NextPos(s: string, p: int): int { if p < |s| then p + 1 else p }

  /** The character `next()` returns when called at `p` (`charAt` gives "" before the start). */
  function NextChar(s: string, p: int): Option<char> {
    if 0 <= p < |s| then Some(s[p]) else None
  }

  /** The position at which `eatWhile(m)` stops when started at `p`. */
  function EatWhileEnd(s: string, m: CharMatcher, p: int): (q: int)
    ensures q >= p
    decreases |s| - p
  {
    var ch := CharAt(s, p);
    if !Accepts(m, ch) then p
    else if ch == "" then p + 1
    else EatWhileEnd(s, m, p + 1)
  }

  /** A matcher that rejects the empty string stops `eatWhile` at the first
      character it rejects, after accepting every character on the way. */
  lemma {:induction false} EatWhileSpan(s: string, m: CharMatcher, p: int)
    requires !Accepts(m, "")
    ensures var q := EatWhileEnd(s, m, p);
      && (forall i :: p <= i < q ==> 0 <= i < |s| && Accepts(m, [s[i]]))
      && !Accepts(m, CharAt(s, q))
    decreases |s| - p
  {
    var ch := CharAt(s, p);
    if Accepts(m, ch) {
      EatWhileSpan(s, m, p + 1);
    }
  }

  /** `str.indexOf(ch, from)`: the first index at or after `from` (clamped) holding `c`. */
  function IndexOf(s: string, c: char, from: int): (r: int)
    ensures r == -1 || (Clamp(from, |s|) <= r < |s| && s[r] == c)
    ensures r == -1 ==> forall k :: Clamp(from, |s|) <= k < |s| ==> s[k] != c
    ensures r != -1 ==> forall k :: Clamp(from, |s|) <= k < r ==> s[k] != c
    decreases |s| - Clamp(from, |s|)
  {
    var f := Clamp(from, |s|);
    if f == |s| then -1
    else if s[f] == c then f
    else IndexOf(s, c, f + 1)
  }

  /** `str.slice(a, b)` */
  function Slice2(s: string, a: int, b: int): string {
    var x := if a < 0 then Clamp(|s| + a, |s|) else Clamp(a, |s|);
    var y := if b < 0 then Clamp(|s| + b, |s|) else Clamp(b, |s|);
    if x < y then s[x..y] else ""
  }

  /** The `cased` helper of `match`. */
  function Cased(caseInsensitive: bool, s: string): string {
    if caseInsensitive then ToLower(s) else s
  }

  // -----------------------------------------------------------------------
  // The regular expressions passed to `match`, applied to `str.slice(pos)`

  /** `/^(\d+)/`: the leading digit run, if there is one. */
  function DigitRun(rest: string): (r: Option<string>)
    ensures r.Some? ==> r.value != [] && AllDigits(r.value) && StartsWith(rest, r.value)
    ensures r.Some? ==> |r.value| == |rest| || !IsDigit(rest[|r.value|])
    ensures r.None? <==> rest == [] || !IsDigit(rest[0])
  {
    var n := PrefixRun(rest, IsDigit);
    if n == 0 then None else Some(rest[..n])
  }

  /** A digit run followed by a non-digit is matched exactly. */
  lemma DigitRunOf(digits: string, rest: string)
    requires digits != [] && AllDigits(digits)
    requires rest == [] || !IsDigit(rest[0])
    ensures DigitRun(digits + rest) == Some(digits)
  {
    PrefixRunConcat(digits, rest, IsDigit);
    assert (digits + rest)[..|digits|] == digits;
  }

  /** `/^([+-])?(\d+)/`: an optional sign and a digit run. */
  datatype SignedRun = SignedRun(sign: Option<char>, digits: string)

  function SignedDigitRun(rest: string): (r: Option<SignedRun>)
    ensures r.Some? ==> r.value.digits != [] && AllDigits(r.value.digits)
    ensures r.Some? && r.value.sign.Some? ==>
      && rest != []
      && (r.value.sign.value == '+' || r.value.sign.value == '-')
      && rest[0] == r.value.sign.value
      && StartsWith(rest[1..], r.value.digits)
    ensures r.Some? && r.value.sign.None? ==> StartsWith(rest, r.value.digits)
  {
    if rest != [] && (rest[0] == '+' || rest[0] == '-') && DigitRun(rest[1..]).Some? then
      Some(SignedRun(Some(rest[0]), DigitRun(rest[1..]).value))
    else if DigitRun(rest).Some? then
      Some(SignedRun(None, DigitRun(rest).value))
    else None
  }

  /** A sign and a digit run followed by a non-digit are matched exactly. */
  lemma SignedDigitRunOf(sign: char, digits: string, rest: string)
    requires sign == '+' || sign == '-'
    requires digits != [] && AllDigits(digits)
    requires rest == [] || !IsDigit(rest[0])
    ensures SignedDigitRun([sign] + digits + rest) == Some(SignedRun(Some(sign), digits))
  {
    var s := [sign] + digits + rest;
    assert s[1..] == digits + rest;
    DigitRunOf(digits, rest);
  }

  function SignedRunLength(r: SignedRun): nat {
    (if r.sign.Some? then 1 else 0) + |r.digits|
  }

  predicate IsCommandPunct(c: char) {
    c == '!' || c == '#' || c == '&' || c == '*' || c == '<' || c == '=' || c == '>'
    || c == '@' || c == '~'
  }

  /** `/^(\w+|!!|@@|[!#&*<=>@~])/`, alternatives tried left to right. */
  function CommandNameToken(rest: string): (r: Option<string>)
    ensures r.Some? ==> r.value != [] && StartsWith(rest, r.value)
    ensures r.None? <==> rest == [] || (!IsWordChar(rest[0]) && !IsCommandPunct(rest[0]))
  {
    var w := PrefixRun(rest, IsWordChar);
    if w > 0 then Some(rest[..w])
    else if |rest| >= 2 && rest[..2] == "!!" then Some("!!")
    else if |rest| >= 2 && rest[..2] == "@@" then Some("@@")
    else if rest != [] && IsCommandPunct(rest[0]) then Some(rest[..1])
    else None
  }

  // The pattern `.*`: everything up to the first line terminator.
  function LineText(rest: string): (r: string)
    ensures StartsWith(rest, r)
    ensures forall i :: 0 <= i < |r| ==> !IsLineTerminator(r[i])
    ensures |r| == |rest| || IsLineTerminator(rest[|r|])
  {
    rest[..PrefixRun(rest, NotLineTerminator)]
  }

  /** What `inner` of `hideFirstChars` computes from what it can see of the stream
      (`str`, `pos`, `lineStart`): the value it returns or the error it throws, and
      the position it leaves the stream at in either case. */
  datatype InnerStep<T> = InnerStep(outcome: Result<T>, pos: int)

  class StringStream {
    const str: string
    const tabSize: int
    var pos: int
    var start: int
    var lastColumnPos: int
    var lastColumnValue: int
    var lineStart: int

    constructor (str: string, tabSize: Option<int>)
      ensures this.str == str
      ensures this.tabSize == if tabSize.Some? && tabSize.value != 0 then tabSize.value else 8
      ensures pos == 0 && start == 0 && lineStart == 0
      ensures lastColumnPos == 0 && lastColumnValue == 0
    {
      this.str := str;
      this.tabSize := if tabSize.Some? && tabSize.value != 0 then tabSize.value else 8;
      pos, start, lineStart := 0, 0, 0;
      lastColumnPos, lastColumnValue := 0, 0;
    }

    /** At or past the end of the string. */
    predicate Eol()
      reads this
    {
      pos >= |str|
    }

    /** At the (possibly hidden) start of the line. */
    predicate Sol()
      reads this
    {
      pos == lineStart
    }

    /** `peek()`: a reading function, so the position stays where it is. */
    function Peek(): (r: Option<char>)
      reads this
      ensures r.Some? <==> 0 <= pos < |str|
      ensures r.None? <==> Eol() || pos < 0
      ensures r.Some? ==> r.value == str[pos]
    {
      if 0 <= pos < |str| then Some(str[pos]) else None
    }

    method Next() returns (r: Option<char>)
      modifies this`pos
      ensures old(pos) < |str| ==> pos == old(pos) + 1
      ensures old(pos) >= |str| ==> pos == old(pos) && r.None?
      ensures r == NextChar(str, old(pos)) && pos == NextPos(str, old(pos))
    {
      r := NextChar(str, pos);
      if pos < |str| {
        pos := pos + 1;
      }
    }

    method Eat(m: CharMatcher) returns (r: Option<string>)
      modifies this`pos
      ensures Accepts(m, CharAt(str, old(pos))) ==>
        pos == old(pos) + 1 && r == Some(CharAt(str, old(pos)))
      ensures !Accepts(m, CharAt(str, old(pos))) ==> pos == old(pos) && r.None?
    {
      var ch := CharAt(str, pos);
      if Accepts(m, ch) {
        pos := pos + 1;
        r := Some(ch);
      } else {
        r := None;
      }
    }

    method EatWhile(m: CharMatcher) returns (advanced: bool)
      modifies this`pos
      ensures pos == EatWhileEnd(str, m, old(pos))
      ensures advanced <==> pos > old(pos)
    {
      var begin := pos;
      var r := Eat(m);
      // `while (this.eat(match)) {}`: loop while `eat` returns a non-empty string
      while r.Some? && r.value != ""
        invariant begin <= pos
        invariant r.Some? && r.value != "" ==> 0 < pos <= |str|
        invariant r.Some? && r.value != "" ==>
          EatWhileEnd(str, m, begin) == EatWhileEnd(str, m, pos)
        invariant !(r.Some? && r.value != "") ==> pos == EatWhileEnd(str, m, begin)
        decreases |str| - pos + (if r.Some? && r.value != "" then 1 else 0)
      {
        r := Eat(m);
      }
      advanced := pos > begin;
    }

    method EatSpace() returns (advanced: bool)
      modifies this`pos
      ensures pos == EatWhileEnd(str, Satisfies(IsSpace), old(pos))
      ensures advanced <==> pos > old(pos)
    {
      var begin := pos;
      while CharAt(str, pos) != "" && IsSpace(CharAt(str, pos)[0])
        invariant begin <= pos
        invariant EatWhileEnd(str, Satisfies(IsSpace), begin) == EatWhileEnd(str, Satisfies(IsSpace), pos)
        decreases |str| - pos
      {
        pos := pos + 1;
      }
      advanced := pos > begin;
    }

    method SkipToEnd()
      modifies this`pos
      ensures pos == |str|
    {
      pos := |str|;
    }

    method SkipTo(ch: char) returns (found: bool)
      modifies this`pos
      ensures found <==> IndexOf(str, ch, old(pos)) != -1
      ensures found ==> pos == IndexOf(str, ch, old(pos))
      ensures !found ==> pos == old(pos)
    {
      var i := IndexOf(str, ch, pos);
      if i > -1 {
        pos := i;
        found := true;
      } else {
        found := false;
      }
    }

    method BackUp(n: int)
      modifies this`pos
      ensures pos == old(pos) - n
    {
      pos := pos - n;
    }

    /** `match(pattern, consume, caseInsensitive)` with a string pattern; `consume` is
        false only when the caller passes `false` explicitly. */
    method MatchString(pattern: string, consume: bool, caseInsensitive: bool) returns (matched: bool)
      modifies this`pos
      ensures matched <==>
        Cased(caseInsensitive, Substring(str, old(pos), old(pos) + |pattern|)) == Cased(caseInsensitive, pattern)
      ensures 0 <= old(pos) <= |str| ==> (matched <==>
        old(pos) + |pattern| <= |str|
        && Cased(caseInsensitive, str[old(pos)..old(pos) + |pattern|]) == Cased(caseInsensitive, pattern))
      ensures pos == if matched && consume then old(pos) + |pattern| else old(pos)
    {
      var sub := Substring(str, pos, pos + |pattern|);
      matched := Cased(caseInsensitive, sub) == Cased(caseInsensitive, pattern);
      if 0 <= pos <= |str| && pos + |pattern| > |str| {
        assert |sub| < |pattern|;
        assert |Cased(caseInsensitive, sub)| < |Cased(caseInsensitive, pattern)|;
      }
      if matched && consume {
        pos := pos + |pattern|;
      }
    }

    /** `match(/^(\d+)/)`, returning the captured digits. */
    method MatchDigits() returns (r: Option<string>)
      modifies this`pos
      ensures r == DigitRun(Slice(str, old(pos)))
      ensures pos == old(pos) + if r.Some? then |r.value| else 0
    {
      r := DigitRun(Slice(str, pos));
      if r.Some? {
        pos := pos + |r.value|;
      }
    }

    /** `match(/^([+-])?(\d+)/)` */
    method MatchSignedDigits() returns (r: Option<SignedRun>)
      modifies this`pos
      ensures r == SignedDigitRun(Slice(str, old(pos)))
      ensures pos == old(pos) + if r.Some? then SignedRunLength(r.value) else 0
    {
      r := SignedDigitRun(Slice(str, pos));
      if r.Some? {
        pos := pos + SignedRunLength(r.value);
      }
    }

    /** `match(/^(\w+|!!|@@|[!#&*<=>@~])/)` */
    method MatchCommandName() returns (r: Option<string>)
      modifies this`pos
      ensures r == CommandNameToken(Slice(str, old(pos)))
      ensures pos == old(pos) + if r.Some? then |r.value| else 0
    {
      r := CommandNameToken(Slice(str, pos));
      if r.Some? {
        pos := pos + |r.value|;
      }
    }

    // `match` with the pattern `.*` (taking `[0]`): it always matches, possibly empty.
    method MatchLine() returns (r: string)
      modifies this`pos
      ensures r == LineText(Slice(str, old(pos)))
      ensures pos == old(pos) + |r|
    {
      r := LineText(Slice(str, pos));
      pos := pos + |r|;
    }

    function Current(): (r: string)
      reads this
      ensures 0 <= start <= pos <= |str| ==> r == str[start..pos]
    {
      Slice2(str, start, pos)
    }

    /** `hideFirstChars(n, inner)`: `inner` runs with the line start moved `n`
        characters right; whether it returns or throws, the line start is put back,
        while the position stays wherever `inner` moved it. */
    method HideFirstChars<T>(n: int, inner: (string, int, int) -> InnerStep<T>)
      returns (r: Result<T>)
      modifies this`pos, this`lineStart
      ensures lineStart == old(lineStart)
      ensures r == inner(str, old(pos), old(lineStart) + n).outcome
      ensures pos == inner(str, old(pos), old(lineStart) + n).pos
    {
      lineStart := lineStart + n;
      var step := inner(str, pos, lineStart);
      pos := step.pos;
      r := step.outcome;
      lineStart := lineStart - n;
    }
  }

  /** `next()` followed by `backUp(1)` restores the position when not at the end. */
  method NextThenBackUp(s: StringStream) returns (c: Option<char>)
    requires s.pos < |s.str|
    modifies s`pos
    ensures s.pos == old(s.pos)
    ensures c == NextChar(s.str, old(s.pos))
  {
    c := s.Next();
    s.BackUp(1);
  }
}
