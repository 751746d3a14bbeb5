/** Shared value types and the JavaScript string primitives the engine relies on
    (charAt, slice, substring, trim, split on whitespace, parseInt of a digit run). */
module Common {

  datatype Option<T> = None | Some(value: T)

  /** A thrown JavaScript `Error`, kept as its message. */
  datatype Result<T> = Ok(value: T) | Err(message: string)

  /** The adapter's zero-based position (`Pos` of common.ts). */
  datatype Pos = Pos(line: int, ch: int)

  // ---------------------------------------------------------------------
  // Character classes of the regular expressions used by the engine

  /** `\d` */
  predicate IsDigit(c: char) { '0' <= c <= '9' }

  /** `[1-9]` */
  predicate IsNonZeroDigit(c: char) { '1' <= c <= '9' }

  /** `\w` */
  predicate IsWordChar(c: char) {
    ('a' <= c <= 'z') || ('A' <= c <= 'Z') || IsDigit(c) || c == '_'
  }

  /** The characters that `.` does not match. */
  predicate IsLineTerminator(c: char) {
    c == '\n' || c == '\r' || c == '\U{2028}' || c == '\U{2029}'
  }

  predicate NotLineTerminator(c: char) { !IsLineTerminator(c) }

  /** `\s`: JavaScript white space and line terminators (also what `trim` strips). */
  predicate IsSpace(c: char) {
    c == ' ' || c == '\t' || c == '\n' || c == '\r' || c == '\U{000B}' || c == '\U{000C}'
    || c == '\U{00A0}' || c == '\U{1680}' || ('\U{2000}' <= c <= '\U{200A}')
    || c == '\U{2028}' || c == '\U{2029}' || c == '\U{202F}' || c == '\U{205F}'
    || c == '\U{3000}' || c == '\U{FEFF}'
  }

  predicate AllDigits(s: string) { forall i :: 0 <= i < |s| ==> IsDigit(s[i]) }

  predicate IsUpperAscii(c: char) { 'A' <= c <= 'Z' }

  /** `isUpperCase` of common.ts: a single upper-case letter. */
  predicate IsUpperCase(s: string) { |s| == 1 && IsUpperAscii(s[0]) }

  function LowerChar(c: char): char {
    if IsUpperAscii(c) then (c as int + 32) as char else c
  }

  /** `toLowerCase`, on the ASCII letters. */
  function ToLower(s: string): (r: string)
    ensures |r| == |s|
    ensures forall i :: 0 <= i < |s| ==> r[i] == LowerChar(s[i])
  {
    if s == [] then [] else [LowerChar(s[0])] + ToLower(s[1..])
  }

  predicate StartsWith(s: string, prefix: string) {
    |prefix| <= |s| && s[..|prefix|] == prefix
  }

  // ---------------------------------------------------------------------
  // JavaScript string access

  /** `str.charAt(i)`: the one-character string at `i`, or "" outside the string. */
  function CharAt(s: string, i: int): (r: string)
    ensures |r| <= 1
    ensures r != [] <==> 0 <= i < |s|
    ensures r != [] ==> r[0] == s[i]
  {
    if 0 <= i < |s| then [s[i]] else ""
  }

  /** `str.slice(p)`: a negative start counts from the end. */
  function Slice(s: string, p: int): (r: string)
    ensures 0 <= p <= |s| ==> r == s[p..]
  {
    if p < 0 then s[if |s| + p < 0 then 0 else |s| + p ..]
    else if p <= |s| then s[p..]
    else ""
  }

  function Clamp(x: int, hi: nat): (r: nat)
    ensures r <= hi
  {
    if x < 0 then 0 else if x > hi then hi else x
  }

  /** `str.substring(a, b)`: both ends clamped into the string, swapped when reversed. */
  function Substring(s: string, a: int, b: int): string {
    var x, y := Clamp(a, |s|), Clamp(b, |s|);
    if x <= y then s[x..y] else s[y..x]
  }

  /** `parts.join("")` */
  function Join(parts: seq<string>): (r: string)
  {
    if parts == [] then "" else Join(parts[..|parts| - 1]) + parts[|parts| - 1]
  }

  lemma JoinAppend(parts: seq<string>, s: string)
    ensures Join(parts + [s]) == Join(parts) + s
  {
    assert (parts + [s])[..|parts|] == parts;
  }

  lemma {:induction false} JoinConcat(a: seq<string>, b: seq<string>)
    ensures Join(a + b) == Join(a) + Join(b)
    decreases |b|
  {
    if b == [] {
      assert a + b == a;
    } else {
      var b' := b[..|b| - 1];
      assert a + b == (a + b') + [b[|b| - 1]];
      JoinAppend(a + b', b[|b| - 1]);
      JoinConcat(a, b');
      JoinAppend(b', b[|b| - 1]);
      assert b == b' + [b[|b| - 1]];
    }
  }

  /** The number written by a run of decimal digits (`parseInt(s, 10)` on such a run). */
  function DigitsValue(s: string): nat
    requires AllDigits(s)
  {
    if s == [] then 0
    else DigitsValue(s[..|s| - 1]) * 10 + (s[|s| - 1] as int - '0' as int)
  }

  /** The decimal spelling of `n`, without leading zeros: what `String(n)` gives. */
  function Decimal(n: nat): (s: string)
    ensures s != [] && AllDigits(s)
    ensures DigitsValue(s) == n
    ensures |s| > 1 ==> IsNonZeroDigit(s[0])
    decreases n
  {
    var d := [('0' as int + n % 10) as char];
    if n < 10 then d
    else
      var init := Decimal(n / 10);
      var s := init + d;
      assert s[..|s| - 1] == init;
      s
  }

  /** A run of characters satisfying `p` followed by a character that does not:
      the run is exactly the first part. */
  lemma {:induction false} PrefixRunConcat(a: string, b: string, p: char -> bool)
    requires forall i :: 0 <= i < |a| ==> p(a[i])
    requires b == [] || !p(b[0])
    ensures PrefixRun(a + b, p) == |a|
    decreases |a|
  {
    if a != [] {
      assert (a + b)[1..] == a[1..] + b;
      PrefixRunConcat(a[1..], b, p);
    } else {
      assert a + b == b;
    }
  }

  function Pow10(n: nat): (r: nat)
    ensures r >= 1
  {
    if n == 0 then 1 else 10 * Pow10(n - 1)
  }

  lemma AllDigitsConcat(a: string, b: string)
    requires AllDigits(a) && AllDigits(b)
    ensures AllDigits(a + b)
  {
    forall i | 0 <= i < |a + b| ensures IsDigit((a + b)[i]) {
      if i < |a| { assert (a + b)[i] == a[i]; } else { assert (a + b)[i] == b[i - |a|]; }
    }
  }

  /** The regrouping of one decimal shift. */
  lemma ShiftRegroup(x: int, p: int, y: int, d: int)
    ensures (x * p + y) * 10 + d == x * (10 * p) + (y * 10 + d)
  {
    calc {
      (x * p + y) * 10 + d;
      (x * p) * 10 + y * 10 + d;
      { assert (x * p) * 10 == x * (10 * p); }
      x * (10 * p) + (y * 10 + d);
    }
  }

  /** Reading two digit runs one after the other: the first is shifted by the second's length. */
  lemma {:induction false} DigitsValueConcat(a: string, b: string)
    requires AllDigits(a) && AllDigits(b)
    ensures AllDigits(a + b)
    ensures DigitsValue(a + b) == DigitsValue(a) * Pow10(|b|) + DigitsValue(b)
    decreases |b|
  {
    AllDigitsConcat(a, b);
    if b != [] {
      var b' := b[..|b| - 1];
      var d := b[|b| - 1] as int - '0' as int;
      assert (a + b)[..|a + b| - 1] == a + b';
      assert (a + b)[|a + b| - 1] == b[|b| - 1];
      assert AllDigits(b');
      DigitsValueConcat(a, b');
      var x, p, y := DigitsValue(a), Pow10(|b'|), DigitsValue(b');
      assert DigitsValue(a + b) == DigitsValue(a + b') * 10 + d;
      assert DigitsValue(a + b') == x * p + y;
      assert Pow10(|b|) == 10 * p;
      assert DigitsValue(b) == y * 10 + d;
      ShiftRegroup(x, p, y, d);
    } else {
      assert a + b == a;
    }
  }

  /** Length of the longest prefix of `s` whose characters all satisfy `p`. */
  function PrefixRun(s: string, p: char -> bool): (n: nat)
    ensures n <= |s|
    ensures forall i :: 0 <= i < n ==> p(s[i])
    ensures n < |s| ==> !p(s[n])
  {
    if s == [] || !p(s[0]) then 0 else 1 + PrefixRun(s[1..], p)
  }

  /** `s.trim()` */
  function Trim(s: string): (r: string)
    ensures r != [] ==> !IsSpace(r[0]) && !IsSpace(r[|r| - 1])
  {
    var a := PrefixRun(s, IsSpace);
    var rest := s[a..];
    var b := SuffixRun(rest, IsSpace);
    rest[..|rest| - b]
  }

  /** Length of the longest suffix of `s` whose characters all satisfy `p`. */
  function SuffixRun(s: string, p: char -> bool): (n: nat)
    ensures n <= |s|
    ensures forall i :: |s| - n <= i < |s| ==> p(s[i])
    ensures n < |s| ==> !p(s[|s| - 1 - n])
  {
    if s == [] || !p(s[|s| - 1]) then 0 else 1 + SuffixRun(s[..|s| - 1], p)
  }

  predicate NoSpace(s: string) { forall i :: 0 <= i < |s| ==> !IsSpace(s[i]) }

  /** The end of the run of non-space characters that starts at `k`. */
  function WordEndAt(s: string, k: nat): (r: nat)
    requires k <= |s|
    ensures k <= r <= |s|
    ensures forall i :: k <= i < r ==> !IsSpace(s[i])
    ensures r < |s| ==> IsSpace(s[r])
    decreases |s| - k
  {
    if k == |s| || IsSpace(s[k]) then k else WordEndAt(s, k + 1)
  }

  /** The end of the run of white space that starts at `k`. */
  function SpaceEndAt(s: string, k: nat): (r: nat)
    requires k <= |s|
    ensures k <= r <= |s|
    ensures forall i :: k <= i < r ==> IsSpace(s[i])
    ensures r < |s| ==> !IsSpace(s[r])
    decreases |s| - k
  {
    if k == |s| || !IsSpace(s[k]) then k else SpaceEndAt(s, k + 1)
  }

  /** The pieces of `s[k..]` between maximal runs of white space. */
  function SplitFrom(s: string, k: nat): (r: seq<string>)
    requires k <= |s|
    ensures |r| >= 1
    ensures forall w :: 0 <= w < |r| ==> NoSpace(r[w])
    decreases |s| - k
  {
    var i := WordEndAt(s, k);
    if i == |s| then [s[k..]]
    else [s[k..i]] + SplitFrom(s, SpaceEndAt(s, i))
  }

  /** `s.split(/\s+/)` */
  function SplitOnSpace(s: string): (r: seq<string>)
    ensures |r| >= 1
    ensures forall w :: 0 <= w < |r| ==> NoSpace(r[w])
  {
    SplitFrom(s, 0)
  }
}
