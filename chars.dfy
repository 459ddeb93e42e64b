/**
 * Character classes and string helpers of the JavaScript runtime that the interview
 * component relies on: the regular-expression classes `\s`, `\d` and `\w`, the
 * bracket classes of its patterns, ASCII lower-casing and `String.prototype.trim`.
 */
module Chars {

  /** JavaScript's `\s`: the WhiteSpace and LineTerminator code points. `trim` strips the same set. */
  predicate IsSpace(c: char) {
    c == '\t' || c == '\n' || c == '\U{B}' || c == '\U{C}' || c == '\r' || c == ' '
    || c == '\U{A0}' || c == '\U{1680}' || ('\U{2000}' <= c <= '\U{200A}')
    || c == '\U{2028}' || c == '\U{2029}' || c == '\U{202F}' || c == '\U{205F}'
    || c == '\U{3000}' || c == '\U{FEFF}'
  }

  predicate IsAsciiLetter(c: char) { 'A' <= c <= 'Z' || 'a' <= c <= 'z' }

  /** JavaScript's `\d` (ASCII digits only). */
  predicate IsDigit(c: char) { '0' <= c <= '9' }

  /** JavaScript's `\w`, which decides where `\b` holds. */
  predicate IsWordChar(c: char) { IsAsciiLetter(c) || IsDigit(c) || c == '_' }

  /** The character classes the component's patterns are built from. */
  datatype Class =
    | Space          // \s
    | Digit          // \d
    | EmailLocal     // [a-zA-Z0-9._%+-]
    | NameSeparator  // [:\s]
    | NameLetter     // [A-Za-z\s] (the same set under the case-insensitive flag)

  predicate In(k: Class, c: char) {
    match k
    case Space => IsSpace(c)
    case Digit => IsDigit(c)
    case EmailLocal => IsAsciiLetter(c) || IsDigit(c) || c in "._%+-"
    case NameSeparator => c == ':' || IsSpace(c)
    case NameLetter => IsAsciiLetter(c) || IsSpace(c)
  }

  /** Every character of `s` belongs to class `k`. */
  predicate All(k: Class, s: string) {
    forall n | 0 <= n < |s| :: In(k, s[n])
  }

  /** The end of the longest run of class-`k` characters starting at `i`: what a greedy `[k]*` consumes. */
  function RunEnd(k: Class, s: string, i: nat): (j: nat)
    requires i <= |s|
    ensures i <= j <= |s|
    ensures All(k, s[i..j])
    ensures j == |s| || !In(k, s[j])
    decreases |s| - i
  {
    if i == |s| || !In(k, s[i]) then i
    else
      var j := RunEnd(k, s, i + 1);
      assert s[i..j] == [s[i]] + s[i + 1..j];
      j
  }

  function LowerChar(c: char): char {
    if 'A' <= c <= 'Z' then (c as int + 32) as char else c
  }

  /** `toLowerCase` restricted to ASCII letters (see README for why that suffices here). */
  function Lower(s: string): string {
    seq(|s|, n requires 0 <= n < |s| => LowerChar(s[n]))
  }

  /** Start of the trailing run of spaces in `s[lo..hi]`. */
  function TrimEnd(s: string, lo: nat, hi: nat): (b: nat)
    requires lo <= hi <= |s|
    ensures lo <= b <= hi
    ensures All(Space, s[b..hi])
    ensures b == lo || !IsSpace(s[b - 1])
    decreases hi
  {
    if hi == lo || !IsSpace(s[hi - 1]) then hi
    else
      var b := TrimEnd(s, lo, hi - 1);
      assert s[b..hi] == s[b..hi - 1] + [s[hi - 1]];
      b
  }

  /** The slice `s[a..b]` that `trim` keeps: everything outside it is space, and it starts and ends with a non-space. */
  function TrimBounds(s: string): (r: (nat, nat))
    ensures r.0 <= r.1 <= |s|
    ensures All(Space, s[..r.0]) && All(Space, s[r.1..])
    ensures r.0 < r.1 ==> !IsSpace(s[r.0]) && !IsSpace(s[r.1 - 1])
    ensures r.0 == r.1 ==> r.1 == |s|
  {
    var a := RunEnd(Space, s, 0);
    assert s[..a] == s[0..a];
    var b := TrimEnd(s, a, |s|);
    assert a < |s| ==> b > a;
    (a, b)
  }

  /**
   * `String.prototype.trim`: the result is a slice of the input with only whitespace
   * around it, and it neither starts nor ends with whitespace.
   */
  function Trim(s: string): (r: string)
    ensures exists a | 0 <= a <= |s| - |r| ::
      r == s[a..a + |r|] && All(Space, s[..a]) && All(Space, s[a + |r|..])
    ensures r == "" || (!IsSpace(r[0]) && !IsSpace(r[|r| - 1]))
    ensures r == "" <==> All(Space, s)
  {
    var (a, b) := TrimBounds(s);
    if a == b then
      assert s == s[..a] + s[b..];
      assert s[a..a + 0] == [] && s[a + 0..] == s[b..];
      s[a..b]
    else
      assert s[a + (b - a)..] == s[b..];
      s[a..b]
  }

  /** Trimming keeps a slice, so every class that holds of the whole string holds of the result. */
  lemma TrimKeepsClass(k: Class, s: string)
    requires All(k, s)
    ensures All(k, Trim(s))
  {
    var (a, b) := TrimBounds(s);
    assert Trim(s) == s[a..b];
  }

  /** `!input.trim()`: the input is empty or whitespace only. */
  function IsBlank(s: string): (blank: bool)
    ensures blank <==> All(Space, s)
  {
    Trim(s) == ""
  }
}
