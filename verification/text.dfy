/** The three string operations of JavaScript that the draft board relies on:
    `trim` (to recognise a blank query), `toLowerCase` (for case-insensitive
    comparison) and `includes` (substring search). Lowering is modelled on
    ASCII letters only. */
module JsText {

  /** The code points `String.prototype.trim` strips: the ECMAScript
      WhiteSpace and LineTerminator characters. */
  predicate IsJsWhitespace(c: char) {
    var n := c as int;
    (0x09 <= n <= 0x0D) || n == 0x20 || n == 0xA0 || n == 0x1680 ||
    (0x2000 <= n <= 0x200A) || n == 0x2028 || n == 0x2029 || n == 0x202F ||
    n == 0x205F || n == 0x3000 || n == 0xFEFF
  }

  /** Every character of `s` is whitespace (the empty string included). */
  predicate AllWhitespace(s: string) {
    forall i :: 0 <= i < |s| ==> IsJsWhitespace(s[i])
  }

  /** Drops the leading whitespace: what remains is a suffix of `s`. */
  function TrimStart(s: string): (r: string)
    ensures |r| <= |s| && r == s[|s| - |r|..]
    ensures AllWhitespace(s[..|s| - |r|])
    ensures r == [] || !IsJsWhitespace(r[0])
    decreases |s|
  {
    if s != [] && IsJsWhitespace(s[0]) then
      var r := TrimStart(s[1..]);
      assert s[..|s| - |r|] == [s[0]] + s[1..][..|s| - 1 - |r|];
      r
    else s
  }

  /** Drops the trailing whitespace: what remains is a prefix of `s`. */
  function TrimEnd(s: string): (r: string)
    ensures r <= s
    ensures AllWhitespace(s[|r|..])
    ensures r == [] || !IsJsWhitespace(r[|r| - 1])
    decreases |s|
  {
    if s != [] && IsJsWhitespace(s[|s| - 1]) then
      var r := TrimEnd(s[..|s| - 1]);
      assert s[|r|..] == s[..|s| - 1][|r|..] + [s[|s| - 1]];
      r
    else s
  }

  /** `s.trim()`: the slice of `s` left after stripping whitespace at both
      ends; it neither starts nor ends with whitespace. */
  function Trim(s: string): (r: string)
    ensures |r| <= |s|
    ensures exists i, j :: WhitespaceAround(s, r, i, j)
    ensures r == [] || (!IsJsWhitespace(r[0]) && !IsJsWhitespace(r[|r| - 1]))
  {
    TrimBounds(s);
    TrimEnd(TrimStart(s))
  }

  /** `r` is `s[i..j]`, and everything of `s` outside it is whitespace. */
  ghost predicate WhitespaceAround(s: string, r: string, i: int, j: int) {
    0 <= i <= j <= |s| && r == s[i..j] && AllWhitespace(s[..i]) && AllWhitespace(s[j..])
  }

  /** Where `trim` cuts: `trim` removes only whitespace, and only at the ends. */
  lemma TrimBounds(s: string)
    ensures exists i, j :: WhitespaceAround(s, TrimEnd(TrimStart(s)), i, j)
  {
    var t := TrimStart(s);
    WhitespaceAroundPrefix(s, t, TrimEnd(t));
  }

  /** Stripping whitespace from the front of `s` to get `t`, then from the
      back of `t` to get `r`, leaves `r` with only whitespace around it in `s`. */
  lemma WhitespaceAroundPrefix(s: string, t: string, r: string)
    requires |t| <= |s| && t == s[|s| - |t|..] && AllWhitespace(s[..|s| - |t|])
    requires r <= t && AllWhitespace(t[|r|..])
    ensures exists i, j :: WhitespaceAround(s, r, i, j)
  {
    var i, j := |s| - |t|, |s| - |t| + |r|;
    assert r == t[..|r|] == s[i..j];
    assert s[j..] == t[|r|..];
    assert WhitespaceAround(s, r, i, j);
  }

  /** `!s.trim()` holds exactly when `s` consists of whitespace only. */
  lemma TrimEmptyIffBlank(s: string)
    ensures Trim(s) == [] <==> AllWhitespace(s)
  {
    var t := TrimStart(s);
    var r := TrimEnd(t);
    if t == [] {
      assert s[..|s|] == s;
    } else {
      assert t[0] == s[|s| - |t|];
    }
  }

  predicate IsUpper(c: char) {
    'A' <= c <= 'Z'
  }

  /** `toLowerCase` on one character, restricted to ASCII letters. */
  function LowerChar(c: char): char {
    if IsUpper(c) then (c as int + ('a' as int - 'A' as int)) as char else c
  }

  /** `s.toLowerCase()`: no capital letter is left, each capital becomes its
      small letter, and every other character stays as it was. */
  function ToLower(s: string): (r: string)
    ensures |r| == |s|
    ensures forall i :: 0 <= i < |r| ==> !IsUpper(r[i])
    ensures forall i :: 0 <= i < |s| && IsUpper(s[i]) ==> 'a' <= r[i] <= 'z' && r[i] as int - s[i] as int == 'a' as int - 'A' as int
    ensures forall i :: 0 <= i < |s| && !IsUpper(s[i]) ==> r[i] == s[i]
  {
    seq(|s|, i requires 0 <= i < |s| => LowerChar(s[i]))
  }

  /** Lowering twice is lowering once. */
  lemma ToLowerIdempotent(s: string)
    ensures ToLower(ToLower(s)) == ToLower(s)
  {
  }

  /** Lowering neither creates nor removes whitespace, so a query and its
      lowered form are blank together. */
  lemma LowerKeepsBlankness(s: string)
    ensures AllWhitespace(ToLower(s)) <==> AllWhitespace(s)
  {
  }

  /** `s.includes(sub)`: `sub` occurs in `s` at some offset. */
  predicate Includes(s: string, sub: string)
    decreases |s|
  {
    sub <= s || (s != [] && Includes(s[1..], sub))
  }

  /** `Includes` means an occurrence at a concrete offset. */
  lemma {:induction false} IncludesAt(s: string, sub: string, k: nat)
    requires k + |sub| <= |s| && s[k..k + |sub|] == sub
    ensures Includes(s, sub)
    decreases k
  {
    if k == 0 {
      assert sub <= s;
    } else {
      assert s[1..][k - 1..k - 1 + |sub|] == sub;
      IncludesAt(s[1..], sub, k - 1);
    }
  }

  /** Conversely, a string that `Includes` `sub` has it at some offset. */
  lemma {:induction false} IncludesOffset(s: string, sub: string) returns (k: nat)
    requires Includes(s, sub)
    ensures k + |sub| <= |s| && s[k..k + |sub|] == sub
    decreases |s|
  {
    if sub <= s {
      k := 0;
    } else {
      var j := IncludesOffset(s[1..], sub);
      k := j + 1;
      assert s[k..k + |sub|] == s[1..][j..j + |sub|];
    }
  }
}
