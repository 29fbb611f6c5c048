/** `String.prototype.trim` as used by the add and edit forms
    (src/Todo.js:110 and :171). */
module Text {

  /** The characters ECMAScript's `trim` strips, by code point: WhiteSpace
      (tab, vertical tab, form feed, space, no-break space, byte order mark and
      the other characters of Unicode category Zs: U+1680, U+2000 to U+200A,
      U+202F, U+205F, U+3000) and LineTerminator (line feed, carriage return,
      U+2028, U+2029). Tab to carriage return are U+0009 to U+000D. */
  predicate IsWhitespace(c: char)
  {
    var n := c as int;
    || 0x9 <= n <= 0xD || n == 0x20 || n == 0xA0 || n == 0x1680
    || 0x2000 <= n <= 0x200A || n == 0x2028 || n == 0x2029 || n == 0x202F
    || n == 0x205F || n == 0x3000 || n == 0xFEFF
  }

  /** All characters of `s` are whitespace. */
  predicate AllWhitespace(s: string)
  {
    forall k :: 0 <= k < |s| ==> IsWhitespace(s[k])
  }

  /** Skips the whitespace of `s` from position `i` on: everything skipped is
      whitespace and the character it stops at, if any, is not. */
  function SkipForward(s: string, i: nat): (j: nat)
    requires i <= |s|
    ensures i <= j <= |s|
    ensures forall k :: i <= k < j ==> IsWhitespace(s[k])
    ensures j == |s| || !IsWhitespace(s[j])
    decreases |s| - i
  {
    if i < |s| && IsWhitespace(s[i]) then SkipForward(s, i + 1) else i
  }

  /** Skips the whitespace of `s` backwards from position `j`, down to `i` at
      most: everything skipped is whitespace and the character before the
      stop, if it is past `i`, is not. */
  function SkipBackward(s: string, i: nat, j: nat): (k: nat)
    requires i <= j <= |s|
    ensures i <= k <= j
    ensures forall m :: k <= m < j ==> IsWhitespace(s[m])
    ensures k == i || !IsWhitespace(s[k - 1])
    decreases j
  {
    if i < j && IsWhitespace(s[j - 1]) then SkipBackward(s, i, j - 1) else j
  }

  /** `s.trim()`: the slice of `s` that starts after its leading whitespace
      and stops before its trailing whitespace, with only whitespace around
      it; it neither starts nor ends with whitespace. */
  function Trim(s: string): (r: string)
    ensures var i := SkipForward(s, 0);
      i + |r| <= |s| && r == s[i..i + |r|]
      && (forall k :: 0 <= k < i ==> IsWhitespace(s[k]))
      && (forall k :: i + |r| <= k < |s| ==> IsWhitespace(s[k]))
    ensures |r| == 0 || (!IsWhitespace(r[0]) && !IsWhitespace(r[|r| - 1]))
  {
    var i := SkipForward(s, 0);
    s[i..SkipBackward(s, i, |s|)]
  }

  /** A submission is rejected exactly when the text is whitespace only. */
  lemma {:induction false} TrimEmptyIff(s: string)
    ensures Trim(s) == [] <==> AllWhitespace(s)
  {
  }

  /** Trimming twice is trimming once. */
  lemma {:induction false} TrimIdempotent(s: string)
    ensures Trim(Trim(s)) == Trim(s)
  {
  }
}
