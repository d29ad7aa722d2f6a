/**
 Character-level helpers standing in for Kotlin's `String.equals(other, ignoreCase = true)`
 and `String.isBlank()`.

 Case folding is ASCII only: 'A'..'Z' fold to 'a'..'z' and every other character compares
 exactly. Kotlin folds the whole of Unicode; on ASCII names the two agree.
 */
module Text {

  /** ASCII lower-casing of one character. */
  function LowerChar(c: char): char {
    if 'A' <= c <= 'Z' then (c as int + 32) as char else c
  }

  /** `a.equals(b, ignoreCase = true)`, restricted to ASCII case folding. */
  predicate EqIgnoreCase(a: string, b: string) {
    |a| == |b| && forall i | 0 <= i < |a| :: LowerChar(a[i]) == LowerChar(b[i])
  }

  /** Exact equality implies equality ignoring case. */
  lemma EqIgnoreCaseReflexive(a: string, b: string)
    requires a == b
    ensures EqIgnoreCase(a, b)
  {
  }

  /** Ignoring case, a matches b exactly when b matches a. */
  lemma EqIgnoreCaseSymmetric(a: string, b: string)
    ensures EqIgnoreCase(a, b) <==> EqIgnoreCase(b, a)
  {
  }

  /** Two names each matching a third ignoring case match each other. */
  lemma EqIgnoreCaseTransitive(a: string, b: string, c: string)
    ensures EqIgnoreCase(a, b) && EqIgnoreCase(b, c) ==> EqIgnoreCase(a, c)
  {
  }

  /**
   Kotlin's `Char.isWhitespace()` on the JVM: Java's `Character.isWhitespace`
   (U+0009..U+000D, U+001C..U+001F and the space separators other than no-break spaces)
   together with `Character.isSpaceChar` (every space, line and paragraph separator).
   */
  predicate IsWhitespace(c: char) {
    var n := c as int;
    || 0x09 <= n <= 0x0D
    || 0x1C <= n <= 0x20
    || n == 0xA0
    || n == 0x1680
    || 0x2000 <= n <= 0x200A
    || n == 0x2028 || n == 0x2029
    || n == 0x202F || n == 0x205F
    || n == 0x3000
  }

  /** `String.isBlank()`: empty, or whitespace only. */
  predicate IsBlank(s: string) {
    forall i | 0 <= i < |s| :: IsWhitespace(s[i])
  }
}
