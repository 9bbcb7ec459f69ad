// Bytes and C strings: `string` holds bytes (characters below 256), and a C
// string ends at its first NUL.  Character classes are those of the C locale.
module Text {
  import opened Wrappers

  predicate IsByte(c: char) { c as int < 256 }
  predicate Bytes(s: string) { forall k :: 0 <= k < |s| ==> IsByte(s[k]) }

  /** The content of a C string. */
  predicate CText(s: string) { Bytes(s) && '\0' !in s }

  predicate IsDigit(c: char) { '0' <= c <= '9' }
  predicate IsUpper(c: char) { 'A' <= c <= 'Z' }
  predicate IsLower(c: char) { 'a' <= c <= 'z' }
  predicate IsAlpha(c: char) { IsUpper(c) || IsLower(c) }
  predicate IsAlnum(c: char) { IsAlpha(c) || IsDigit(c) }
  predicate IsHex(c: char) { IsDigit(c) || 'a' <= c <= 'f' || 'A' <= c <= 'F' }

  function Upper(c: char): char {
    if IsLower(c) then (c as int - 32) as char else c
  }

  /** `hex_digit_value`. */
  function HexDigitValue(c: char): (v: int)
    ensures v >= 0 <==> IsHex(c)
    ensures v < 16
  {
    if IsDigit(c) then c as int - '0' as int
    else if 'A' <= c <= 'F' then c as int - 'A' as int + 10
    else if 'a' <= c <= 'f' then c as int - 'a' as int + 10
    else -1
  }

  /** The byte that two hexadecimal digits write. */
  function HexByte(hi: char, lo: char): (c: char)
    requires IsHex(hi) && IsHex(lo)
    ensures IsByte(c)
  {
    (16 * HexDigitValue(hi) + HexDigitValue(lo)) as char
  }

  /** printf's `%X` of one digit. */
  function UpperHexDigit(n: int): (c: char)
    requires 0 <= n < 16
    ensures IsHex(c) && HexDigitValue(c) == n && !IsLower(c)
  {
    if n < 10 then ('0' as int + n) as char else ('A' as int + n - 10) as char
  }

  /** printf's `%x` of one digit. */
  function LowerHexDigit(n: int): (c: char)
    requires 0 <= n < 16
    ensures IsHex(c) && HexDigitValue(c) == n
  {
    if n < 10 then ('0' as int + n) as char else ('a' as int + n - 10) as char
  }

  /** `c` in front of what has been read. */
  function Cons(c: char, r: Option<string>): Option<string> {
    match r case None => None case Some(t) => Some([c] + t)
  }

  function CutTo(s: string, size: nat): string { if |s| <= size then s else s[..size] }

  lemma Assoc(a: string, b: string, c: string)
    ensures a + (b + c) == (a + b) + c
  {
  }

  /** The part of `s` before the first `stop` (strcspn with one character). */
  function Before(s: string, stop: char): (r: string)
    ensures stop !in r && |r| <= |s| && r == s[..|r|]
    ensures |r| < |s| ==> s[|r|] == stop
  {
    if s == "" || s[0] == stop then "" else [s[0]] + Before(s[1..], stop)
  }

  lemma {:induction false} BeforeUnique(s: string, stop: char, n: nat)
    requires n <= |s| && stop !in s[..n] && (n < |s| ==> s[n] == stop)
    ensures Before(s, stop) == s[..n]
  {
  }

  lemma BeforeAll(s: string, stop: char)
    requires stop !in s
    ensures Before(s, stop) == s
  {
  }

  // ---- The characters one by one ----

  const LOWER_HEX := "0123456789abcdef"
  const UPPER_HEX := "0123456789ABCDEF"
  const LOWER_LETTERS := "abcdefghijklmnopqrstuvwxyz"
  const UPPER_LETTERS := "ABCDEFGHIJKLMNOPQRSTUVWXYZ"
  const DIGITS := "0123456789"

  /** The value of each hexadecimal digit, and the digits that are written. */
  lemma HexDigits(k: int)
    requires 0 <= k < 16
    ensures HexDigitValue(LOWER_HEX[k]) == k && LowerHexDigit(k) == LOWER_HEX[k]
    ensures HexDigitValue(UPPER_HEX[k]) == k && UpperHexDigit(k) == UPPER_HEX[k]
  {
  }

  /** Nothing else is one. */
  lemma HexExactly(c: char)
    ensures IsHex(c) <==> c in LOWER_HEX || c in UPPER_HEX
    ensures !IsHex(c) ==> HexDigitValue(c) == -1
  {
    if IsHex(c) {
      HexDigits(HexDigitValue(c));
    }
  }

  lemma Letters(k: int)
    requires 0 <= k < 26
    ensures Upper(LOWER_LETTERS[k]) == UPPER_LETTERS[k] && Upper(UPPER_LETTERS[k]) == UPPER_LETTERS[k]
    ensures LOWER_LETTERS[k] as int == 'a' as int + k && UPPER_LETTERS[k] as int == 'A' as int + k
  {
    LowerLetter(k);
    UpperLetter(k);
  }

  lemma LowerLetter(k: int)
    requires 0 <= k < 26
    ensures LOWER_LETTERS[k] as int == 'a' as int + k
  {
  }

  lemma UpperLetter(k: int)
    requires 0 <= k < 26
    ensures UPPER_LETTERS[k] as int == 'A' as int + k
  {
  }

  lemma DigitChar(k: int)
    requires 0 <= k < 10
    ensures DIGITS[k] as int == '0' as int + k
  {
  }

  /** Letters and digits are those of the tables, and only lower-case letters
      are changed by toupper. */
  lemma LettersExactly(c: char)
    ensures IsLower(c) <==> c in LOWER_LETTERS
    ensures IsUpper(c) <==> c in UPPER_LETTERS
    ensures IsDigit(c) <==> c in DIGITS
    ensures c !in LOWER_LETTERS ==> Upper(c) == c
  {
    LowerExactly(c);
    UpperExactly(c);
    DigitExactly(c);
  }

  lemma LowerExactly(c: char)
    ensures IsLower(c) <==> c in LOWER_LETTERS
  {
    if IsLower(c) {
      LowerLetter(c as int - 'a' as int);
      assert c == LOWER_LETTERS[c as int - 'a' as int];
    }
  }

  lemma UpperExactly(c: char)
    ensures IsUpper(c) <==> c in UPPER_LETTERS
  {
    if IsUpper(c) {
      UpperLetter(c as int - 'A' as int);
      assert c == UPPER_LETTERS[c as int - 'A' as int];
    }
  }

  lemma DigitExactly(c: char)
    ensures IsDigit(c) <==> c in DIGITS
  {
    if IsDigit(c) {
      DigitChar(c as int - '0' as int);
      assert c == DIGITS[c as int - '0' as int];
    }
  }
}
