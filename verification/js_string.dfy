/** The two JavaScript string behaviours the handlers depend on: the
    `length` that zod's `.length(n)` compares, and truthiness of a cookie. */
module JsString {

  /** A character JavaScript stores in one code unit. */
  predicate InBmp(c: char) {
    c as int < 0x1_0000
  }

  /** Number of UTF-16 code units `c` occupies: a character outside the
      Basic Multilingual Plane is stored as a surrogate pair. */
  function CodeUnits(c: char): nat {
    if InBmp(c) then 1 else 2
  }

  /** JavaScript's `s.length`: UTF-16 code units, not characters. */
  function Utf16Length(s: string): (n: nat)
    ensures |s| <= n <= 2 * |s|
  {
    if |s| == 0 then 0 else CodeUnits(s[0]) + Utf16Length(s[1..])
  }

  /** For text without astral characters (dates like "05/05/2023"),
      JavaScript's length is the character count. */
  lemma {:induction false} BmpLengthIsSize(s: string)
    requires forall i :: 0 <= i < |s| ==> InBmp(s[i])
    ensures Utf16Length(s) == |s|
  {
    if |s| > 0 {
      BmpLengthIsSize(s[1..]);
    }
  }

  /** A single astral character already has JavaScript length 2. */
  lemma {:induction false} LengthCountsSurrogates(s: string)
    requires exists i :: 0 <= i < |s| && !InBmp(s[i])
    ensures Utf16Length(s) > |s|
  {
    var i :| 0 <= i < |s| && !InBmp(s[i]);
    if i == 0 {
    } else {
      assert s[1..][i - 1] == s[i];
      LengthCountsSurrogates(s[1..]);
    }
  }

  /** JavaScript truthiness of an optional cookie value: `!value` holds for a
      missing value and for the empty string. */
  predicate Truthy(value: string) {
    value != ""
  }
}
