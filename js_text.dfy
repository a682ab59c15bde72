/** The parts of JavaScript's string semantics the model relies on: the
    white-space and line-terminator classes, ASCII character classes, and
    `String.prototype.trim`, which Mongoose's `trim: true` setter applies. */
module JsText {
  import opened Common

  /** ECMAScript WhiteSpace and LineTerminator code points: the characters
      `trim` removes and `parseInt` skips. */
  predicate IsWhiteSpace(c: char) {
    || c == '\t' || c == '\n' || c == '\U{B}' || c == '\U{C}' || c == '\r'
    || c == ' ' || c == '\U{A0}' || c == '\U{1680}'
    || ('\U{2000}' <= c <= '\U{200A}')
    || c == '\U{2028}' || c == '\U{2029}' || c == '\U{202F}' || c == '\U{205F}'
    || c == '\U{3000}' || c == '\U{FEFF}'
  }

  /** The characters a regular expression's `.` does not match. */
  predicate IsLineTerminator(c: char) {
    c == '\n' || c == '\r' || c == '\U{2028}' || c == '\U{2029}'
  }

  predicate IsDigit(c: char) { '0' <= c <= '9' }
  predicate IsLower(c: char) { 'a' <= c <= 'z' }
  predicate IsUpper(c: char) { 'A' <= c <= 'Z' }

  /** Every character of `s` is matched by a regular expression's `.`. */
  predicate NoLineTerminator(s: string) {
    forall i | 0 <= i < |s| :: !IsLineTerminator(s[i])
  }

  /** The positions of `s` holding a character outside the Basic
      Multilingual Plane, which UTF-16 encodes as a surrogate pair. */
  function AstralPositions(s: string): set<nat> {
    set i: nat | i < |s| && s[i] as int > 0xFFFF
  }

  /** JavaScript's `s.length`, which Mongoose's `minLength` and `maxlength`
      compare: the number of UTF-16 code units, one per character and one
      more for each surrogate pair. */
  function Utf16Length(s: string): (n: nat)
    ensures |s| <= n
  {
    |s| + |AstralPositions(s)|
  }

  /** A string is as long in code units as in characters exactly when every
      character lies in the Basic Multilingual Plane. */
  lemma Utf16LengthIsLengthIff(s: string)
    ensures Utf16Length(s) == |s| <==> forall i | 0 <= i < |s| :: s[i] as int <= 0xFFFF
  {
    if i :| 0 <= i < |s| && s[i] as int > 0xFFFF {
      assert (i as nat) in AstralPositions(s);
    }
  }

  /** An emoji counts twice: "😀a" has length 3 in JavaScript. */
  lemma Utf16LengthExample()
    ensures Utf16Length("\U{1F600}a") == 3
  {
    var s := "\U{1F600}a";
    assert s[0] as int > 0xFFFF && s[1] == 'a';
    assert AstralPositions(s) == {0};
  }

  /** `s` with its leading white space removed. */
  function TrimStart(s: string): (r: string)
    ensures |r| <= |s| && r == s[|s| - |r|..]
    ensures forall i | 0 <= i < |s| - |r| :: IsWhiteSpace(s[i])
    ensures |r| == 0 || !IsWhiteSpace(r[0])
  {
    if |s| > 0 && IsWhiteSpace(s[0]) then TrimStart(s[1..]) else s
  }

  /** `s` with its trailing white space removed. */
  function TrimEnd(s: string): (r: string)
    ensures |r| <= |s| && r == s[..|r|]
    ensures forall i | |r| <= i < |s| :: IsWhiteSpace(s[i])
    ensures |r| == 0 || !IsWhiteSpace(r[|r| - 1])
  {
    if |s| > 0 && IsWhiteSpace(s[|s| - 1]) then TrimEnd(s[..|s| - 1]) else s
  }

  /** `String.prototype.trim`. */
  function Trim(s: string): (r: string) {
    TrimEnd(TrimStart(s))
  }

  /** The value a path with a `trim` setter holds after an update: the
      supplied value trimmed, or the current one. */
  function TrimmedOr(supplied: Option<string>, current: string): string {
    if supplied.Some? then Trim(supplied.value) else current
  }

  /** A missing path reads as "", which `trim` leaves as it is. */
  lemma TrimOfMissing(value: Option<string>)
    ensures value.None? ==> Trim(value.UnwrapOr("")) == ""
  {
    assert TrimStart("") == "";
  }

  /** A string is trimmed when it neither starts nor ends with white space. */
  predicate IsTrimmed(s: string) {
    |s| == 0 || (!IsWhiteSpace(s[0]) && !IsWhiteSpace(s[|s| - 1]))
  }

  /** The result of `trim` neither starts nor ends with white space and is
      no longer than its input. */
  lemma TrimIsTrimmed(s: string)
    ensures IsTrimmed(Trim(s))
    ensures |Trim(s)| <= |s|
  {
    var t := TrimStart(s);
    var r := TrimEnd(t);
    if |r| > 0 {
      assert r[0] == t[0];
    }
  }

  /** A trimmed string is its own trim. */
  lemma TrimOfTrimmed(s: string)
    requires IsTrimmed(s)
    ensures Trim(s) == s
  {
  }

  /** Trimming twice is trimming once. */
  lemma TrimIdempotent(s: string)
    ensures Trim(Trim(s)) == Trim(s)
  {
    TrimIsTrimmed(s);
    TrimOfTrimmed(Trim(s));
  }
}
