/** The string operations the source takes from JavaScript: `trim`, `toLowerCase`,
    `split('@')[0]`, and the two e-mail regular expressions. */
module Text {

  /** The code points that `String.prototype.trim` strips and that the regular-expression
      class `\s` matches: ECMAScript's WhiteSpace and LineTerminator. */
  function IsSpace(c: char): (r: bool)
    ensures r ==> c != '@' && c != '.' && !('a' <= c <= 'z') && !('A' <= c <= 'Z') && !('0' <= c <= '9')
    ensures r ==> c as int <= 0xFFFF
  {
    || c == ' ' || c == '\t' || c == '\n' || c == '\r' || c == '\U{B}' || c == '\U{C}'
    || c == '\U{A0}' || c == '\U{1680}' || ('\U{2000}' <= c <= '\U{200A}')
    || c == '\U{2028}' || c == '\U{2029}' || c == '\U{202F}' || c == '\U{205F}'
    || c == '\U{3000}' || c == '\U{FEFF}'
  }

  /** No character of `s` is white space (`s` matches `^\S*$`). */
  predicate NoSpace(s: string) {
    forall i | 0 <= i < |s| :: !IsSpace(s[i])
  }

  /** Every character of `s` is white space. */
  predicate AllSpace(s: string) {
    forall i | 0 <= i < |s| :: IsSpace(s[i])
  }

  /** Neither the first nor the last character is white space: what a `trim: true` field stores. */
  predicate IsTrimmed(s: string) {
    s == [] || (!IsSpace(s[0]) && !IsSpace(s[|s| - 1]))
  }

  /** How many white-space characters `s` starts with: what `trim` drops at the front. */
  function LeadingSpace(s: string): (n: nat)
    ensures n <= |s|
    ensures forall i | 0 <= i < n :: IsSpace(s[i])
    ensures n < |s| ==> !IsSpace(s[n])
  {
    if s != [] && IsSpace(s[0]) then 1 + LeadingSpace(s[1..]) else 0
  }

  /** How many white-space characters `s` ends with: what `trim` drops at the back. */
  function TrailingSpace(s: string): (n: nat)
    ensures n <= |s|
    ensures forall i | |s| - n <= i < |s| :: IsSpace(s[i])
    ensures n < |s| ==> !IsSpace(s[|s| - 1 - n])
  {
    if s != [] && IsSpace(s[|s| - 1]) then 1 + TrailingSpace(s[..|s| - 1]) else 0
  }

  /** `s.trim()`: the infix of `s` left after dropping the white space at both ends. */
  function Trim(s: string): (r: string)
    ensures IsTrimmed(r)
    ensures LeadingSpace(s) + |r| <= |s|
    ensures r == s[LeadingSpace(s)..LeadingSpace(s) + |r|]
    ensures AllSpace(s[..LeadingSpace(s)]) && AllSpace(s[LeadingSpace(s) + |r|..])
  {
    var a, b := LeadingSpace(s), TrailingSpace(s);
    if a == |s| then [] else s[a..|s| - b]
  }

  /** `!s.trim()`: the string is empty or white space only. */
  predicate IsBlank(s: string) {
    Trim(s) == []
  }

  /** A string is blank exactly when all its characters are white space. */
  lemma BlankIffAllSpace(s: string)
    ensures IsBlank(s) <==> AllSpace(s)
  {
    if IsBlank(s) {
      assert s[..LeadingSpace(s)] == s;
    }
  }

  /** Trimming is a no-op exactly on trimmed strings; in particular it is idempotent. */
  lemma TrimFixpoint(s: string)
    ensures Trim(s) == s <==> IsTrimmed(s)
    ensures Trim(Trim(s)) == Trim(s)
  {
    if IsTrimmed(s) {
      TrimFixesTrimmed(s);
    }
    TrimFixesTrimmed(Trim(s));
  }

  lemma TrimFixesTrimmed(s: string)
    requires IsTrimmed(s)
    ensures Trim(s) == s
  {
    if s != [] {
      assert LeadingSpace(s) == 0 && TrailingSpace(s) == 0;
    }
  }

  /** `c.toLowerCase()` for the ASCII letters; every other character is left as it is. */
  function LowerChar(c: char): char {
    if 'A' <= c <= 'Z' then (c as int + 32) as char else c
  }

  predicate IsLower(s: string) {
    forall i | 0 <= i < |s| :: !('A' <= s[i] <= 'Z')
  }

  /** `s.toLowerCase()`: same length, no upper-case letter left, and only upper-case letters changed. */
  function ToLower(s: string): (r: string)
    ensures |r| == |s| && IsLower(r)
    ensures forall i | 0 <= i < |s| :: r[i] == s[i] || ('A' <= s[i] <= 'Z' && r[i] as int == s[i] as int + 32)
  {
    seq(|s|, i requires 0 <= i < |s| => LowerChar(s[i]))
  }

  /** Lower-casing keeps the white space, the `@` and the `.` exactly where they were. */
  lemma LowerKeepsLayout(s: string, i: int)
    requires 0 <= i < |s|
    ensures IsSpace(ToLower(s)[i]) == IsSpace(s[i])
    ensures (ToLower(s)[i] == '@') == (s[i] == '@')
    ensures (ToLower(s)[i] == '.') == (s[i] == '.')
  {
    var c, d := s[i], ToLower(s)[i];
    if 'A' <= c <= 'Z' {
      LetterIsNotSpace(c);
      LetterIsNotSpace(d);
    } else {
      assert d == c;
    }
  }

  /** No ASCII letter is white space, an `@` or a `.`. */
  lemma LetterIsNotSpace(c: char)
    requires 'A' <= c <= 'Z' || 'a' <= c <= 'z'
    ensures !IsSpace(c) && c != '@' && c != '.'
  {
  }

  /** Lower-casing keeps a string trimmed, and lower-casing twice changes nothing. */
  lemma LowerKeepsTrimmed(s: string)
    ensures IsTrimmed(s) ==> IsTrimmed(ToLower(s))
    ensures ToLower(ToLower(s)) == ToLower(s)
  {
    if s != [] {
      LowerKeepsLayout(s, 0);
      LowerKeepsLayout(s, |s| - 1);
    }
    var l := ToLower(s);
    assert forall i | 0 <= i < |l| :: ToLower(l)[i] == l[i];
  }

  /** The white-space runs at either end depend only on where the white space is. */
  lemma SpaceRunsFollowLayout(s: string, t: string)
    requires |s| == |t|
    requires forall i | 0 <= i < |s| :: IsSpace(s[i]) == IsSpace(t[i])
    ensures LeadingSpace(s) == LeadingSpace(t) && TrailingSpace(s) == TrailingSpace(t)
  {
  }

  /** Trimming and lower-casing commute: the two setters give the same string in either order. */
  lemma TrimLowerCommute(s: string)
    ensures Trim(ToLower(s)) == ToLower(Trim(s))
  {
    var l := ToLower(s);
    LowerKeepsSpaces(s);
    SpaceRunsFollowLayout(s, l);
    var a, b := LeadingSpace(s), TrailingSpace(s);
    if a == |s| {
      assert Trim(l) == [] && Trim(s) == [];
    } else {
      assert Trim(l) == l[a..|s| - b] && Trim(s) == s[a..|s| - b];
      LowerSlice(s, a, |s| - b);
    }
  }

  /** Lower-casing keeps every white-space character and every other character apart. */
  lemma LowerKeepsSpaces(s: string)
    ensures |ToLower(s)| == |s|
    ensures forall i | 0 <= i < |s| :: IsSpace(ToLower(s)[i]) == IsSpace(s[i])
  {
    forall i | 0 <= i < |s| ensures IsSpace(ToLower(s)[i]) == IsSpace(s[i]) {
      LowerKeepsLayout(s, i);
    }
  }

  /** Lower-casing works character by character, so it commutes with taking a slice. */
  lemma LowerSlice(s: string, i: int, j: int)
    requires 0 <= i <= j <= |s|
    ensures ToLower(s[i..j]) == ToLower(s)[i..j]
  {
    var m, l := s[i..j], ToLower(s);
    assert forall k | 0 <= k < |m| :: ToLower(m)[k] == l[i + k];
  }

  /** The character at `i` of a lower-cased string is the lower-cased character at `i`. */
  lemma LowerAt(s: string, i: int)
    requires 0 <= i < |s|
    ensures ToLower(s)[i] == LowerChar(s[i])
  {
    var r := ToLower(s);
    assert !('A' <= r[i] <= 'Z');
  }

  /** Lower-casing a string with no upper-case letter changes nothing. */
  lemma LowerFixesLower(s: string)
    requires IsLower(s)
    ensures ToLower(s) == s
  {
    assert forall i | 0 <= i < |s| :: ToLower(s)[i] == s[i];
  }

  /** `s.length`: JavaScript counts UTF-16 code units, so a character outside the Basic
      Multilingual Plane (above U+FFFF) counts twice. */
  function Utf16Length(s: string): (n: nat)
    ensures |s| <= n <= 2 * |s|
    ensures n == 0 <==> s == []
  {
    if s == [] then 0 else (if s[0] as int > 0xFFFF then 2 else 1) + Utf16Length(s[1..])
  }

  /** A string of Basic Multilingual Plane characters has as many code units as characters; one
      with a character above U+FFFF has more. */
  lemma {:induction false} Utf16LengthOfBmp(s: string)
    ensures (forall i | 0 <= i < |s| :: s[i] as int <= 0xFFFF) <==> Utf16Length(s) == |s|
  {
    if s != [] {
      Utf16LengthOfBmp(s[1..]);
      assert forall i | 1 <= i < |s| :: s[i] == s[1..][i - 1];
    }
  }

  /** `s.split('@')[0]`: the text before the first `@`, or all of `s` when it has none. */
  function LocalPart(s: string): (r: string)
    ensures |r| <= |s| && r == s[..|r|]
    ensures forall i | 0 <= i < |r| :: r[i] != '@'
    ensures |r| < |s| ==> s[|r|] == '@'
  {
    if s == [] || s[0] == '@' then [] else [s[0]] + LocalPart(s[1..])
  }

  /** `/^\S+@\S+\.\S+$/` (the User schema's e-mail rule): no white space, an `@` after at
      least one character, then a `.` with at least one character on either side. */
  function SchemaEmailShape(s: string): (r: bool)
    ensures r ==> 5 <= |s| && IsTrimmed(s)
  {
    && NoSpace(s)
    && exists i, j | 0 < i && i + 1 < j && j + 1 < |s| :: s[i] == '@' && s[j] == '.'
  }

  /** `/^[^\s@]+@[^\s@]+\.[^\s@]+$/` (the registration form's e-mail rule): as above, but the
      `@` is the only one in the string. */
  function FormEmailShape(s: string): (r: bool)
    ensures r ==> SchemaEmailShape(s)
  {
    && NoSpace(s)
    && exists i, j | 0 < i && i + 1 < j && j + 1 < |s| ::
         && s[i] == '@' && s[j] == '.'
         && forall k | 0 <= k < |s| && k != i :: s[k] != '@'
  }
}
