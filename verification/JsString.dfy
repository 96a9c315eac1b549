/**
  The few JavaScript string operations the sources rely on:
  `toLowerCase` (restricted to ASCII letters), `includes`, `trim` (with the
  exact ECMAScript white-space and line-terminator set) and `length`
  (counted in UTF-16 code units, as JavaScript strings are).
 */
module JsString {

  predicate IsAsciiUpper(c: char) {
    'A' <= c <= 'Z'
  }

  function ToLowerChar(c: char): char {
    if IsAsciiUpper(c) then (c as int + 32) as char else c
  }

  /** `s.toLowerCase()` on the ASCII letters: upper-case letters map to
      their lower-case partners, every other character is kept. */
  function ToLowerCase(s: string): (r: string)
    ensures |r| == |s|
    ensures forall i :: 0 <= i < |s| ==> !IsAsciiUpper(r[i])
    ensures forall i :: 0 <= i < |s| && !IsAsciiUpper(s[i]) ==> r[i] == s[i]
    ensures forall i :: 0 <= i < |s| && IsAsciiUpper(s[i]) ==> r[i] as int == s[i] as int + 32
  {
    if |s| == 0 then "" else [ToLowerChar(s[0])] + ToLowerCase(s[1..])
  }

  /** Lower-casing is idempotent. */
  lemma ToLowerCaseIdempotent(s: string)
    ensures ToLowerCase(ToLowerCase(s)) == ToLowerCase(s)
  {
  }

  /** `q` occurs in `s` starting at position `i`. */
  ghost predicate OccursAt(s: string, q: string, i: int) {
    0 <= i && i + |q| <= |s| && s[i..i + |q|] == q
  }

  /** `s.includes(q)`: some position of `s` starts an occurrence of `q`;
      the empty string occurs everywhere. */
  function Includes(s: string, q: string): (r: bool)
    ensures r <==> exists i :: OccursAt(s, q, i)
  {
    if q <= s then
      assert OccursAt(s, q, 0);
      true
    else if |s| == 0 then
      assert forall i :: !OccursAt(s, q, i);
      false
    else
      var tail := s[1..];
      var r := Includes(tail, q);
      if r then
        assert exists i :: OccursAt(s, q, i) by {
          var i :| OccursAt(tail, q, i);
          assert tail[i..i + |q|] == s[i + 1..i + 1 + |q|];
          assert OccursAt(s, q, i + 1);
        }
        true
      else
        assert forall i :: OccursAt(s, q, i) ==> i > 0 && OccursAt(tail, q, i - 1) by {
          forall i | OccursAt(s, q, i)
            ensures i > 0 && OccursAt(tail, q, i - 1)
          {
            if i == 0 {
              assert false;
            }
            assert tail[i - 1..i - 1 + |q|] == s[i..i + |q|];
          }
        }
        false
  }

  lemma IncludesEmpty(s: string)
    ensures Includes(s, "")
  {
  }

  /** The characters `String.prototype.trim` removes: the WhiteSpace and
      LineTerminator productions of ECMAScript (section 12.2 and 12.3 of
      ECMA-262), including every Unicode space separator. */
  predicate IsJsWhiteSpace(c: char) {
    var n := c as int;
    // TAB, VT, FF, SP, NBSP, ZWNBSP
    || n == 0x09 || n == 0x0B || n == 0x0C || n == 0x20 || n == 0xA0 || n == 0xFEFF
    // the remaining space separators (Unicode category Zs)
    || n == 0x1680 || (0x2000 <= n <= 0x200A) || n == 0x202F || n == 0x205F || n == 0x3000
    // LF, CR, LINE SEPARATOR, PARAGRAPH SEPARATOR
    || n == 0x0A || n == 0x0D || n == 0x2028 || n == 0x2029
  }

  function TrimStart(s: string): (r: string)
    ensures |r| <= |s| && r == s[|s| - |r|..]
    ensures forall i :: 0 <= i < |s| - |r| ==> IsJsWhiteSpace(s[i])
    ensures |r| > 0 ==> !IsJsWhiteSpace(r[0])
  {
    if |s| > 0 && IsJsWhiteSpace(s[0]) then TrimStart(s[1..]) else s
  }

  function TrimEnd(s: string): (r: string)
    ensures |r| <= |s| && r == s[..|r|]
    ensures forall i :: |r| <= i < |s| ==> IsJsWhiteSpace(s[i])
    ensures |r| > 0 ==> !IsJsWhiteSpace(r[|r| - 1])
  {
    if |s| > 0 && IsJsWhiteSpace(s[|s| - 1]) then TrimEnd(s[..|s| - 1]) else s
  }

  /** `r` is the slice `s[a..b]` and only white space lies outside it. */
  predicate IsTrimmedSlice(s: string, r: string, a: int, b: int) {
    && 0 <= a <= b <= |s| && r == s[a..b]
    && (forall i :: 0 <= i < a ==> IsJsWhiteSpace(s[i]))
    && (forall i :: b <= i < |s| ==> IsJsWhiteSpace(s[i]))
  }

  /** `s.trim()`: the longest infix of `s` that neither starts nor ends
      with white space, obtained by dropping white space at both ends. */
  function Trim(s: string): (r: string)
    ensures exists a, b :: IsTrimmedSlice(s, r, a, b)
    ensures |r| > 0 ==> !IsJsWhiteSpace(r[0]) && !IsJsWhiteSpace(r[|r| - 1])
  {
    var t := TrimStart(s);
    var r := TrimEnd(t);
    assert IsTrimmedSlice(s, r, |s| - |t|, |s| - |t| + |r|)
           && (|r| > 0 ==> !IsJsWhiteSpace(r[0]) && !IsJsWhiteSpace(r[|r| - 1])) by {
      TrimmedSliceOf(s, t, r);
    }
    r
  }

  /** Dropping white space from the start of `s` (giving `t`) and then from
      the end of `t` (giving `r`) leaves a trimmed slice of `s`. */
  lemma TrimmedSliceOf(s: string, t: string, r: string)
    requires |t| <= |s| && t == s[|s| - |t|..]
    requires forall i :: 0 <= i < |s| - |t| ==> IsJsWhiteSpace(s[i])
    requires |r| <= |t| && r == t[..|r|]
    requires forall i :: |r| <= i < |t| ==> IsJsWhiteSpace(t[i])
    requires |t| > 0 ==> !IsJsWhiteSpace(t[0])
    requires |r| > 0 ==> !IsJsWhiteSpace(r[|r| - 1])
    ensures IsTrimmedSlice(s, r, |s| - |t|, |s| - |t| + |r|)
    ensures |r| > 0 ==> !IsJsWhiteSpace(r[0]) && !IsJsWhiteSpace(r[|r| - 1])
  {
    var a := |s| - |t|;
    var b := a + |r|;
    forall i | b <= i < |s| ensures IsJsWhiteSpace(s[i]) {
      assert t[i - a] == s[i];
    }
    if |r| > 0 {
      assert r[0] == t[0];
    }
  }

  /** `s.trim() !== ""` holds exactly when `s` has a character that is not
      white space. */
  lemma TrimEmptyIffBlank(s: string)
    ensures Trim(s) == "" <==> forall i :: 0 <= i < |s| ==> IsJsWhiteSpace(s[i])
  {
    var r := Trim(s);
    var a, b :| IsTrimmedSlice(s, r, a, b);
    if r == "" {
      forall i | 0 <= i < |s| ensures IsJsWhiteSpace(s[i]) {
        if a <= i < b {
          assert false;
        }
      }
    } else {
      assert s[a] == r[0];
    }
  }

  /** Number of UTF-16 code units of one character: characters beyond the
      Basic Multilingual Plane take a surrogate pair. */
  function Utf16Units(c: char): nat {
    if c as int > 0xFFFF then 2 else 1
  }

  /** The positions of the characters beyond the Basic Multilingual Plane. */
  function AstralPositions(s: string): set<int> {
    set i | 0 <= i < |s| && s[i] as int > 0xFFFF
  }

  /** `s.length` in JavaScript: one code unit per character, plus one more
      for each character that needs a surrogate pair. */
  function Utf16Length(s: string): (n: nat)
    ensures n == |s| + |AstralPositions(s)|
    ensures |s| <= n <= 2 * |s|
    ensures (forall i :: 0 <= i < |s| ==> s[i] as int <= 0xFFFF) ==> n == |s|
  {
    if |s| == 0 then 0
    else
      var init := s[..|s| - 1];
      var last := |s| - 1;
      assert AstralPositions(s) ==
             AstralPositions(init) + (if s[last] as int > 0xFFFF then {last} else {});
      assert last !in AstralPositions(init);
      Utf16Length(init) + Utf16Units(s[last])
  }
}
