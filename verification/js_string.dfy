/**
 The two string primitives the note form relies on, as JavaScript defines them:
 `String.prototype.trim` (section 22.1.3.32 of ECMA-262) and the `length`
 property, which counts UTF-16 code units.

 A string here is a `seq<char>`, and a Dafny `char` is a Unicode scalar value.
 Values read from a `FormData` are USVStrings, so they never hold a lone
 surrogate and every string the form sees is representable.
 */
module JsString {

  /** The white space `trim` removes: the union of the WhiteSpace (section 12.2
      of ECMA-262) and LineTerminator (section 12.3) code points. WhiteSpace
      includes every code point of general category Zs; the list below is that
      category as of Unicode 15. */
  predicate IsWhitespace(c: char)
    ensures IsWhitespace(c) ==> CodeUnits(c) == 1
  {
    var u := c as int;
    // WhiteSpace: TAB, VT, FF, ZWNBSP, and the Zs category (SP, NBSP, OGHAM
    // SPACE MARK, EN QUAD through HAIR SPACE, NNBSP, MMSP, IDEOGRAPHIC SPACE)
    || u == 0x0009 || u == 0x000B || u == 0x000C || u == 0xFEFF
    || u == 0x0020 || u == 0x00A0 || u == 0x1680 || 0x2000 <= u <= 0x200A
    || u == 0x202F || u == 0x205F || u == 0x3000
    // LineTerminator: LF, CR, LINE SEPARATOR, PARAGRAPH SEPARATOR
    || u == 0x000A || u == 0x000D || u == 0x2028 || u == 0x2029
  }

  predicate AllWhitespace(s: string) {
    forall i :: 0 <= i < |s| ==> IsWhitespace(s[i])
  }

  /** Neither the first nor the last character is white space. */
  predicate IsTrimmed(s: string) {
    |s| == 0 || (!IsWhitespace(s[0]) && !IsWhitespace(s[|s| - 1]))
  }

  /** `r` sits in `s` at offset `i`, and everything around it is white space. */
  predicate TrimmedFrom(s: string, i: int, r: string) {
    0 <= i && i + |r| <= |s| && s[i..i + |r|] == r
    && AllWhitespace(s[..i]) && AllWhitespace(s[i + |r|..])
  }

  /** Number of white-space characters at the front of `s`. */
  function LeadingCount(s: string): (k: nat)
    ensures k <= |s|
    ensures forall q :: 0 <= q < k ==> IsWhitespace(s[q])
    ensures k == |s| || !IsWhitespace(s[k])
  {
    if |s| > 0 && IsWhitespace(s[0]) then 1 + LeadingCount(s[1..]) else 0
  }

  /** Number of white-space characters at the back of `s`. */
  function TrailingCount(s: string): (k: nat)
    ensures k <= |s|
    ensures forall q :: |s| - k <= q < |s| ==> IsWhitespace(s[q])
    ensures k == |s| || !IsWhitespace(s[|s| - 1 - k])
  {
    if |s| > 0 && IsWhitespace(s[|s| - 1]) then 1 + TrailingCount(s[..|s| - 1]) else 0
  }

  /** `String.prototype.trim`: the contiguous slice of `s` that is left once
      the leading and trailing white space is removed. */
  function Trim(s: string): (r: string)
    ensures IsTrimmed(r)
    ensures TrimmedFrom(s, LeadingCount(s), r)
  {
    var i := LeadingCount(s);
    var rest := s[i..];
    var j := |s| - TrailingCount(rest);
    var r := s[i..j];
    assert r == rest[..|rest| - TrailingCount(rest)];
    assert forall q :: 0 <= q < |s| - j ==> s[j..][q] == rest[q + (j - i)];
    assert TrimmedFrom(s, i, r);
    r
  }

  /** The number of UTF-16 code units that encode `c`: two for a character
      outside the Basic Multilingual Plane, one otherwise. */
  function CodeUnits(c: char): nat {
    if c as int >= 0x1_0000 then 2 else 1
  }

  /** JavaScript's `length`: the number of UTF-16 code units in `s`. */
  function Utf16Length(s: string): (n: nat)
    ensures |s| <= n <= 2 * |s|
    ensures n == |s| <==> forall i :: 0 <= i < |s| ==> s[i] as int < 0x1_0000
  {
    if |s| == 0 then 0
    else
      var n := CodeUnits(s[0]) + Utf16Length(s[1..]);
      assert forall i :: 1 <= i < |s| ==> s[i] == s[1..][i - 1];
      n
  }

  /** The code-unit length of a concatenation is the sum of the lengths, so
      the length of a string is the sum of the code units of its characters. */
  lemma {:induction false} Utf16LengthAppend(x: string, y: string)
    ensures Utf16Length(x + y) == Utf16Length(x) + Utf16Length(y)
  {
    if |x| > 0 {
      assert (x + y)[1..] == x[1..] + y;
      Utf16LengthAppend(x[1..], y);
    } else {
      assert x + y == y;
    }
  }

  /** `Trim` is fully determined by its contract: whenever `s` is a trimmed
      string `m` wrapped in white space, trimming `s` gives back `m`. */
  lemma TrimUnique(a: string, m: string, b: string)
    requires AllWhitespace(a) && AllWhitespace(b) && IsTrimmed(m)
    ensures Trim(a + m + b) == m
  {
    var s := a + m + b;
    var i := LeadingCount(s);
    if |m| == 0 {
      assert s == a + b;
      assert AllWhitespace(s);
      assert i == |s|;
    } else {
      assert s[|a|] == m[0];
      assert i == |a|;
      var rest := s[i..];
      assert rest == m + b;
      var k := TrailingCount(rest);
      assert rest[|m| - 1] == m[|m| - 1];
      assert k == |b|;
    }
  }

  /** A string without surrounding white space is left alone by `Trim`. */
  lemma TrimFixesTrimmed(s: string)
    requires IsTrimmed(s)
    ensures Trim(s) == s
  {
    assert "" + s + "" == s;
    TrimUnique("", s, "");
  }

  /** Trimming an already trimmed string changes nothing. */
  lemma TrimIdempotent(s: string)
    ensures Trim(Trim(s)) == Trim(s)
  {
    TrimFixesTrimmed(Trim(s));
  }

  /** Trimming leaves nothing exactly when the string is all white space. */
  lemma TrimEmptyIffBlank(s: string)
    ensures Trim(s) == "" <==> AllWhitespace(s)
  {
    if AllWhitespace(s) {
      assert s + "" + "" == s;
      TrimUnique(s, "", "");
    }
  }

  /** White space added on either side of `s` makes no difference to `Trim`. */
  lemma TrimPadded(a: string, s: string, b: string)
    requires AllWhitespace(a) && AllWhitespace(b)
    ensures Trim(a + s + b) == Trim(s)
  {
    var r := Trim(s);
    var i := LeadingCount(s);
    PadAround(a, s, b, i, r);
    TrimUnique(a + s[..i], r, s[i + |r|..] + b);
  }

  /** Padding a string that is `r` wrapped in white space leaves `r` wrapped
      in (more) white space. */
  lemma PadAround(a: string, s: string, b: string, i: int, r: string)
    requires AllWhitespace(a) && AllWhitespace(b) && TrimmedFrom(s, i, r)
    ensures a + s + b == (a + s[..i]) + r + (s[i + |r|..] + b)
    ensures AllWhitespace(a + s[..i]) && AllWhitespace(s[i + |r|..] + b)
  {
    assert s == s[..i] + r + s[i + |r|..];
    WhitespaceAppend(a, s[..i]);
    WhitespaceAppend(s[i + |r|..], b);
  }

  lemma WhitespaceAppend(x: string, y: string)
    requires AllWhitespace(x) && AllWhitespace(y)
    ensures AllWhitespace(x + y)
  {
    assert forall i :: |x| <= i < |x + y| ==> (x + y)[i] == y[i - |x|];
  }
}
