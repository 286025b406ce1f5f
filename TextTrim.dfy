/** `String.prototype.trim`: removes leading and trailing white space and line
    terminators, as ECMAScript defines them. */
module TextTrim {

  /** ECMAScript WhiteSpace and LineTerminator code points: tab, vertical tab,
      form feed, space, no-break space, byte-order mark, the other space
      separators (category Zs), line feed, carriage return, line and paragraph
      separators. */
  predicate IsWhite(c: char)
  {
    c == '\t' || c == '\U{000B}' || c == '\U{000C}' || c == ' ' ||
    c == '\U{00A0}' || c == '\U{FEFF}' ||
    c == '\U{1680}' || ('\U{2000}' <= c <= '\U{200A}') ||
    c == '\U{202F}' || c == '\U{205F}' || c == '\U{3000}' ||
    c == '\n' || c == '\r' || c == '\U{2028}' || c == '\U{2029}'
  }

  /** True when every character is white space (the empty string included). */
  predicate Blank(s: string)
  {
    forall i :: 0 <= i < |s| ==> IsWhite(s[i])
  }

  /** The number of white-space characters that start `s`. */
  function LeadingWhite(s: string): (n: nat)
    ensures n <= |s| && Blank(s[..n])
    ensures n < |s| ==> !IsWhite(s[n])
  {
    if s != [] && IsWhite(s[0]) then
      var n := 1 + LeadingWhite(s[1..]);
      assert s[..n] == [s[0]] + s[1..][..n - 1];
      n
    else
      0
  }

  /** The number of white-space characters that end `s`. */
  function TrailingWhite(s: string): (n: nat)
    ensures n <= |s| && Blank(s[|s| - n..])
    ensures n < |s| ==> !IsWhite(s[|s| - n - 1])
  {
    if s != [] && IsWhite(s[|s| - 1]) then
      var n := 1 + TrailingWhite(s[..|s| - 1]);
      assert s[|s| - n..] == s[..|s| - 1][|s| - n..] + [s[|s| - 1]];
      n
    else
      0
  }

  /** `s.trim()`: the slice of `s` that starts after its leading white space
      and before a blank tail, with no white space at either end. */
  function Trim(s: string): (r: string)
    ensures LeadingWhite(s) + |r| <= |s|
    ensures r == s[LeadingWhite(s)..LeadingWhite(s) + |r|]
    ensures Blank(s[LeadingWhite(s) + |r|..])
    ensures r == [] || (!IsWhite(r[0]) && !IsWhite(r[|r| - 1]))
  {
    var i := LeadingWhite(s);
    var m := s[i..];
    var j := TrailingWhite(m);
    assert m[|m| - j..] == s[i + |m| - j..];
    m[..|m| - j]
  }

  /** A string trims to the empty string exactly when it is blank, which is
      when the source's `!value.trim()` test rejects it. */
  lemma TrimEmptyIffBlank(s: string)
    ensures Trim(s) == "" <==> Blank(s)
  {
    var i := LeadingWhite(s);
    if Trim(s) == "" {
      assert s[..i] == s;
    }
  }

  /** Trimming is idempotent. */
  lemma TrimIdempotent(s: string)
    ensures Trim(Trim(s)) == Trim(s)
  {
    var r := Trim(s);
    if r != [] {
      assert LeadingWhite(r) == 0;
      assert TrailingWhite(r) == 0;
    } else {
      assert LeadingWhite(r) == 0;
    }
  }
}
