/** An element's `className` seen as its `classList`: the string split into
    tokens at ASCII whitespace, duplicates kept (which does not change what
    `contains` answers). */
module ClassList {

  /** ASCII whitespace: tab, line feed, form feed, carriage return, space. */
  predicate IsSpace(c: char)
  {
    c == ' ' || c == '\t' || c == '\n' || c == '\r' || c == '\U{000C}'
  }

  /** A class name: non-empty, no whitespace. */
  predicate IsToken(t: string)
  {
    t != [] && forall i :: 0 <= i < |t| ==> !IsSpace(t[i])
  }

  /** The length of the run of non-whitespace characters that starts `s`. */
  function WordLength(s: string): (n: nat)
    ensures n <= |s|
    ensures forall i :: 0 <= i < n ==> !IsSpace(s[i])
    ensures n < |s| ==> IsSpace(s[n])
  {
    if s == [] || IsSpace(s[0]) then 0 else 1 + WordLength(s[1..])
  }

  /** The tokens of a class attribute, in order. */
  function Tokens(s: string): (ts: seq<string>)
    ensures forall t :: t in ts ==> IsToken(t)
    decreases |s|
  {
    if s == [] then []
    else if IsSpace(s[0]) then Tokens(s[1..])
    else
      var n := WordLength(s);
      [s[..n]] + Tokens(s[n..])
  }

  /** `classList.contains(token)`: true only of a class name, and for a class
      name exactly when it stands delimited in the attribute. */
  function Contains(className: string, token: string): (b: bool)
    ensures b ==> IsToken(token)
    ensures IsToken(token) ==> (b <==> Delimited(className, token))
  {
    if IsToken(token) then ContainsIffDelimited(className, token); token in Tokens(className)
    else token in Tokens(className)
  }

  /** A whitespace-delimited occurrence of the token `t` at position `i` of `s`. */
  predicate OccursAt(s: string, t: string, i: int)
  {
    0 <= i && i + |t| <= |s| && s[i..i + |t|] == t &&
    (i == 0 || IsSpace(s[i - 1])) &&
    (i + |t| == |s| || IsSpace(s[i + |t|]))
  }

  /** The declarative reading of `classList`: the token stands in the string,
      with whitespace or an end of the string on both sides. */
  predicate Delimited(s: string, t: string)
  {
    exists i :: 0 <= i <= |s| && OccursAt(s, t, i)
  }

  /** A class attribute holding one class name has exactly that class. */
  lemma {:induction false} SingleToken(t: string)
    requires IsToken(t)
    ensures Tokens(t) == [t]
  {
    WordLengthOfToken(t);
    assert t[..|t|] == t;
    assert t[|t|..] == [];
  }

  lemma {:induction false} WordLengthOfToken(t: string)
    requires forall i :: 0 <= i < |t| ==> !IsSpace(t[i])
    ensures WordLength(t) == |t|
  {
    if t != [] {
      WordLengthOfToken(t[1..]);
    }
  }

  /** The split agrees with the declarative reading: a class name is in the
      class list iff it occurs in the attribute delimited by whitespace. */
  lemma {:induction false} ContainsIffDelimited(s: string, t: string)
    requires IsToken(t)
    ensures t in Tokens(s) <==> Delimited(s, t)
    decreases |s|
  {
    if s == [] {
      assert !Delimited(s, t);
    } else if IsSpace(s[0]) {
      ContainsIffDelimited(s[1..], t);
      DelimitedAfterSpace(s, t);
    } else {
      var n := WordLength(s);
      assert Tokens(s) == [s[..n]] + Tokens(s[n..]);
      ContainsIffDelimited(s[n..], t);
      DelimitedAfterWord(s, t, n);
    }
  }

  /** Leading whitespace does not change which tokens occur. */
  lemma DelimitedAfterSpace(s: string, t: string)
    requires IsToken(t) && s != [] && IsSpace(s[0])
    ensures Delimited(s, t) <==> Delimited(s[1..], t)
  {
    if Delimited(s, t) {
      var i :| 0 <= i <= |s| && OccursAt(s, t, i);
      ShiftOccurrence(s, 1, t, i - 1);
      assert OccursAt(s[1..], t, i - 1);
    }
    if Delimited(s[1..], t) {
      var i :| 0 <= i <= |s| - 1 && OccursAt(s[1..], t, i);
      ShiftOccurrence(s, 1, t, i);
      assert OccursAt(s, t, i + 1);
    }
  }

  /** A leading word of length `n` is a token, and the other tokens occur
      after it. */
  lemma DelimitedAfterWord(s: string, t: string, n: nat)
    requires IsToken(t) && s != [] && !IsSpace(s[0]) && n == WordLength(s)
    ensures Delimited(s, t) <==> t == s[..n] || Delimited(s[n..], t)
  {
    if t == s[..n] {
      assert OccursAt(s, t, 0);
    } else if Delimited(s, t) {
      var i :| 0 <= i <= |s| && OccursAt(s, t, i);
      if i == 0 {
        LongestWord(s, t, n);
      }
      ShiftOccurrence(s, n, t, i - n);
      assert OccursAt(s[n..], t, i - n);
    }
    if Delimited(s[n..], t) {
      var i :| 0 <= i <= |s| - n && OccursAt(s[n..], t, i);
      ShiftOccurrence(s, n, t, i);
      assert OccursAt(s, t, i + n);
    }
  }

  /** An occurrence at 0 of a token in a word of length `n` spans the word. */
  lemma LongestWord(s: string, t: string, n: nat)
    requires IsToken(t) && OccursAt(s, t, 0) && n == WordLength(s)
    ensures t == s[..n]
  {
  }

  /** Occurrences in a suffix `s[d..]` at position `i` are occurrences in `s`
      at `i + d`, when `i` is not the start of the suffix or whitespace ends
      the part cut off. */
  lemma ShiftOccurrence(s: string, d: nat, t: string, i: int)
    requires 0 < d <= |s| && (1 <= i || (i == 0 && IsSpace(s[d - 1])))
    ensures OccursAt(s[d..], t, i) <==> OccursAt(s, t, i + d)
  {
    if 0 <= i && i + |t| <= |s| - d {
      assert s[d..][i..i + |t|] == s[i + d..i + d + |t|];
    }
  }
}
