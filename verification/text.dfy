/** The string trimming the application applies to every piece of user input:
    ECMAScript's String.prototype.trim, which removes leading and trailing
    white space and line terminators (section 22.1.3.32 of ECMA-262, with the
    character classes of sections 12.2 and 12.3). */
module Text {

  /** ECMAScript WhiteSpace (TAB, VT, FF, ZWNBSP and every Zs space separator)
      and LineTerminator (LF, CR, LS, PS): the characters trim strips. */
  predicate IsWhitespace(c: char) {
    || c == '\t' || c == '\n' || c == '\U{000B}' || c == '\U{000C}' || c == '\r'
    || c == ' ' || c == '\U{00A0}' || c == '\U{1680}'
    || ('\U{2000}' <= c <= '\U{200A}')
    || c == '\U{2028}' || c == '\U{2029}' || c == '\U{202F}' || c == '\U{205F}'
    || c == '\U{3000}' || c == '\U{FEFF}'
  }

  /** A string that trims to the empty string, i.e. is falsy after trim(). */
  predicate IsBlank(s: string) {
    forall k :: 0 <= k < |s| ==> IsWhitespace(s[k])
  }

  /** The length of the whitespace prefix of `s`. */
  function LeadingSpace(s: string): (n: nat)
    ensures n <= |s|
    ensures forall k :: 0 <= k < n ==> IsWhitespace(s[k])
    ensures n < |s| ==> !IsWhitespace(s[n])
  {
    if |s| == 0 || !IsWhitespace(s[0]) then 0 else 1 + LeadingSpace(s[1..])
  }

  /** The length of the whitespace suffix of `s`. */
  function TrailingSpace(s: string): (n: nat)
    ensures n <= |s|
    ensures forall k :: |s| - n <= k < |s| ==> IsWhitespace(s[k])
    ensures n < |s| ==> !IsWhitespace(s[|s| - 1 - n])
  {
    if |s| == 0 || !IsWhitespace(s[|s| - 1]) then 0 else 1 + TrailingSpace(s[..|s| - 1])
  }

  /** String.prototype.trim: `s` with its whitespace prefix and suffix removed.
      The result is the slice of `s` that starts at the first and ends at the
      last non-whitespace character, and it is empty exactly for blank input. */
  function Trim(s: string): (t: string)
    ensures LeadingSpace(s) + |t| <= |s|
    ensures t == [] <==> IsBlank(s)
    ensures t == s[LeadingSpace(s) .. LeadingSpace(s) + |t|]
    ensures IsBlank(s[.. LeadingSpace(s)]) && IsBlank(s[LeadingSpace(s) + |t| ..])
    ensures t != [] ==> !IsWhitespace(t[0]) && !IsWhitespace(t[|t| - 1])
  {
    var lo := LeadingSpace(s);
    if lo == |s| then
      []
    else
      var hi := |s| - TrailingSpace(s);
      assert !IsWhitespace(s[lo]);
      s[lo .. hi]
  }

  /** A string without whitespace at either end is its own trim. */
  lemma {:induction false} TrimOfTrimmed(s: string)
    requires s != [] ==> !IsWhitespace(s[0]) && !IsWhitespace(s[|s| - 1])
    ensures Trim(s) == s
  {
    if s != [] {
      assert LeadingSpace(s) == 0;
      assert TrailingSpace(s) == 0;
    }
  }

  /** Trimming twice is trimming once. */
  lemma TrimIdempotent(s: string)
    ensures Trim(Trim(s)) == Trim(s)
  {
    TrimOfTrimmed(Trim(s));
  }

  /** Trim is characterised by its pieces: a blank prefix, a core that neither
      starts nor ends with whitespace, and a blank suffix. */
  lemma {:induction false} TrimOfPadded(pre: string, core: string, post: string)
    requires IsBlank(pre) && IsBlank(post)
    requires core != [] && !IsWhitespace(core[0]) && !IsWhitespace(core[|core| - 1])
    ensures Trim(pre + core + post) == core
  {
    var s := pre + core + post;
    LeadingOfPadded(pre, core + post);
    assert s == pre + (core + post);
    TrailingOfPadded(pre + core, post);
    assert |s| - TrailingSpace(s) == |pre| + |core|;
    assert s[|pre| .. |pre| + |core|] == core;
  }

  lemma {:induction false} LeadingOfPadded(pre: string, rest: string)
    requires IsBlank(pre)
    requires rest != [] && !IsWhitespace(rest[0])
    ensures LeadingSpace(pre + rest) == |pre|
  {
    if pre != [] {
      assert (pre + rest)[1..] == pre[1..] + rest;
      LeadingOfPadded(pre[1..], rest);
    }
  }

  lemma {:induction false} TrailingOfPadded(init: string, post: string)
    requires IsBlank(post)
    requires init != [] && !IsWhitespace(init[|init| - 1])
    ensures TrailingSpace(init + post) == |post|
  {
    if post != [] {
      assert (init + post)[..|init + post| - 1] == init + post[..|post| - 1];
      TrailingOfPadded(init, post[..|post| - 1]);
    }
  }
}
