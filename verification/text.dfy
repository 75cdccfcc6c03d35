/** String helpers the upload handler relies on: ASCII case mapping (the part of
    `String.prototype.toLowerCase` that matters to an ASCII pattern), substring
    search (what an unanchored regular expression of literal alternatives does),
    and the decimal rendering of a non-negative integer (what `'' + n` yields for
    a millisecond timestamp). */
module Text {

  predicate IsUpperAscii(c: char) { 'A' <= c <= 'Z' }

  predicate IsLowerAscii(c: char) { 'a' <= c <= 'z' }

  predicate IsDigit(c: char) { '0' <= c <= '9' }

  function LowerChar(c: char): (lower: char) {
    if IsUpperAscii(c) then (c as int + 32) as char else c
  }

  function UpperChar(c: char): (upper: char) {
    if IsLowerAscii(c) then (c as int - 32) as char else c
  }

  /** Lower-cases every ASCII letter and leaves every other character alone. */
  function ToLower(s: string): (r: string)
    ensures |r| == |s|
    ensures forall i :: 0 <= i < |s| ==> !IsUpperAscii(r[i])
    ensures forall i :: 0 <= i < |s| ==> !IsUpperAscii(s[i]) ==> r[i] == s[i]
    ensures forall i :: 0 <= i < |s| ==> IsUpperAscii(s[i]) ==> IsLowerAscii(r[i]) && UpperChar(r[i]) == s[i]
  {
    seq(|s|, i requires 0 <= i < |s| => LowerChar(s[i]))
  }

  /** Upper-cases every ASCII letter and leaves every other character alone. */
  function ToUpper(s: string): (r: string)
    ensures |r| == |s|
    ensures forall i :: 0 <= i < |s| ==> !IsLowerAscii(r[i])
  {
    seq(|s|, i requires 0 <= i < |s| => UpperChar(s[i]))
  }

  /** Upper-casing first loses nothing that lower-casing keeps: the two spellings
      of a string are equal once lower-cased. */
  lemma LowerOfUpper(s: string)
    ensures ToLower(ToUpper(s)) == ToLower(s)
  {
    forall i | 0 <= i < |s|
      ensures ToLower(ToUpper(s))[i] == ToLower(s)[i]
    {
      var c := s[i];
      if IsLowerAscii(c) {
        assert UpperChar(c) as int == c as int - 32;
      }
    }
  }

  /** Executable substring search: does `t` occur somewhere in `s`? */
  predicate Contains(s: string, t: string)
    decreases |s|
  {
    (|t| <= |s| && t == s[..|t|]) || (|s| > 0 && Contains(s[1..], t))
  }

  /** Reference meaning of "t occurs in s": some suffix of `s` starts with `t`. */
  ghost predicate Occurs(s: string, t: string) {
    exists i :: 0 <= i <= |s| - |t| && t <= s[i..]
  }

  /** The executable search finds exactly the occurrences the reference
      definition admits. */
  lemma {:induction false} ContainsIffOccurs(s: string, t: string)
    ensures Contains(s, t) <==> Occurs(s, t)
    decreases |s|
  {
    if |t| <= |s| && t == s[..|t|] {
      assert t <= s[0..];
    } else if |s| == 0 {
      assert !Occurs(s, t);
    } else {
      ContainsIffOccurs(s[1..], t);
      if Contains(s[1..], t) {
        var i :| 0 <= i <= |s[1..]| - |t| && t <= s[1..][i..];
        assert s[1..][i..] == s[i + 1..];
        assert t <= s[i + 1..];
      }
      if Occurs(s, t) {
        var i :| 0 <= i <= |s| - |t| && t <= s[i..];
        assert s[1..][i - 1..] == s[i..];
        assert Occurs(s[1..], t);
      }
    }
  }

  /** A pattern that starts with a lower-case letter cannot occur in a string
      that holds no lower-case letter at all. */
  lemma NoLowerNoOccurrence(s: string, t: string)
    requires |t| > 0 && IsLowerAscii(t[0])
    requires forall i :: 0 <= i < |s| ==> !IsLowerAscii(s[i])
    ensures !Occurs(s, t)
  {
    forall i | 0 <= i <= |s| - |t|
      ensures !(t <= s[i..])
    {
      assert s[i..][0] == s[i];
    }
  }

  /** Whatever surrounds it, a pattern occurs in a string built around it. */
  lemma OccursInContext(pre: string, t: string, post: string)
    ensures Occurs(pre + t + post, t)
  {
    var s := pre + t + post;
    assert s[|pre|..] == t + post;
    assert t <= s[|pre|..];
  }

  function DigitChar(d: nat): (c: char)
    requires d < 10
    ensures IsDigit(c)
  {
    ('0' as int + d) as char
  }

  function DigitValue(c: char): (d: nat)
    requires IsDigit(c)
  {
    c as int - '0' as int
  }

  predicate AllDigits(s: string) {
    forall i :: 0 <= i < |s| ==> IsDigit(s[i])
  }

  /** Reads a string of decimal digits back as the number it denotes. */
  function DecimalValue(s: string): (n: nat)
    requires AllDigits(s)
  {
    if |s| == 0 then 0
    else DecimalValue(s[..|s| - 1]) * 10 + DigitValue(s[|s| - 1])
  }

  /** The decimal spelling of `n`: at least one digit, no leading zero unless
      `n` is zero itself (which is spelled `0` alone), and reading it back
      yields `n`. */
  function Decimal(n: nat): (s: string)
    ensures |s| > 0 && AllDigits(s)
    ensures s[0] == '0' ==> n == 0
    ensures n == 0 ==> s == "0"
    ensures DecimalValue(s) == n
  {
    if n < 10 then [DigitChar(n)]
    else
      var init := Decimal(n / 10);
      var s := init + [DigitChar(n % 10)];
      assert s[..|s| - 1] == init;
      s
  }
}
