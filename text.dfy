/** The string operations the request handling relies on, as Python defines
    them: `str.upper` and `str.lower` on ASCII letters, and `str.strip` with
    Python's whitespace characters. */
module Text {

  /** The characters for which Python's `str.isspace` holds, so the ones
      `str.strip()` removes. */
  predicate IsSpace(c: char)
  {
    var n := c as int;
    (0x09 <= n <= 0x0D) || (0x1C <= n <= 0x20) || n == 0x85 || n == 0xA0 || n == 0x1680
    || (0x2000 <= n <= 0x200A) || n == 0x2028 || n == 0x2029 || n == 0x202F || n == 0x205F || n == 0x3000
  }

  predicate IsLowerLetter(c: char) { 'a' <= c <= 'z' }

  predicate IsUpperLetter(c: char) { 'A' <= c <= 'Z' }

  function UpperChar(c: char): char
  {
    if IsLowerLetter(c) then (c as int - 32) as char else c
  }

  function LowerChar(c: char): char
  {
    if IsUpperLetter(c) then (c as int + 32) as char else c
  }

  /** `s.upper()`, for the ASCII letters. */
  function Upper(s: string): string
  {
    seq(|s|, i requires 0 <= i < |s| => UpperChar(s[i]))
  }

  /** `s.lower()`, for the ASCII letters. */
  function Lower(s: string): string
  {
    seq(|s|, i requires 0 <= i < |s| => LowerChar(s[i]))
  }

  /** `s` without its leading whitespace. */
  function TrimStart(s: string): string
  {
    if s != [] && IsSpace(s[0]) then TrimStart(s[1..]) else s
  }

  /** `s` without its trailing whitespace. */
  function TrimEnd(s: string): string
  {
    if s != [] && IsSpace(s[|s| - 1]) then TrimEnd(s[..|s| - 1]) else s
  }

  /** `s.strip()`. */
  function Strip(s: string): string
  {
    TrimEnd(TrimStart(s))
  }

  /** `s` neither starts nor ends with whitespace. */
  predicate Unpadded(s: string)
  {
    s == [] || (!IsSpace(s[0]) && !IsSpace(s[|s| - 1]))
  }

  predicate AllSpace(s: string)
  {
    forall i :: 0 <= i < |s| ==> IsSpace(s[i])
  }

  /** Upper-casing leaves no lower-case letter, changes nothing else but the
      case of letters, and a second application changes nothing. */
  lemma UpperFacts(s: string)
    ensures |Upper(s)| == |s|
    ensures forall i :: 0 <= i < |s| ==> !IsLowerLetter(Upper(s)[i])
    ensures forall i :: 0 <= i < |s| ==> LowerChar(Upper(s)[i]) == LowerChar(s[i])
    ensures Upper(Upper(s)) == Upper(s)
  {
    assert forall i :: 0 <= i < |s| ==> UpperChar(UpperChar(s[i])) == UpperChar(s[i]);
  }

  /** Lower-casing leaves no upper-case letter, keeps whitespace where it was,
      and a second application changes nothing. */
  lemma LowerFacts(s: string)
    ensures |Lower(s)| == |s|
    ensures forall i :: 0 <= i < |s| ==> !IsUpperLetter(Lower(s)[i])
    ensures forall i :: 0 <= i < |s| ==> (IsSpace(Lower(s)[i]) <==> IsSpace(s[i]))
    ensures Lower(Lower(s)) == Lower(s)
  {
    assert forall i :: 0 <= i < |s| ==> LowerChar(LowerChar(s[i])) == LowerChar(s[i]);
  }

  /** A string without lower-case letters is its own upper-case form. */
  lemma UpperOfUpper(s: string)
    requires forall i :: 0 <= i < |s| ==> !IsLowerLetter(s[i])
    ensures Upper(s) == s
  {
  }

  /** Dropping leading whitespace removes an all-whitespace prefix and leaves
      either nothing or a non-whitespace first character. */
  lemma {:induction false} TrimStartFacts(s: string)
    ensures TrimStart(s) == [] || !IsSpace(TrimStart(s)[0])
    ensures |TrimStart(s)| <= |s|
    ensures s[|s| - |TrimStart(s)|..] == TrimStart(s)
    ensures AllSpace(s[..|s| - |TrimStart(s)|])
  {
    if s != [] && IsSpace(s[0]) {
      TrimStartFacts(s[1..]);
      var t := TrimStart(s[1..]);
      assert s[1..][|s| - 1 - |t|..] == s[|s| - |t|..];
      var pre := s[..|s| - |t|];
      forall i | 0 <= i < |pre| ensures IsSpace(pre[i]) {
        if i > 0 {
          assert pre[i] == s[1..][..|s| - 1 - |t|][i - 1];
        }
      }
    }
  }

  /** Dropping trailing whitespace removes an all-whitespace suffix and leaves
      either nothing or a non-whitespace last character. */
  lemma {:induction false} TrimEndFacts(s: string)
    ensures TrimEnd(s) == [] || !IsSpace(TrimEnd(s)[|TrimEnd(s)| - 1])
    ensures |TrimEnd(s)| <= |s|
    ensures s[..|TrimEnd(s)|] == TrimEnd(s)
    ensures AllSpace(s[|TrimEnd(s)|..])
  {
    if s != [] && IsSpace(s[|s| - 1]) {
      var init := s[..|s| - 1];
      TrimEndFacts(init);
      var t := TrimEnd(init);
      assert init[..|t|] == s[..|t|];
      var post := s[|t|..];
      forall i | 0 <= i < |post| ensures IsSpace(post[i]) {
        if i < |post| - 1 {
          assert post[i] == init[|t|..][i];
        }
      }
    }
  }

  /** Trimming the end of a string with no leading whitespace leaves none. */
  lemma {:induction false} TrimEndKeepsStart(s: string)
    requires s == [] || !IsSpace(s[0])
    ensures TrimEnd(s) == [] || !IsSpace(TrimEnd(s)[0])
  {
    TrimEndFacts(s);
  }

  /** `strip()` yields the unpadded middle of `s`: what it removes on either
      side is whitespace only. */
  lemma StripFacts(s: string)
    ensures Unpadded(Strip(s))
    ensures exists i, j :: 0 <= i <= j <= |s| && Strip(s) == s[i..j] && AllSpace(s[..i]) && AllSpace(s[j..])
  {
    TrimStartFacts(s);
    var a := TrimStart(s);
    TrimEndFacts(a);
    TrimEndKeepsStart(a);
    var r := TrimEnd(a);
    var i := |s| - |a|;
    var j := i + |r|;
    assert r == s[i..j];
    assert s[j..] == a[|r|..];
  }

  /** An unpadded string is its own `strip()`. */
  lemma StripOfUnpadded(s: string)
    requires Unpadded(s)
    ensures Strip(s) == s
  {
    if s != [] {
      assert TrimStart(s) == s;
    }
  }

  /** Stripping twice is stripping once. */
  lemma StripIdempotent(s: string)
    ensures Strip(Strip(s)) == Strip(s)
  {
    StripFacts(s);
    StripOfUnpadded(Strip(s));
  }

  /** The normal form of free text: stripped, then lower-cased. Normalising an
      already normal text changes nothing. */
  lemma NormalTextIdempotent(s: string)
    ensures Lower(Strip(Lower(Strip(s)))) == Lower(Strip(s))
  {
    var t := Strip(s);
    StripFacts(s);
    LowerFacts(t);
    assert Unpadded(Lower(t));
    StripOfUnpadded(Lower(t));
  }
}
