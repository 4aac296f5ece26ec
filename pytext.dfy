/** The few Python `str` operations the validators and views rely on, for ASCII text. */
module PyText {

  /** `c.isdigit()` restricted to the ASCII digits. */
  predicate IsDigit(c: char) { '0' <= c <= '9' }

  /** `c.isspace()` (and the regex class `\s`) restricted to the ASCII range. */
  predicate IsSpace(c: char) {
    c == ' ' || (9 <= c as int <= 13) || (28 <= c as int <= 31)
  }

  predicate IsUpper(c: char) { 'A' <= c <= 'Z' }
  predicate IsLower(c: char) { 'a' <= c <= 'z' }
  predicate IsLetter(c: char) { IsUpper(c) || IsLower(c) }

  function ToUpper(c: char): (u: char)
    ensures IsLower(c) ==> IsUpper(u)
    ensures !IsLower(c) ==> u == c
  {
    if IsLower(c) then (c as int - 'a' as int + 'A' as int) as char else c
  }

  function ToLower(c: char): (l: char)
    ensures IsUpper(c) ==> IsLower(l)
    ensures !IsUpper(c) ==> l == c
  {
    if IsUpper(c) then (c as int - 'A' as int + 'a' as int) as char else c
  }

  /** `s.lstrip()`. */
  function LStrip(s: string): (r: string)
    ensures |r| <= |s| && r == s[|s| - |r|..]
    ensures r == [] || !IsSpace(r[0])
    ensures forall i :: 0 <= i < |s| - |r| ==> IsSpace(s[i])
  {
    if s == [] || !IsSpace(s[0]) then s else LStrip(s[1..])
  }

  /** `s.rstrip()`. */
  function RStrip(s: string): (r: string)
    ensures |r| <= |s| && r == s[..|r|]
    ensures r == [] || !IsSpace(r[|r| - 1])
    ensures forall i :: |r| <= i < |s| ==> IsSpace(s[i])
  {
    if s == [] || !IsSpace(s[|s| - 1]) then s else RStrip(s[..|s| - 1])
  }

  /** `s.strip()`: whitespace removed at both ends. */
  function Strip(s: string): string {
    RStrip(LStrip(s))
  }

  /** `s.strip()` is empty exactly when every character of `s` is whitespace. */
  lemma StripEmptyIff(s: string)
    ensures Strip(s) == [] <==> forall i :: 0 <= i < |s| ==> IsSpace(s[i])
  {
    var l := LStrip(s);
    if Strip(s) == [] {
      assert l == [];
    } else {
      var r := Strip(s);
      assert r[0] == l[0];
      assert !IsSpace(s[|s| - |l|]);
    }
  }

  /** `s.replace(from, to)` for single characters. */
  function ReplaceChar(s: string, from: char, to: char): (r: string)
    ensures |r| == |s|
    ensures forall i :: 0 <= i < |s| ==> r[i] == (if s[i] == from then to else s[i])
  {
    if s == [] then [] else [if s[0] == from then to else s[0]] + ReplaceChar(s[1..], from, to)
  }

  /** `s.replace(c, "")`: every occurrence of `c` removed. */
  function RemoveChar(s: string, c: char): (r: string)
    ensures c !in r
    ensures |r| <= |s|
    ensures forall x :: x in r ==> x in s
    ensures multiset(r) == multiset(s)[c := 0]
    ensures c !in s ==> r == s
  {
    if s == [] then [] else
      assert s == [s[0]] + s[1..];
      (if s[0] == c then [] else [s[0]]) + RemoveChar(s[1..], c)
  }

  /** Removal works piece by piece, so the characters that remain keep their order. */
  lemma {:induction false} RemoveCharAppend(a: string, b: string, c: char)
    ensures RemoveChar(a + b, c) == RemoveChar(a, c) + RemoveChar(b, c)
  {
    if a != [] {
      assert (a + b)[1..] == a[1..] + b;
      RemoveCharAppend(a[1..], b, c);
    } else {
      assert a + b == b;
    }
  }

  /** `s.title()` over ASCII: a letter is upper-cased when it does not follow a letter,
      lower-cased otherwise; every other character is kept. */
  function Title(s: string): (r: string)
    ensures |r| == |s|
  {
    TitleAfter(s, false)
  }

  /** Title-casing of `s` when the character before it was (`afterLetter`) or was not a letter. */
  function TitleAfter(s: string, afterLetter: bool): (r: string)
    ensures |r| == |s|
    ensures forall i :: 0 <= i < |s| ==> IsLetter(r[i]) == IsLetter(s[i])
    ensures forall i :: 0 <= i < |s| && !IsLetter(s[i]) ==> r[i] == s[i]
    ensures forall i :: 0 < i < |s| && IsLetter(s[i]) ==>
              r[i] == (if IsLetter(s[i - 1]) then ToLower(s[i]) else ToUpper(s[i]))
    ensures 0 < |s| && IsLetter(s[0]) ==> r[0] == (if afterLetter then ToLower(s[0]) else ToUpper(s[0]))
  {
    if s == [] then []
    else
      var c := s[0];
      var head := if !IsLetter(c) then c else if afterLetter then ToLower(c) else ToUpper(c);
      var rest := TitleAfter(s[1..], IsLetter(c));
      assert forall i :: 0 < i < |s| ==> ([head] + rest)[i] == rest[i - 1];
      [head] + rest
  }

  /** `f"%{s}%"`: the LIKE pattern that matches any text containing `s`. The text sits verbatim
      between the two wildcards, so different values give different patterns. */
  function LikePattern(s: string): (p: string)
    ensures |p| == |s| + 2 && p[0] == '%' && p[|p| - 1] == '%'
    ensures p[1..|p| - 1] == s
  {
    "%" + s + "%"
  }

  /** The value can be read back from its pattern. */
  lemma LikePatternInjective(s: string, t: string)
    requires LikePattern(s) == LikePattern(t)
    ensures s == t
  {
  }
}
