/** The few operations of Python's str that the exporter uses, over seq<char>. */
module Text {

  /** Python's str.lower() on one character, restricted to ASCII letters. */
  function LowerChar(c: char): char
  {
    if 'A' <= c <= 'Z' then (c as int - 'A' as int + 'a' as int) as char else c
  }

  /** Python's str.lower(), restricted to ASCII letters. */
  function Lower(s: string): (r: string)
    ensures |r| == |s|
  {
    if s == [] then [] else [LowerChar(s[0])] + Lower(s[1..])
  }

  /** Python's s.replace(pat, sub) for a one-character pattern. */
  function Replace(s: string, pat: char, sub: string): string
  {
    if s == [] then [] else (if s[0] == pat then sub else [s[0]]) + Replace(s[1..], pat, sub)
  }

  /** The characters of s that are not in cs, in their original order. */
  function Strip(s: string, cs: seq<char>): string
  {
    if s == [] then [] else (if s[0] in cs then [] else [s[0]]) + Strip(s[1..], cs)
  }

  lemma {:induction false} ReplaceAppend(a: string, b: string, pat: char, sub: string)
    ensures Replace(a + b, pat, sub) == Replace(a, pat, sub) + Replace(b, pat, sub)
  {
    if a == [] {
      assert a + b == b;
    } else {
      assert (a + b)[0] == a[0];
      assert (a + b)[1..] == a[1..] + b;
      ReplaceAppend(a[1..], b, pat, sub);
    }
  }

  lemma {:induction false} StripAppend(a: string, b: string, cs: seq<char>)
    ensures Strip(a + b, cs) == Strip(a, cs) + Strip(b, cs)
  {
    if a == [] {
      assert a + b == b;
    } else {
      assert (a + b)[0] == a[0];
      assert (a + b)[1..] == a[1..] + b;
      StripAppend(a[1..], b, cs);
    }
  }

  /** Stripping no characters leaves the string as it is. */
  lemma {:induction false} StripNothing(s: string)
    ensures Strip(s, []) == s
  {
    if s != [] {
      StripNothing(s[1..]);
    }
  }

  /** Replacing a character by the empty string strips it as well. */
  lemma {:induction false} ReplaceByEmptyStrips(s: string, cs: seq<char>, c: char)
    ensures Replace(Strip(s, cs), c, "") == Strip(s, cs + [c])
  {
    if s != [] {
      var head := if s[0] in cs then [] else [s[0]];
      ReplaceAppend(head, Strip(s[1..], cs), c, "");
      ReplaceByEmptyStrips(s[1..], cs, c);
      assert s[0] in cs + [c] <==> s[0] in cs || s[0] == c;
    }
  }
}
