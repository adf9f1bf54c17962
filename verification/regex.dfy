/** The one regular-expression operation the validators use. */
module Regex {

  /** `re.sub('[C]+', '', s)` for a character class C given by `inClass`: every
      maximal run of class characters is deleted, so what is left is exactly
      the characters outside the class, in their original order. */
  function Sub(s: string, inClass: char -> bool): (r: string)
    ensures |r| <= |s|
    ensures forall c :: c in r <==> c in s && !inClass(c)
  {
    if s == [] then ""
    else
      assert s == [s[0]] + s[1..];
      (if inClass(s[0]) then "" else [s[0]]) + Sub(s[1..], inClass)
  }

  /** The substitution works character by character: it distributes over
      concatenation, which is what keeps the leftover in input order. */
  lemma {:induction false} SubAppend(a: string, b: string, inClass: char -> bool)
    ensures Sub(a + b, inClass) == Sub(a, inClass) + Sub(b, inClass)
  {
    if a != [] {
      assert (a + b)[1..] == a[1..] + b;
      SubAppend(a[1..], b, inClass);
    } else {
      assert a + b == b;
    }
  }

  /** Nothing is left exactly when every character belongs to the class. */
  lemma {:induction false} SubEmpty(s: string, inClass: char -> bool)
    ensures Sub(s, inClass) == "" <==> forall i :: 0 <= i < |s| ==> inClass(s[i])
  {
    if s != [] {
      SubEmpty(s[1..], inClass);
      assert forall i :: 1 <= i < |s| ==> s[i] == s[1..][i - 1];
    }
  }

  /** Each character outside the class is kept as often as it occurs; class characters not at all. */
  lemma {:induction false} SubCount(s: string, inClass: char -> bool, c: char)
    ensures multiset(Sub(s, inClass))[c] == if inClass(c) then 0 else multiset(s)[c]
  {
    if s != [] {
      SubCount(s[1..], inClass, c);
      assert s == [s[0]] + s[1..];
    }
  }
}
