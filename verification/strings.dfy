/** Python's `str.strip()` with no argument, which Django's form `CharField` (`strip=True`) and
    DRF's `CharField` (`trim_whitespace=True`) apply to every submitted text value. */
module Strings {

  /** `str.isspace()` for one character. */
  predicate IsSpace(c: char) {
    c in SpaceChars
  }

  /** The characters `str.isspace()` accepts: the ASCII whitespace and separator controls, NEL,
      no-break space, and the Unicode space and line/paragraph separators. */
  const SpaceChars: set<char> :=
    {'\t', '\n', '\U{B}', '\U{C}', '\r', '\U{1C}', '\U{1D}', '\U{1E}', '\U{1F}', ' ', '\U{85}', '\U{A0}', '\U{1680}',
     '\U{2000}', '\U{2001}', '\U{2002}', '\U{2003}', '\U{2004}', '\U{2005}', '\U{2006}', '\U{2007}', '\U{2008}',
     '\U{2009}', '\U{200A}', '\U{2028}', '\U{2029}', '\U{202F}', '\U{205F}', '\U{3000}'}

  predicate AllSpace(s: string) {
    forall k :: 0 <= k < |s| ==> IsSpace(s[k])
  }

  /** Neither end is whitespace: what `strip` returns. */
  predicate Stripped(s: string) {
    s == [] || (!IsSpace(s[0]) && !IsSpace(s[|s| - 1]))
  }

  /** How many whitespace characters `s` starts with. */
  function Lead(s: string): (n: nat)
    ensures n <= |s|
  {
    if s == [] || !IsSpace(s[0]) then 0 else 1 + Lead(s[1..])
  }

  /** How many whitespace characters `s` ends with. */
  function Trail(s: string): (n: nat)
    ensures n <= |s|
  {
    if s == [] || !IsSpace(s[|s| - 1]) then 0 else 1 + Trail(s[..|s| - 1])
  }

  /** The first `Lead(s)` characters are whitespace and the next one is not. */
  lemma {:induction false} LeadShape(s: string)
    ensures forall k :: 0 <= k < Lead(s) ==> IsSpace(s[k])
    ensures Lead(s) < |s| ==> !IsSpace(s[Lead(s)])
  {
    if s != [] && IsSpace(s[0]) {
      LeadShape(s[1..]);
      assert forall k :: 1 <= k < |s| ==> s[k] == s[1..][k - 1];
    }
  }

  /** The last `Trail(s)` characters are whitespace and the one before them is not. */
  lemma {:induction false} TrailShape(s: string)
    ensures forall k :: |s| - Trail(s) <= k < |s| ==> IsSpace(s[k])
    ensures Trail(s) < |s| ==> !IsSpace(s[|s| - 1 - Trail(s)])
  {
    if s != [] && IsSpace(s[|s| - 1]) {
      TrailShape(s[..|s| - 1]);
      assert forall k :: 0 <= k < |s| - 1 ==> s[k] == s[..|s| - 1][k];
    }
  }

  /** `s.strip()`: the leading and trailing whitespace removed. */
  function Strip(s: string): (r: string)
    ensures |r| <= |s|
  {
    if Lead(s) == |s| then []
    else
      LeadShape(s);
      TrailShape(s);
      s[Lead(s)..|s| - Trail(s)]
  }

  /** What `strip` keeps: a stretch of `s` with no whitespace at either end, everything before
      and after it whitespace; it is empty exactly when `s` is all whitespace. */
  lemma StripShape(s: string)
    ensures Stripped(Strip(s))
    ensures Strip(s) == [] <==> AllSpace(s)
    ensures Lead(s) + |Strip(s)| <= |s| && Strip(s) == s[Lead(s)..Lead(s) + |Strip(s)|]
    ensures forall k :: 0 <= k < Lead(s) || Lead(s) + |Strip(s)| <= k < |s| ==> IsSpace(s[k])
  {
    LeadShape(s);
    TrailShape(s);
    var a, r := Lead(s), Strip(s);
    if a < |s| {
      var b := Trail(s);
      assert b < |s| - a;
      assert r == s[a..|s| - b];
      assert r[0] == s[a] && r[|r| - 1] == s[|s| - 1 - b];
      assert !AllSpace(s) by { assert !IsSpace(s[a]); }
    }
  }

  /** Stripping undoes padding: whitespace around a stripped text comes off and nothing else. */
  lemma StripPadded(pre: string, r: string, post: string)
    requires AllSpace(pre) && AllSpace(post) && Stripped(r)
    ensures Strip(pre + r + post) == r
  {
    var s := pre + r + post;
    LeadShape(s);
    TrailShape(s);
    assert forall k :: 0 <= k < |pre| ==> s[k] == pre[k];
    assert forall k :: |pre| + |r| <= k < |s| ==> s[k] == post[k - |pre| - |r|];
    if r == [] {
      assert AllSpace(s);
    } else {
      assert s[|pre|] == r[0] && s[|pre| + |r| - 1] == r[|r| - 1];
      assert Lead(s) == |pre|;
      assert Trail(s) == |post|;
      assert s[|pre|..|s| - |post|] == r;
    }
  }

  /** Stripping twice strips nothing more. */
  lemma StripIdempotent(s: string)
    ensures Strip(Strip(s)) == Strip(s)
  {
    StripShape(s);
    StripPadded([], Strip(s), []);
    assert [] + Strip(s) + [] == Strip(s);
  }
}
