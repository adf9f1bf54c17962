/** recipes/validators.py: the tag slug validator. */
module SlugValidator {
  import opened Wrappers
  import Regex

  /** Membership in the ASCII-only class `[-a-zA-Z0-9_]`. */
  predicate IsSlugChar(c: char) {
    c == '-' || ('a' <= c <= 'z') || ('A' <= c <= 'Z') || ('0' <= c <= '9') || c == '_'
  }

  /** `validate_slug`: a slug made only of class characters is returned as it is;
      any other slug is refused with the characters outside the class (the error's payload). */
  function ValidateSlug(slug: string): (r: Result<string, string>)
    ensures r.Ok? <==> forall i :: 0 <= i < |slug| ==> IsSlugChar(slug[i])
    ensures r.Ok? ==> r.value == slug
    ensures r.Err? ==> r.error != "" && forall c :: c in r.error <==> c in slug && !IsSlugChar(c)
  {
    var leftover := Regex.Sub(slug, IsSlugChar);
    Regex.SubEmpty(slug, IsSlugChar);
    if leftover != "" then Err(leftover) else Ok(slug)
  }

  /** The reported characters are the disallowed ones of the slug, each as often as it occurs,
      in input order: the report for a joined slug is the two reports joined. */
  lemma ReportIsDisallowedInOrder(a: string, b: string, c: char)
    requires ValidateSlug(a + b).Err?
    ensures ValidateSlug(a + b).error == Regex.Sub(a, IsSlugChar) + Regex.Sub(b, IsSlugChar)
    ensures multiset(ValidateSlug(a + b).error)[c] == if IsSlugChar(c) then 0 else multiset(a + b)[c]
  {
    Regex.SubAppend(a, b, IsSlugChar);
    Regex.SubCount(a + b, IsSlugChar, c);
  }

  /** The class is ASCII-only: a slug holding any non-ASCII character, a Cyrillic letter
      included, is refused. */
  lemma NonAsciiRejected(slug: string, i: int)
    requires 0 <= i < |slug| && slug[i] as int >= 128
    ensures ValidateSlug(slug).Err?
    ensures slug[i] in ValidateSlug(slug).error
  {
    assert !IsSlugChar(slug[i]);
  }
}
