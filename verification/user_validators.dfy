/** users/validators.py: the username validator. */
module UserValidators {
  import opened Wrappers
  import Regex

  /** The characters the username pattern `[\w.@+-]` adds to the word class. */
  predicate IsUsernamePunctuation(c: char) {
    c == '.' || c == '@' || c == '+' || c == '-'
  }

  /** The ASCII members of Python's `\w`: letters, digits and the underscore. */
  predicate IsAsciiWordChar(c: char) {
    ('a' <= c <= 'z') || ('A' <= c <= 'Z') || ('0' <= c <= '9') || c == '_'
  }

  /** `isWordChar` stands for Python's Unicode `\w`; on ASCII it is exactly
      letters, digits and underscore, beyond ASCII it is left open. */
  predicate AgreesOnAscii(isWordChar: char -> bool) {
    forall c: char :: c as int < 128 ==> (isWordChar(c) <==> IsAsciiWordChar(c))
  }

  /** Membership in the class `[\w.@+-]`. */
  predicate IsUsernameChar(isWordChar: char -> bool, c: char) {
    isWordChar(c) || IsUsernamePunctuation(c)
  }

  /** The class `[\w.@+-]` as the argument of the substitution. */
  function UsernameClass(isWordChar: char -> bool): char -> bool {
    c => IsUsernameChar(isWordChar, c)
  }

  /** Why a username was refused. */
  datatype UsernameError =
    | Forbidden(username: string)      // the name is reserved
    | BadCharacters(leftover: string)  // the characters outside the class

  /** `validate_username`: a reserved name is refused whatever it contains;
      otherwise the name is refused with its disallowed characters, or returned as it is. */
  function ValidateUsername(username: string, forbidden: set<string>, isWordChar: char -> bool)
    : (r: Result<string, UsernameError>)
    ensures username in forbidden ==> r == Err(Forbidden(username))
    ensures r.Ok? <==> username !in forbidden && forall i :: 0 <= i < |username| ==> IsUsernameChar(isWordChar, username[i])
    ensures r.Ok? ==> r.value == username
    ensures r.Err? && username !in forbidden ==>
      r.error.BadCharacters? && r.error.leftover != "" &&
      forall c :: c in r.error.leftover <==> c in username && !IsUsernameChar(isWordChar, c)
  {
    if username in forbidden then Err(Forbidden(username))
    else
      var leftover := Regex.Sub(username, UsernameClass(isWordChar));
      Regex.SubEmpty(username, UsernameClass(isWordChar));
      if leftover != "" then Err(BadCharacters(leftover)) else Ok(username)
  }

  /** The reported leftover keeps every disallowed character as often as it
      occurs and in input order: it is the substitution of the name's pieces, joined. */
  lemma LeftoverIsDisallowedInOrder(a: string, b: string, forbidden: set<string>, isWordChar: char -> bool, c: char)
    requires a + b !in forbidden
    requires ValidateUsername(a + b, forbidden, isWordChar).Err?
    ensures ValidateUsername(a + b, forbidden, isWordChar).error.leftover
         == Regex.Sub(a, UsernameClass(isWordChar)) + Regex.Sub(b, UsernameClass(isWordChar))
    ensures multiset(ValidateUsername(a + b, forbidden, isWordChar).error.leftover)[c]
         == if IsUsernameChar(isWordChar, c) then 0 else multiset(a + b)[c]
  {
    Regex.SubAppend(a, b, UsernameClass(isWordChar));
    Regex.SubCount(a + b, UsernameClass(isWordChar), c);
  }

  /** A name of ASCII letters, digits and `_.@+-` that is not reserved is accepted, whatever
      `\w` does beyond ASCII. */
  lemma {:induction false} AsciiUsernameAccepted(username: string, forbidden: set<string>, isWordChar: char -> bool)
    requires AgreesOnAscii(isWordChar)
    requires username !in forbidden
    requires forall i :: 0 <= i < |username| ==> IsAsciiWordChar(username[i]) || IsUsernamePunctuation(username[i])
    ensures ValidateUsername(username, forbidden, isWordChar) == Ok(username)
  {
    forall i | 0 <= i < |username|
      ensures IsUsernameChar(isWordChar, username[i])
    {
      if IsAsciiWordChar(username[i]) {
        assert username[i] as int < 128;
      }
    }
  }

  /** An ASCII character outside `[A-Za-z0-9_.@+-]`, a space say, makes any name invalid. */
  lemma AsciiOutsideClassRejected(username: string, forbidden: set<string>, isWordChar: char -> bool, i: int)
    requires AgreesOnAscii(isWordChar)
    requires 0 <= i < |username| && username[i] as int < 128
    requires !IsAsciiWordChar(username[i]) && !IsUsernamePunctuation(username[i])
    ensures ValidateUsername(username, forbidden, isWordChar).Err?
  {
    assert !IsUsernameChar(isWordChar, username[i]);
  }
}
