/** The Author schema (models/authorModel.js). */
module AuthorModel {
  import opened Common

  /** The paths of an Author document; `password` holds the hash, never the plaintext. */
  datatype Author = Author(
    name: Option<string>,
    email: Option<string>,
    password: Option<string>,
    bio: Option<string>,
    createdAt: nat)

  const BioMaxLength := 600

  /** `\s` of JavaScript regular expressions. */
  predicate IsWhitespace(c: char)
  {
    c == '\t' || c == '\n' || c == '\U{B}' || c == '\U{C}' || c == '\r' || c == ' '
    || c == '\U{A0}' || c == '\U{1680}' || ('\U{2000}' <= c <= '\U{200A}')
    || c == '\U{2028}' || c == '\U{2029}' || c == '\U{202F}' || c == '\U{205F}'
    || c == '\U{3000}' || c == '\U{FEFF}'
  }

  /** A match of `\S+@\S+\.\S+` using the `@` at `i` and the `.` at `j`: a non-space just before the
      `@`, a non-empty run of non-spaces between the two, and a non-space just after the `.`. */
  predicate EmailMatchAt(s: string, i: int, j: int)
  {
    0 < i && i + 1 < j && j + 1 < |s|
    && s[i] == '@' && s[j] == '.'
    && !IsWhitespace(s[i - 1]) && !IsWhitespace(s[j + 1])
    && forall k :: i < k < j ==> !IsWhitespace(s[k])
  }

  /** `/\S+@\S+\.\S+/.test(s)`: the pattern is not anchored, so a match anywhere in `s` will do. */
  predicate MatchesEmail(s: string)
  {
    exists i, j :: 0 < i < j < |s| && EmailMatchAt(s, i, j)
  }

  /** The `match` validator of `email`, with `required` and `unique` checked elsewhere. */
  predicate EmailOk(a: Author)
  {
    Present(a.email) && MatchesEmail(a.email.value)
  }

  /** Every validator of the schema passes; `bio` is optional but bounded. */
  predicate Valid(a: Author)
  {
    Present(a.name) && EmailOk(a) && Present(a.password)
    && (a.bio.Some? ==> |a.bio.value| <= BioMaxLength)
  }

  /** Some stored author has this email (`Author.findOne({ email })` finds one). */
  predicate EmailTaken(stored: map<Id, Author>, email: string)
  {
    exists k :: k in stored && stored[k].email == Some(email)
  }

  /** No two stored authors share an email (the unique index on `email`). */
  ghost predicate EmailsUnique(stored: map<Id, Author>)
  {
    forall i, j :: i in stored && j in stored && i != j ==> stored[i].email != stored[j].email
  }

  /** The error, if any, with which inserting a new author `a` under `id` into `stored` fails:
      validation first, then the unique indexes on `_id` and `email`. */
  function InsertError(stored: map<Id, Author>, id: Id, a: Author): (e: Option<SaveError>)
    // `required` refuses a missing or empty string
    ensures !Present(a.name) || !Present(a.password) || !Present(a.email) ==> e == Some(ValidationFailed)
    ensures a.email.Some? && !MatchesEmail(a.email.value) ==> e == Some(ValidationFailed)
    ensures a.bio.Some? && |a.bio.value| > BioMaxLength ==> e == Some(ValidationFailed)
    ensures Valid(a) && id in stored ==> e == Some(DuplicateKey)
    ensures Valid(a) && EmailTaken(stored, a.email.value) ==> e == Some(DuplicateKey)
    ensures e.None? <==> Valid(a) && id !in stored && forall k :: k in stored ==> stored[k].email != a.email
  {
    if !Valid(a) then Some(ValidationFailed)
    else if id in stored || EmailTaken(stored, a.email.value) then Some(DuplicateKey)
    else None
  }

  /** An accepted insert keeps the emails of the collection unique. */
  lemma {:induction false} InsertKeepsEmailsUnique(stored: map<Id, Author>, id: Id, a: Author)
    requires EmailsUnique(stored)
    requires InsertError(stored, id, a).None?
    ensures EmailsUnique(stored[id := a])
  {
    var s := stored[id := a];
    forall i, j | i in s && j in s && i != j
      ensures s[i].email != s[j].email
    {
      if i != id && j != id {
        assert s[i] == stored[i] && s[j] == stored[j];
      } else if i == id {
        assert j in stored;
      } else {
        assert i in stored;
      }
    }
  }

  /** The email check looks for a match anywhere: text around an accepted address does not make
      it rejected. */
  lemma {:induction false} MatchesEmailUnanchored(p: string, s: string, q: string)
    requires MatchesEmail(s)
    ensures MatchesEmail(p + s + q)
  {
    var i, j :| 0 < i < j < |s| && EmailMatchAt(s, i, j);
    var t := p + s + q;
    forall k | 0 <= k < |s|
      ensures t[|p| + k] == s[k]
    {
    }
    assert t[|p| + i - 1] == s[i - 1] && t[|p| + j + 1] == s[j + 1];
    forall k | |p| + i < k < |p| + j
      ensures !IsWhitespace(t[k])
    {
      assert t[k] == s[k - |p|];
    }
    assert EmailMatchAt(t, |p| + i, |p| + j);
  }

  /** "a@b.c" is the shortest kind of accepted address. */
  lemma ShortAddressAccepted()
    ensures MatchesEmail("a@b.c")
  {
    assert EmailMatchAt("a@b.c", 1, 3);
  }

  /** Without a dot after the `@`, or with a space just before it, there is no match. */
  lemma AddressesRejected()
    ensures !MatchesEmail("a@b")
    ensures !MatchesEmail("a @b.c")
  {
  }
}
