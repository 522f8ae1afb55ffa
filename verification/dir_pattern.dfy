/**
 The directory policy of the combo server: the directory part of a script
 identifier must match the PCRE pattern `/^[a-z0-9-][a-z0-9-\/]*$/`.
 Without the `D` modifier PCRE lets `$` match either at the very end of the
 subject or just before a newline that ends it, so a directory followed by
 one trailing line feed is accepted as well; the model keeps that.
 */
module DirPattern {

  /** The first character class `[a-z0-9-]`. */
  predicate LeadChar(c: char)
  {
    ('a' <= c <= 'z') || ('0' <= c <= '9') || c == '-'
  }

  /** The repeated character class `[a-z0-9-/]`. */
  predicate BodyChar(c: char)
  {
    LeadChar(c) || c == '/'
  }

  /** The pattern matched against the whole of `d`: one lead character, then
      body characters only. */
  predicate Anchored(d: string)
  {
    |d| >= 1 && LeadChar(d[0]) && forall i :: 1 <= i < |d| ==> BodyChar(d[i])
  }

  /** What `preg_match` answers for the directory pattern on subject `d`. */
  predicate DirPatternMatches(d: string)
  {
    Anchored(d) || (|d| >= 2 && d[|d| - 1] == '\n' && Anchored(d[..|d| - 1]))
  }

  /** A left-to-right scan of `d` with the pattern's automaton: state 0 before
      the first character, state 1 inside the body, and a final look at a
      trailing line feed for the end anchor. */
  method MatchDirPattern(d: string) returns (matched: bool)
    ensures matched <==> DirPatternMatches(d)
  {
    if |d| == 0 || !LeadChar(d[0]) {
      return false;
    }
    var i := 1;
    while i < |d| && BodyChar(d[i])
      invariant 1 <= i <= |d|
      invariant forall j :: 1 <= j < i ==> BodyChar(d[j])
    {
      i := i + 1;
    }
    if i == |d| {
      return true;
    }
    // d[i] is the first character outside the body class: the subject still
    // matches when it is a line feed that ends the subject.
    matched := i == |d| - 1 && d[i] == '\n';
    if !matched {
      ForbiddenCharRejected(d, i);
    }
  }

  /** Any character outside `[a-z0-9-/]`, other than a line feed that ends
      the subject, makes the directory fail the pattern. */
  lemma ForbiddenCharRejected(d: string, i: int)
    requires 0 <= i < |d|
    requires !BodyChar(d[i])
    requires !(i == |d| - 1 && d[i] == '\n')
    ensures !DirPatternMatches(d)
  {
    if |d| >= 2 && d[|d| - 1] == '\n' && i < |d| - 1 {
      assert d[..|d| - 1][i] == d[i];
    }
  }

  /** The characters the combo server's policy is meant to keep out of a
      directory: dots (so `.` and `..`), upper-case letters and spaces. */
  predicate Forbidden(c: char)
  {
    c == '.' || c == ' ' || ('A' <= c <= 'Z')
  }

  /** A directory holding a dot, an upper-case letter or a space anywhere,
      starting with a slash, or empty, never matches. */
  lemma DirectoryPolicy(d: string)
    requires (exists i :: 0 <= i < |d| && Forbidden(d[i])) || d == "" || d[0] == '/'
    ensures !DirPatternMatches(d)
  {
    if d != "" && d[0] != '/' {
      var i :| 0 <= i < |d| && Forbidden(d[i]);
      ForbiddenCharRejected(d, i);
    }
  }
}
