/**
 * The conventional-commit header pattern `/^(\w*)(?:\(([\w$.\-*\/ ]*)\))?: (.*)$/`
 * applied to a header line. The pattern leaves no choice to backtracking:
 * `\w*` must stop at the first non-word character (only `(` or `:` may
 * follow), the scope class excludes `)`, and the rest is literal, so the
 * match is computed by scanning left to right.
 */
module Header {
  import opened Wrappers

  /** `\w` without the `u` flag. */
  predicate IsWordChar(c: char)
  {
    'a' <= c <= 'z' || 'A' <= c <= 'Z' || '0' <= c <= '9' || c == '_'
  }

  /** The scope class `[\w$.\-*\/ ]`. */
  predicate IsScopeChar(c: char)
  {
    IsWordChar(c) || c == '$' || c == '.' || c == '-' || c == '*' || c == '/' || c == ' '
  }

  /** The characters JavaScript's `.` does not match. */
  predicate IsLineTerminator(c: char)
  {
    c == '\n' || c == '\r' || c == '\U{2028}' || c == '\U{2029}'
  }

  predicate AllWordChars(s: string)
  {
    forall i | 0 <= i < |s| :: IsWordChar(s[i])
  }

  predicate AllScopeChars(s: string)
  {
    forall i | 0 <= i < |s| :: IsScopeChar(s[i])
  }

  predicate NoLineTerminator(s: string)
  {
    forall i | 0 <= i < |s| :: !IsLineTerminator(s[i])
  }

  /** Length of the longest prefix of `s` matched by `\w*`. */
  function WordLength(s: string): (n: nat)
    ensures n <= |s| && AllWordChars(s[..n])
    ensures n < |s| ==> !IsWordChar(s[n])
  {
    if |s| > 0 && IsWordChar(s[0]) then
      var n := 1 + WordLength(s[1..]);
      assert s[..n] == [s[0]] + s[1..][..n - 1];
      n
    else 0
  }

  /** Length of the longest prefix of `s` matched by the scope class. */
  function ScopeLength(s: string): (n: nat)
    ensures n <= |s| && AllScopeChars(s[..n])
    ensures n < |s| ==> !IsScopeChar(s[n])
  {
    if |s| > 0 && IsScopeChar(s[0]) then
      var n := 1 + ScopeLength(s[1..]);
      assert s[..n] == [s[0]] + s[1..][..n - 1];
      n
    else 0
  }

  /** The three capture groups of a successful match; `scope` is `None` when group 2 did not take part. */
  datatype HeaderMatch = NoMatch | Match(commitType: string, scope: Option<string>, subject: string)

  /** The parenthesised scope as it appears in a header, or nothing. */
  function ScopePart(scope: Option<string>): (part: string)
  {
    match scope
    case Some(s) => "(" + s + ")"
    case None => ""
  }

  /** The header a match was read from: `type(scope): subject` or `type: subject`. */
  function FormatHeader(commitType: string, scope: Option<string>, subject: string): (header: string)
  {
    commitType + (ScopePart(scope) + (": " + subject))
  }

  predicate StartsWithSeparator(s: string)
  {
    |s| >= 2 && s[..2] == ": "
  }

  /** The tail `: (.*)$` after type and scope. */
  function MatchSubject(commitType: string, scope: Option<string>, rest: string): (m: HeaderMatch)
    ensures m.Match? ==> m.commitType == commitType && m.scope == scope
    ensures m.Match? ==> NoLineTerminator(m.subject) && rest == ": " + m.subject
  {
    if StartsWithSeparator(rest) && NoLineTerminator(rest[2..]) then
      assert rest == rest[..2] + rest[2..];
      Match(commitType, scope, rest[2..])
    else NoMatch
  }

  /** The optional group `(?:\(([\w$.\-*\/ ]*)\))?` and the rest, after the type. */
  function MatchScope(commitType: string, rest: string): (m: HeaderMatch)
    ensures m.Match? ==> m.commitType == commitType && rest == ScopePart(m.scope) + (": " + m.subject)
    ensures m.Match? && m.scope.Some? ==> AllScopeChars(m.scope.value)
  {
    if |rest| > 0 && rest[0] == '(' then
      var inner := rest[1..];
      var n := ScopeLength(inner);
      if n < |inner| && inner[n] == ')' then
        var m := MatchSubject(commitType, Some(inner[..n]), inner[n + 1..]);
        assert m.Match? ==> inner == inner[..n] + [')'] + inner[n + 1..];
        assert rest == [rest[0]] + inner;
        m
      else NoMatch
    else
      MatchSubject(commitType, None, rest)
  }

  /**
   * The header regex. A match splits the header into a word-character type
   * (possibly empty), an optional scope over the scope class and a subject without line terminators, joined exactly as
   * `FormatHeader` joins them.
   */
  function ParseHeader(header: string): (m: HeaderMatch)
    ensures m.Match? ==> AllWordChars(m.commitType)
    ensures m.Match? && m.scope.Some? ==> AllScopeChars(m.scope.value)
    ensures m.Match? ==> NoLineTerminator(m.subject)
    ensures m.Match? ==> header == FormatHeader(m.commitType, m.scope, m.subject)
  {
    var t := WordLength(header);
    assert header == header[..t] + header[t..];
    MatchScope(header[..t], header[t..])
  }

  /** A matched scope never holds the closing parenthesis. */
  lemma ScopeHasNoClosingParen(header: string)
    requires ParseHeader(header).Match? && ParseHeader(header).scope.Some?
    ensures ')' !in ParseHeader(header).scope.value
  {
  }

  lemma {:induction false} WordLengthOfPrefix(t: string, rest: string)
    requires AllWordChars(t)
    requires rest == [] || !IsWordChar(rest[0])
    ensures WordLength(t + rest) == |t|
  {
    if t != [] {
      assert (t + rest)[1..] == t[1..] + rest;
      WordLengthOfPrefix(t[1..], rest);
    }
  }

  lemma {:induction false} ScopeLengthOfPrefix(s: string, rest: string)
    requires AllScopeChars(s)
    requires rest == [] || !IsScopeChar(rest[0])
    ensures ScopeLength(s + rest) == |s|
  {
    if s != [] {
      assert (s + rest)[1..] == s[1..] + rest;
      ScopeLengthOfPrefix(s[1..], rest);
    }
  }

  /** After the type, a header of the form `t + rest` is parsed from `rest` on. */
  lemma ParseAfterType(commitType: string, rest: string)
    requires AllWordChars(commitType)
    requires rest == [] || !IsWordChar(rest[0])
    ensures ParseHeader(commitType + rest) == MatchScope(commitType, rest)
  {
    WordLengthOfPrefix(commitType, rest);
    var header := commitType + rest;
    assert header[..|commitType|] == commitType && header[|commitType|..] == rest;
  }

  /** A parenthesised scope over the scope class is taken whole, and matching goes on after `)`. */
  lemma ParseScope(commitType: string, scope: string, rest: string)
    requires AllScopeChars(scope)
    ensures MatchScope(commitType, ScopePart(Some(scope)) + rest) == MatchSubject(commitType, Some(scope), rest)
  {
    var inner := scope + ([')'] + rest);
    assert ScopePart(Some(scope)) + rest == [ '(' ] + inner;
    assert (ScopePart(Some(scope)) + rest)[1..] == inner;
    ScopeLengthOfPrefix(scope, [')'] + rest);
    assert inner[..|scope|] == scope && inner[|scope| + 1..] == rest;
  }

  lemma MatchSubjectOfFormat(commitType: string, scope: Option<string>, subject: string)
    requires NoLineTerminator(subject)
    ensures MatchSubject(commitType, scope, ": " + subject) == Match(commitType, scope, subject)
  {
    var rest := ": " + subject;
    assert rest[..2] == ": " && rest[2..] == subject;
  }

  /**
   * Round trip: a header built from a word-character type, an optional scope
   * over the scope class and a one-line subject parses back to exactly those
   * three parts; without parentheses the scope is absent.
   */
  lemma ParseFormatRoundTrip(commitType: string, scope: Option<string>, subject: string)
    requires AllWordChars(commitType)
    requires scope.Some? ==> AllScopeChars(scope.value)
    requires NoLineTerminator(subject)
    ensures ParseHeader(FormatHeader(commitType, scope, subject)) == Match(commitType, scope, subject)
  {
    var rest := ScopePart(scope) + (": " + subject);
    assert FormatHeader(commitType, scope, subject) == commitType + rest;
    match scope
    case None =>
      assert rest == ": " + subject;
      ParseAfterType(commitType, rest);
      MatchSubjectOfFormat(commitType, scope, subject);
    case Some(s) =>
      assert rest[0] == '(';
      ParseAfterType(commitType, rest);
      ParseScope(commitType, s, ": " + subject);
      MatchSubjectOfFormat(commitType, scope, subject);
  }

  /** Test case: `fix(controllers/auth): oauth login failed` keeps the slash in the scope. */
  lemma ParsesSlashInScope()
    ensures ParseHeader(FormatHeader("fix", Some("controllers/auth"), "oauth login failed"))
      == Match("fix", Some("controllers/auth"), "oauth login failed")
  {
    assert AllWordChars("fix") && AllScopeChars("controllers/auth");
    assert NoLineTerminator("oauth login failed");
    ParseFormatRoundTrip("fix", Some("controllers/auth"), "oauth login failed");
  }

  /** Test case: `fix(controllers auth): oauth login failed` keeps the space in the scope. */
  lemma ParsesSpaceInScope()
    ensures ParseHeader(FormatHeader("fix", Some("controllers auth"), "oauth login failed"))
      == Match("fix", Some("controllers auth"), "oauth login failed")
  {
    assert AllWordChars("fix") && AllScopeChars("controllers auth");
    assert NoLineTerminator("oauth login failed");
    ParseFormatRoundTrip("fix", Some("controllers auth"), "oauth login failed");
  }

  /** Without the literal `": "` right after the type there is no match. */
  lemma MissingSeparatorAfterType(commitType: string, rest: string)
    requires AllWordChars(commitType)
    requires rest != [] && !IsWordChar(rest[0]) && rest[0] != '('
    requires !StartsWithSeparator(rest)
    ensures ParseHeader(commitType + rest) == NoMatch
  {
    ParseAfterType(commitType, rest);
  }

  /** Without the literal `": "` right after the closing parenthesis there is no match. */
  lemma MissingSeparatorAfterScope(commitType: string, scope: string, rest: string)
    requires AllWordChars(commitType) && AllScopeChars(scope)
    requires !StartsWithSeparator(rest)
    ensures ParseHeader(commitType + (ScopePart(Some(scope)) + rest)) == NoMatch
  {
    ParseAfterType(commitType, ScopePart(Some(scope)) + rest);
    ParseScope(commitType, scope, rest);
  }

  /** `fix:x` does not match: the colon is not followed by a space. */
  lemma RejectsColonWithoutSpace()
    ensures ParseHeader("fix" + ":x") == NoMatch
  {
    assert AllWordChars("fix") && ":x"[1] == 'x';
    MissingSeparatorAfterType("fix", ":x");
  }

  /** `fix(a)b: c` does not match: text stands between the scope and the colon. */
  lemma RejectsTextAfterScope()
    ensures ParseHeader("fix" + ("(a)" + "b: c")) == NoMatch
  {
    assert AllWordChars("fix") && AllScopeChars("a") && "b: c"[0] == 'b';
    MissingSeparatorAfterScope("fix", "a", "b: c");
    assert ScopePart(Some("a")) == "(a)";
  }
}
