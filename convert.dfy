/**
 * The two converters from a GitHub commit to a conventional-commit record:
 * the newer one flattens the parse result next to `author` and `sha`, the
 * older one nests it under `conventionalCommit`.
 */
module Convert {
  import opened Wrappers
  import opened Commits
  import opened Header

  /**
   * conventional-commits-parser run with the header pattern of this
   * repository: the header line is matched by `ParseHeader`; without a match
   * type, scope and subject are `null`. Notes come from the library.
   */
  function ParseWithHeaderPattern(lib: ParserLibrary, message: string): (p: Parsed)
    ensures p.notes == lib.notesOf(message)
    ensures p.commitType.None? <==> p.subject.None?
    ensures p.commitType.None? ==> p.scope.None?
    ensures p.commitType.Some? ==>
      lib.headerOf(message) == FormatHeader(p.commitType.value, p.scope, p.subject.value)
      && AllWordChars(p.commitType.value)
      && (p.scope.Some? ==> AllScopeChars(p.scope.value))
      && NoLineTerminator(p.subject.value)
  {
    match ParseHeader(lib.headerOf(message))
    case Match(t, scope, subject) => Parsed(Some(t), scope, Some(subject), lib.notesOf(message))
    case NoMatch => Parsed(None, None, None, lib.notesOf(message))
  }

  /**
   * A header the pattern does not match could not have been written as
   * `type(scope): subject` from the allowed alphabets: the parse only
   * fails on headers outside the grammar.
   */
  lemma NoMatchIsOutsideGrammar(lib: ParserLibrary, message: string)
    requires ParseWithHeaderPattern(lib, message).commitType.None?
    ensures forall t: string, scope: Option<string>, subject: string
      | AllWordChars(t) && (scope.Some? ==> AllScopeChars(scope.value)) && NoLineTerminator(subject)
      :: lib.headerOf(message) != FormatHeader(t, scope, subject)
  {
    forall t: string, scope: Option<string>, subject: string
      | AllWordChars(t) && (scope.Some? ==> AllScopeChars(scope.value)) && NoLineTerminator(subject)
      ensures lib.headerOf(message) != FormatHeader(t, scope, subject)
    {
      ParseFormatRoundTrip(t, scope, subject);
    }
  }

  /**
   * convertResToConventionalCommit: the parse result spread into the record,
   * then the commit's own `author` and `sha`, which take precedence.
   */
  function ConvertFlat(lib: ParserLibrary, c: RawCommit): (r: CommitRecord)
    ensures r.sha == c.sha && r.author == c.author
    ensures r.conventionalCommit.None?
    ensures r.notes == Some(lib.notesOf(c.message))
    ensures var p := ParseWithHeaderPattern(lib, c.message);
      r.commitType == p.commitType && r.scope == p.scope && r.subject == p.subject
  {
    var p := ParseWithHeaderPattern(lib, c.message);
    CommitRecord(p.commitType, p.scope, p.subject, Some(p.notes), None, c.sha, c.author)
  }

  /**
   * convertToConventionalCommit (both the `lib/` and the `index.js` copy):
   * the default parse of the message under `conventionalCommit`, next to
   * `sha` and `author`, and nothing at the top level.
   */
  function ConvertNested(lib: ParserLibrary, c: RawCommit): (r: CommitRecord)
    ensures r.sha == c.sha && r.author == c.author
    ensures r.conventionalCommit == Some(lib.parseDefault(c.message))
    ensures r.commitType.None? && r.scope.None? && r.subject.None? && r.notes.None?
  {
    CommitRecord(None, None, None, None, Some(lib.parseDefault(c.message)), c.sha, c.author)
  }

  /** Both converters read nothing of a commit but its message, sha and author. */
  lemma ConvertersReadMessageOnly(lib: ParserLibrary, c: RawCommit, d: RawCommit)
    requires c.message == d.message
    ensures ConvertFlat(lib, c) == ConvertFlat(lib, d).(sha := c.sha, author := c.author)
    ensures ConvertNested(lib, c) == ConvertNested(lib, d).(sha := c.sha, author := c.author)
  {
  }

  /** The newer converter as a function value, as handed to `map`. */
  function FlatConverter(lib: ParserLibrary): (convert: RawCommit -> CommitRecord)
  {
    c => ConvertFlat(lib, c)
  }

  /** The older converter as a function value, as handed to `map`. */
  function NestedConverter(lib: ParserLibrary): (convert: RawCommit -> CommitRecord)
  {
    c => ConvertNested(lib, c)
  }
}
