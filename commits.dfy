/**
 * The values that flow through the release pipeline: commits as the GitHub
 * API delivers them, the conventional-commit record the parser produces, and
 * the JavaScript objects the converters build from it.
 */
module Commits {
  import opened Wrappers

  /** A footer note, e.g. title "BREAKING CHANGE" with its text. */
  datatype Note = Note(title: string, text: string)

  /** The `commit.author` object of a GitHub commit. */
  datatype Author = Author(name: string, email: string, date: string)

  /** One element of a GitHub commit listing: `sha`, `commit.message`, `commit.author`. */
  datatype RawCommit = RawCommit(sha: string, message: string, author: Author)

  /**
   * What conventional-commits-parser returns for one message: the header
   * parts (`null` when absent) and the footer notes.
   */
  datatype Parsed = Parsed(
    commitType: Option<string>,
    scope: Option<string>,
    subject: Option<string>,
    notes: seq<Note>)

  /**
   * A converted commit as a JavaScript object. The predicates read its
   * top-level `type` and `notes`; the older pipeline reads the same fields
   * under `conventionalCommit`. A field the converter did not set is `None`.
   */
  datatype CommitRecord = CommitRecord(
    commitType: Option<string>,
    scope: Option<string>,
    subject: Option<string>,
    notes: Option<seq<Note>>,
    conventionalCommit: Option<Parsed>,
    sha: string,
    author: Author)

  /**
   * The parts of conventional-commits-parser that are not part of this model:
   * how a message is split into its header line (`headerOf`), which footer
   * notes it carries (`notesOf`), and the whole parse with the library's
   * default options (`parseDefault`).
   */
  datatype ParserLibrary = ParserLibrary(
    headerOf: string -> string,
    notesOf: string -> seq<Note>,
    parseDefault: string -> Parsed)

  /**
   * The data handed to the release-notes template: the commits grouped by
   * key, the release date, the previous tag and the new tag (the
   * repository owner and name are left out).
   */
  datatype TemplateContext = TemplateContext(
    commits: map<Option<string>, seq<CommitRecord>>,
    date: string,
    preTag: string,
    tag: string)

  /** The parameters of `repos.createRelease` besides owner and repository. */
  datatype ReleaseRequest = ReleaseRequest(
    tagName: string,
    targetCommitish: string,
    name: string,
    body: string,
    draft: bool,
    prerelease: bool)
}
