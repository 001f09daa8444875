/** convertToReleasableCommits: convert every commit, then keep the releasable ones. */
module Releasable {
  import opened Wrappers
  import opened Commits
  import opened Lodash
  import opened Convert
  import opened Classify

  /**
   * The `map` then `filter` chain, over whichever converter is composed in:
   * the result keeps exactly the releasable conversions, in input order,
   * each as often as it occurs.
   */
  function ConvertToReleasableCommits(convert: RawCommit -> CommitRecord, commits: seq<RawCommit>): (r: seq<CommitRecord>)
    ensures |r| <= |commits|
    ensures forall x | x in r :: IsReleasableCommit(x)
    ensures IsSubsequence(r, Map(commits, convert))
    ensures forall i | 0 <= i < |commits| :: convert(commits[i]) in r <==> IsReleasableCommit(convert(commits[i]))
    ensures forall x | x in r :: exists i | 0 <= i < |commits| :: x == convert(commits[i])
    ensures forall x :: multiset(r)[x] == if IsReleasableCommit(x) then multiset(Map(commits, convert))[x] else 0
  {
    var converted := Map(commits, convert);
    FilterIsSubsequence(converted, IsReleasableCommit);
    assert forall i | 0 <= i < |commits| :: convert(commits[i]) in converted by {
      forall i | 0 <= i < |commits| ensures convert(commits[i]) in converted {
        assert converted[i] == convert(commits[i]);
      }
    }
    Filter(converted, IsReleasableCommit)
  }

  /**
   * As composed in this repository, with the nesting converter, the
   * predicates find neither a top-level type nor top-level notes, so every
   * commit is filtered out.
   */
  lemma NestedKeepsNothing(lib: ParserLibrary, commits: seq<RawCommit>)
    ensures ConvertToReleasableCommits(NestedConverter(lib), commits) == []
  {
    var converted := Map(commits, NestedConverter(lib));
    forall i | 0 <= i < |converted| ensures !IsReleasableCommit(converted[i]) {
      assert converted[i] == ConvertNested(lib, commits[i]);
    }
    FilterNone(converted, IsReleasableCommit);
  }

  /**
   * With the flattening converter, a commit whose header reads
   * `feat: ...`, `fix: ...` or carries a `BREAKING CHANGE` note is kept,
   * with its sha and author.
   */
  lemma FlatKeepsReleasable(lib: ParserLibrary, commits: seq<RawCommit>, i: nat)
    requires i < |commits|
    requires ParseWithHeaderPattern(lib, commits[i].message).commitType in {Some("feat"), Some("fix")}
      || SomeTitled(lib.notesOf(commits[i].message), BreakingChangeTitle)
    ensures var r := ConvertToReleasableCommits(FlatConverter(lib), commits);
      exists j | 0 <= j < |r| :: r[j] == ConvertFlat(lib, commits[i]) && r[j].sha == commits[i].sha && r[j].author == commits[i].author
  {
    var c := ConvertFlat(lib, commits[i]);
    ReleasableExamples(c);
    var r := ConvertToReleasableCommits(FlatConverter(lib), commits);
    assert FlatConverter(lib)(commits[i]) == c;
    assert c in r;
  }
}
