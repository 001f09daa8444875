/**
 * The push handler of the `lib/` generation: decide from a push event
 * whether to create a release, and with which tag and notes.
 */
module PushedMaster {
  import opened Wrappers
  import opened Commits
  import opened Lodash
  import opened Convert
  import opened Classify
  import opened Releasable
  import opened SemverType
  import opened LatestTag

  /** How the handler ends; `CreateRelease` carries the request it sends. */
  datatype PushOutcome =
    | OtherBranch
    | InvalidTag
    | NoReleasableCommits
    | NoReleaseType
    | CreateRelease(request: ReleaseRequest)

  /** groupBy(releasableCommits, getTemplatableCommitType). */
  function TemplatableGroups(releasable: seq<CommitRecord>): (groups: map<Option<string>, seq<CommitRecord>>)
    ensures forall k | k in groups :: groups[k] != [] && forall j | 0 <= j < |groups[k]| :: GetTemplatableCommitType(groups[k][j]) == k
  {
    GroupBy(releasable, GetTemplatableCommitType)
  }

  /**
   * Every group is non-empty, holds the commits filed under its key in
   * input order, and exists exactly when some commit carries that key.
   * For releasable commits the key is breakingChange or a type passing the
   * feature or hotfix test.
   */
  lemma TemplatableGroupsArePartition(releasable: seq<CommitRecord>)
    requires forall x | x in releasable :: IsReleasableCommit(x)
    ensures var groups := TemplatableGroups(releasable);
      forall k | k in groups ::
        groups[k] != []
        && groups[k] == WithKey(releasable, GetTemplatableCommitType, k)
        && (forall j | 0 <= j < |groups[k]| :: GetTemplatableCommitType(groups[k][j]) == k)
        && (k == Some(BreakingChangeKey) || (k.Some? && (Includes("feat", k.value) || Includes("fix", k.value))))
    ensures forall i | 0 <= i < |releasable| :: GetTemplatableCommitType(releasable[i]) in TemplatableGroups(releasable)
  {
    GroupByIsPartition(releasable, GetTemplatableCommitType);
    var groups := TemplatableGroups(releasable);
    forall k | k in groups
      ensures k == Some(BreakingChangeKey) || (k.Some? && (Includes("feat", k.value) || Includes("fix", k.value)))
    {
      var i :| 0 <= i < |releasable| && GetTemplatableCommitType(releasable[i]) == k;
      TemplatableKeyOfReleasable(releasable[i]);
    }
  }

  /**
   * onPushedMaster as written: the ref gate, the latest tag and its
   * `=== false` validity check, the releasable commits, then the bump, the
   * next tag and the release request, with no check that a bump was found.
   * `convert` is the converter composed into convertToReleasableCommits,
   * `render` the compiled release template and `date` today's date.
   */
  function OnPushedMaster(
    config: Config, ref: string, commits: seq<RawCommit>, latest: LatestRelease,
    semver: Semver, convert: RawCommit -> CommitRecord,
    render: TemplateContext -> string, date: string): (o: PushOutcome)
    ensures ref != "refs/heads/" + config.releaseBranch <==> o == OtherBranch
    ensures var tag := GetLatestReleaseTag(latest, config.initialVersion);
      o == InvalidTag <==> ref == "refs/heads/" + config.releaseBranch && semver.valid(tag) == JsFalse
    ensures o == NoReleasableCommits <==>
      ref == "refs/heads/" + config.releaseBranch
      && semver.valid(GetLatestReleaseTag(latest, config.initialVersion)) != JsFalse
      && ConvertToReleasableCommits(convert, commits) == []
    ensures o != NoReleaseType
    ensures o.CreateRelease? ==>
      var preTag := GetLatestReleaseTag(latest, config.initialVersion);
      var groups := TemplatableGroups(ConvertToReleasableCommits(convert, commits));
      var tag := NextTag(semver.inc(preTag, GetSemverType(groups)));
      groups != map[]
      && o.request == ReleaseRequest(tag, config.releaseBranch, tag, render(TemplateContext(groups, date, preTag, tag)), false, false)
  {
    if ref != "refs/heads/" + config.releaseBranch then OtherBranch
    else
      var preTag := GetLatestReleaseTag(latest, config.initialVersion);
      if semver.valid(preTag) == JsFalse then InvalidTag
      else
        var releasable := ConvertToReleasableCommits(convert, commits);
        if |releasable| == 0 then NoReleasableCommits
        else
          var groups := TemplatableGroups(releasable);
          assert groups != map[] by {
            GroupByIsPartition(releasable, GetTemplatableCommitType);
            assert GetTemplatableCommitType(releasable[0]) in groups;
          }
          var tag := NextTag(semver.inc(preTag, GetSemverType(groups)));
          CreateRelease(ReleaseRequest(tag, config.releaseBranch, tag, render(TemplateContext(groups, date, preTag, tag)), false, false))
  }

  /**
   * Composed as in this repository, with the nesting converter, no push
   * ever leads to a release: it ends before any grouping.
   */
  lemma AsWrittenNeverReleases(
    lib: ParserLibrary, config: Config, ref: string, commits: seq<RawCommit>, latest: LatestRelease,
    semver: Semver, render: TemplateContext -> string, date: string)
    ensures !OnPushedMaster(config, ref, commits, latest, semver, NestedConverter(lib), render, date).CreateRelease?
  {
    NestedKeepsNothing(lib, commits);
  }

  /**
   * With the flattening converter, one commit whose header type is `fe`
   * passes the substring feature test, lands in group `fe`, and the
   * release is created with `semver.inc` called on an undefined release
   * type.
   */
  lemma ReleasesWithoutBump(
    lib: ParserLibrary, config: Config, c: RawCommit, latest: LatestRelease,
    semver: Semver, render: TemplateContext -> string, date: string)
    requires ParseWithHeaderPattern(lib, c.message).commitType == Some("fe")
    requires !SomeTitled(lib.notesOf(c.message), BreakingChangeTitle)
    requires semver.valid(GetLatestReleaseTag(latest, config.initialVersion)) != JsFalse
    ensures var o := OnPushedMaster(config, "refs/heads/" + config.releaseBranch, [c], latest, semver, FlatConverter(lib), render, date);
      o.CreateRelease?
      && o.request.tagName == NextTag(semver.inc(GetLatestReleaseTag(latest, config.initialVersion), None))
  {
    var x := ConvertFlat(lib, c);
    SubstringTestAcceptsFragments(x);
    assert FlatConverter(lib)(c) == x;
    var releasable := ConvertToReleasableCommits(FlatConverter(lib), [c]);
    assert x in releasable;
    assert releasable == [x];
    FragmentGroupHasNoBump(x);
  }

  /** A lone commit filed under `fe` yields groups that call for no bump. */
  lemma FragmentGroupHasNoBump(x: CommitRecord)
    requires GetTemplatableCommitType(x) == Some("fe")
    ensures GetSemverType(TemplatableGroups([x])) == None
  {
    var groups := TemplatableGroups([x]);
    GroupByIsPartition([x], GetTemplatableCommitType);
    forall k | k in groups ensures k == Some("fe") {
      var i :| 0 <= i < 1 && GetTemplatableCommitType([x][i]) == k;
    }
  }

  /**
   * The push decision with the guard the older handler has: no release
   * when the groups call for no bump. A release then always passes a
   * release type to `semver.inc`, and otherwise the decision is unchanged.
   */
  function OnPushedMasterGuarded(
    config: Config, ref: string, commits: seq<RawCommit>, latest: LatestRelease,
    semver: Semver, convert: RawCommit -> CommitRecord,
    render: TemplateContext -> string, date: string): (o: PushOutcome)
    ensures o.CreateRelease? ==>
      var preTag := GetLatestReleaseTag(latest, config.initialVersion);
      var bump := GetSemverType(TemplatableGroups(ConvertToReleasableCommits(convert, commits)));
      bump.Some? && o.request.tagName == NextTag(semver.inc(preTag, bump))
    ensures var asWritten := OnPushedMaster(config, ref, commits, latest, semver, convert, render, date);
      o == asWritten || (o == NoReleaseType && asWritten.CreateRelease?)
  {
    var asWritten := OnPushedMaster(config, ref, commits, latest, semver, convert, render, date);
    if asWritten.CreateRelease? && GetSemverType(TemplatableGroups(ConvertToReleasableCommits(convert, commits))).None? then
      NoReleaseType
    else asWritten
  }

  /**
   * With the flattening converter and a releasable commit typed exactly
   * `feat` or `fix` or carrying a breaking note, a bump is always found, so
   * the guard changes nothing.
   */
  lemma GuardIdleOnExactTypes(
    lib: ParserLibrary, config: Config, ref: string, commits: seq<RawCommit>, latest: LatestRelease,
    semver: Semver, render: TemplateContext -> string, date: string, i: nat)
    requires i < |commits|
    requires ParseWithHeaderPattern(lib, commits[i].message).commitType in {Some("feat"), Some("fix")}
      || SomeTitled(lib.notesOf(commits[i].message), BreakingChangeTitle)
    ensures OnPushedMasterGuarded(config, ref, commits, latest, semver, FlatConverter(lib), render, date)
      == OnPushedMaster(config, ref, commits, latest, semver, FlatConverter(lib), render, date)
  {
    var releasable := ConvertToReleasableCommits(FlatConverter(lib), commits);
    FlatKeepsReleasable(lib, commits, i);
    var j :| 0 <= j < |releasable| && releasable[j] == ConvertFlat(lib, commits[i]);
    TemplatableGroupsArePartition(releasable);
    var k := GetTemplatableCommitType(releasable[j]);
    assert k in {Some(BreakingChangeKey), Some("feat"), Some("fix")};
  }
}
