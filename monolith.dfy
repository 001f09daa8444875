/**
 * The older, single-file push handler (`index.js`): its own copies of the
 * classification, the since-tag baseline, the page drain, the trim of the
 * last fetched commit, the date slice and the release request. Its
 * predicates read the parse result under `conventionalCommit`, which is
 * where its converter puts it.
 */
module Monolith {
  import opened Wrappers
  import opened Commits
  import opened Lodash
  import opened Convert
  import opened Classify
  import opened SemverType
  import opened LatestTag
  import opened Pages

  /** Only pushes to this branch trigger a release. */
  const DefaultBranch: string := "master"

  /** The version assumed when the repository has no release yet. */
  const InitialVersion: string := "0.0.0"

  /** The page size of the first commits request. */
  const PerPage: nat := 100

  /** getLatestReleaseTagName: the latest release's tag, or `0.0.0` when the request is rejected. */
  function GetLatestReleaseTagName(latest: LatestRelease): (tag: string)
    ensures tag == GetLatestReleaseTag(latest, Some(InitialVersion))
    ensures latest.NoRelease? ==> tag == InitialVersion
  {
    match latest
    case Released(tagName) => tagName
    case NoRelease => InitialVersion
  }

  /** isBreakingChang: some note of the nested parse result is titled exactly `BREAKING CHANGE`. */
  function IsBreakingChang(c: CommitRecord): (b: bool)
    ensures b <==>
      (c.conventionalCommit.Some?
       && exists i | 0 <= i < |c.conventionalCommit.value.notes| :: c.conventionalCommit.value.notes[i].title == BreakingChangeTitle)
  {
    c.conventionalCommit.Some? && SomeTitled(c.conventionalCommit.value.notes, BreakingChangeTitle)
  }

  /** The nested type is exactly `feat` or `fix`: lodash `includes` on an array tests membership. */
  function HasReleasableType(c: CommitRecord): (b: bool)
    ensures b <==> c.conventionalCommit.Some? && c.conventionalCommit.value.commitType in {Some("feat"), Some("fix")}
  {
    match c.conventionalCommit
    case Some(p) => p.commitType == Some("feat") || p.commitType == Some("fix")
    case None => false
  }

  /** isReleasableCommit: type exactly `feat` or `fix`, or a breaking note. */
  function IsReleasableCommit(c: CommitRecord): (b: bool)
    ensures b <==>
      (c.conventionalCommit.Some?
       && (c.conventionalCommit.value.commitType in {Some("feat"), Some("fix")}
           || exists i | 0 <= i < |c.conventionalCommit.value.notes| :: c.conventionalCommit.value.notes[i].title == BreakingChangeTitle))
    ensures b ==> GroupReleasableCommit(c) in {Some(BreakingChangeKey), Some("feat"), Some("fix")}
    ensures !IsBreakingChang(c) && c.conventionalCommit.Some? && c.conventionalCommit.value.commitType == Some("docs") ==> !b
    ensures c.conventionalCommit.None? ==> !b
  {
    HasReleasableType(c) || IsBreakingChang(c)
  }

  /** groupReleasableCommit: `breakingChange` for a breaking commit, its nested type otherwise. */
  function GroupReleasableCommit(c: CommitRecord): (k: Option<string>)
    ensures IsBreakingChang(c) ==> k == Some(BreakingChangeKey)
    ensures !IsBreakingChang(c) && c.conventionalCommit.Some? ==> k == c.conventionalCommit.value.commitType
    ensures c.conventionalCommit.None? ==> k == None
  {
    if IsBreakingChang(c) then Some(BreakingChangeKey)
    else match c.conventionalCommit
      case Some(p) => p.commitType
      case None => None
  }

  /**
   * Step 2 of the handler: drop the last fetched commit, convert with the
   * nesting converter, keep the releasable ones and group them.
   */
  function ReleasableGroups(lib: ParserLibrary, all: seq<RawCommit>): (groups: map<Option<string>, seq<CommitRecord>>)
    ensures forall k | k in groups :: groups[k] != [] && forall j | 0 <= j < |groups[k]| ::
      IsReleasableCommit(groups[k][j]) && GroupReleasableCommit(groups[k][j]) == k
  {
    var releasable := Filter(Map(DropRight(all), NestedConverter(lib)), IsReleasableCommit);
    assert forall x | x in releasable :: IsReleasableCommit(x);
    GroupBy(releasable, GroupReleasableCommit)
  }

  /**
   * The groups partition the releasable commits of every fetched commit
   * but the last, in order, under breakingChange, feat or fix only; so a
   * release type is undefined exactly when there are no groups at all.
   */
  lemma ReleasableGroupsCallForBump(lib: ParserLibrary, all: seq<RawCommit>)
    ensures var releasable := Filter(Map(DropRight(all), NestedConverter(lib)), IsReleasableCommit);
      var groups := ReleasableGroups(lib, all);
      forall k | k in groups ::
        k in {Some(BreakingChangeKey), Some("feat"), Some("fix")}
        && groups[k] == WithKey(releasable, GroupReleasableCommit, k) != []
    ensures GetSemverType(ReleasableGroups(lib, all)).None? <==> ReleasableGroups(lib, all) == map[]
  {
    var releasable := Filter(Map(DropRight(all), NestedConverter(lib)), IsReleasableCommit);
    GroupByIsPartition(releasable, GroupReleasableCommit);
    var groups := ReleasableGroups(lib, all);
    forall k | k in groups ensures k in {Some(BreakingChangeKey), Some("feat"), Some("fix")} {
      assert IsReleasableCommit(groups[k][0]) && GroupReleasableCommit(groups[k][0]) == k;
    }
  }

  /** The last fetched commit is trimmed, so a range of one commit has nothing to release. */
  lemma OneCommitRangeHasNoGroups(lib: ParserLibrary, c: RawCommit)
    ensures ReleasableGroups(lib, [c]) == map[]
    ensures GetSemverType(ReleasableGroups(lib, [c])).None?
  {
    assert DropRight([c]) == [];
  }

  /** A tag as `repos.getTags` lists it: its name and its commit's sha. */
  datatype Tag = Tag(name: string, commitSha: string)

  /** lodash `find(tags, { name })` then `commit.sha`: the sha of the first tag with that name. */
  function FindTagSha(tags: seq<Tag>, name: string): (sha: Option<string>)
    ensures sha.Some? <==> exists i | 0 <= i < |tags| :: tags[i].name == name
    ensures sha.Some? ==> exists i | 0 <= i < |tags| ::
      tags[i].name == name && tags[i].commitSha == sha.value && forall j | 0 <= j < i :: tags[j].name != name
  {
    if tags == [] then None
    else if tags[0].name == name then Some(tags[0].commitSha)
    else
      var sha := FindTagSha(tags[1..], name);
      assert sha.Some? ==> exists i | 0 <= i < |tags| ::
        tags[i].name == name && tags[i].commitSha == sha.value && forall j | 0 <= j < i :: tags[j].name != name
      by {
        if sha.Some? {
          var i :| 0 <= i < |tags[1..]| && tags[1..][i].name == name && tags[1..][i].commitSha == sha.value
            && forall j | 0 <= j < i :: tags[1..][j].name != name;
          assert tags[i + 1].name == name && forall j | 0 <= j < i + 1 :: tags[j].name != name;
        }
      }
      assert (exists i | 0 <= i < |tags| :: tags[i].name == name) ==> sha.Some? by {
        if exists i | 0 <= i < |tags| :: tags[i].name == name {
          var i :| 0 <= i < |tags| && tags[i].name == name;
          assert tags[1..][i - 1].name == name;
        }
      }
      sha
  }

  /** The parameters of `repos.getCommits` besides owner and repository. */
  datatype CommitsQuery = CommitsQuery(since: Option<string>, perPage: nat)

  /**
   * The GitHub requests of the handler, as the values they settle with:
   * `repos.getTags`; `repos.getCommit` for a sha (absent when no tag
   * matched) read at `commit.author.date`; and the responses of
   * `repos.getCommits` for a query followed by its `getNextPage` chain.
   */
  datatype GitHub = GitHub(
    tags: Result<seq<Tag>>,
    commitDate: Option<string> -> Result<Option<string>>,
    commitPages: CommitsQuery -> seq<Response<RawCommit>>)

  /**
   * getCommitsSince's baseline: no `since` for the initial version;
   * otherwise the author date of the commit of the first tag named like
   * the latest release.
   */
  function Since(tagName: string, github: GitHub): (since: Result<Option<string>>)
    ensures tagName == InitialVersion ==> since == Ok(None)
    ensures tagName != InitialVersion && github.tags.Err? ==> since == Err
    ensures tagName != InitialVersion && github.tags.Ok? ==>
      since == github.commitDate(FindTagSha(github.tags.value, tagName))
  {
    if tagName == InitialVersion then Ok(None)
    else match github.tags
      case Err => Err
      case Ok(tags) => github.commitDate(FindTagSha(tags, tagName))
  }

  /** Every commit since the latest release, as the drained listing settles. */
  function CommitsSince(tagName: string, github: GitHub): (commits: Result<seq<RawCommit>>)
    ensures tagName == InitialVersion ==> commits == Drained(github.commitPages(CommitsQuery(None, 100)))
    ensures Since(tagName, github).Err? ==> commits == Err
    ensures Since(tagName, github).Ok? ==>
      commits == Drained(github.commitPages(CommitsQuery(Since(tagName, github).value, 100)))
  {
    match Since(tagName, github)
    case Err => Err
    case Ok(since) => Drained(github.commitPages(CommitsQuery(since, PerPage)))
  }

  /** The part of `s` before its first `T`: lodash `split(s, 'T')` then `head`. */
  function BeforeFirstT(s: string): (date: string)
    ensures |date| <= |s| && s[..|date|] == date
    ensures forall i | 0 <= i < |date| :: date[i] != 'T'
    ensures |date| < |s| ==> s[|date|] == 'T'
  {
    if s == [] || s[0] == 'T' then []
    else
      var rest := BeforeFirstT(s[1..]);
      assert s[..1 + |rest|] == [s[0]] + s[1..][..|rest|];
      [s[0]] + rest
  }

  /** The release date: the head commit's timestamp up to its first `T`; an absent timestamp reads as empty. */
  function ReleaseDate(headCommitTimestamp: Option<string>): (date: string)
    ensures headCommitTimestamp.None? ==> date == ""
    ensures headCommitTimestamp.Some? ==> var s := headCommitTimestamp.value;
      |date| <= |s| && s[..|date|] == date && (forall i | 0 <= i < |date| :: date[i] != 'T')
      && (|date| < |s| ==> s[|date|] == 'T')
  {
    BeforeFirstT(headCommitTimestamp.GetOr(""))
  }

  /** A timestamp in ISO 8601 form yields its calendar date. */
  lemma ReleaseDateOfIsoTimestamp(date: string, time: string)
    requires forall i | 0 <= i < |date| :: date[i] != 'T'
    ensures ReleaseDate(Some(date + "T" + time)) == date
  {
    var s := date + "T" + time;
    var d := ReleaseDate(Some(s));
    assert s[|date|] == 'T';
    assert s[..|date|] == date;
  }

  /** How the handler ends; a rejected request makes the whole handler reject. */
  datatype PushOutcome =
    | OtherRef
    | InvalidTag
    | Rejected
    | NoReleaseType
    | CreateRelease(request: ReleaseRequest, context: TemplateContext)

  /**
   * The push handler of index.js. `render` is the compiled release
   * template and `headCommitTimestamp` the event's head commit timestamp.
   */
  method OnPush(
    ref: string, latest: LatestRelease, semver: Semver, github: GitHub, lib: ParserLibrary,
    headCommitTimestamp: Option<string>, render: TemplateContext -> string)
    returns (o: PushOutcome)
    ensures ref != "refs/heads/" + DefaultBranch <==> o == OtherRef
    ensures var tag := GetLatestReleaseTagName(latest);
      o == InvalidTag <==> ref == "refs/heads/" + DefaultBranch && semver.valid(tag) == JsFalse
    ensures var tag := GetLatestReleaseTagName(latest);
      o == Rejected <==>
        ref == "refs/heads/" + DefaultBranch && semver.valid(tag) != JsFalse && CommitsSince(tag, github).Err?
    ensures o == NoReleaseType ==>
      var all := CommitsSince(GetLatestReleaseTagName(latest), github);
      all.Ok? && ReleasableGroups(lib, all.value) == map[]
    ensures o.CreateRelease? ==>
      var tag := GetLatestReleaseTagName(latest);
      var all := CommitsSince(tag, github);
      var groups := ReleasableGroups(lib, all.value);
      var bump := GetSemverType(groups);
      var nextTag := NextTag(semver.inc(tag, bump));
      all.Ok? && groups != map[] && bump.Some?
      && o.context == TemplateContext(groups, ReleaseDate(headCommitTimestamp), tag, nextTag)
      && o.request == ReleaseRequest(nextTag, DefaultBranch, nextTag, render(o.context), false, false)
  {
    if ref != "refs/heads/" + DefaultBranch {
      return OtherRef;
    }
    var tag := GetLatestReleaseTagName(latest);
    if semver.valid(tag) == JsFalse {
      return InvalidTag;
    }
    var since := Since(tag, github);
    if since.Err? {
      return Rejected;
    }
    var all := DrainPages(github.commitPages(CommitsQuery(since.value, PerPage)));
    if all.Err? {
      return Rejected;
    }
    var groups := ReleasableGroups(lib, all.value);
    var bump := GetSemverType(groups);
    ReleasableGroupsCallForBump(lib, all.value);
    if bump.None? {
      return NoReleaseType;
    }
    var nextTag := NextTag(semver.inc(tag, bump));
    var context := TemplateContext(groups, ReleaseDate(headCommitTimestamp), tag, nextTag);
    o := CreateRelease(ReleaseRequest(nextTag, DefaultBranch, nextTag, render(context), false, false), context);
  }
}
