/**
 * The pull-request handler: for a pull request opened against the release
 * branch, fetch the latest tag and every commit of the pull request. The
 * handler returns right after the fetch, so nothing after it is modelled.
 */
module ReleasePROpened {
  import opened Wrappers
  import opened Commits
  import opened SemverType
  import opened LatestTag
  import opened Pages

  /** The fields of a `pull_request` event the handler reads. */
  datatype PullRequestEvent = PullRequestEvent(action: string, baseRef: string, number: int)

  /** The `pullRequests.getCommits` parameters besides owner and repository. */
  datatype CommitsRequest = CommitsRequest(number: int, perPage: nat)

  /** The page size of the first request, the largest GitHub allows. */
  const PerPage: nat := 100

  /** How the handler ends; it never comments on the pull request. */
  datatype PullRequestOutcome =
    | NotOpenedForRelease
    | InvalidTag
    | FetchRejected
    | Fetched(request: CommitsRequest, commits: seq<RawCommit>)

  /** The gate: the pull request was just opened against the release branch. */
  predicate IsOpenedForRelease(config: Config, event: PullRequestEvent)
  {
    event.action == "opened" && event.baseRef == config.releaseBranch
  }

  /**
   * Under the default configuration the gate lets through exactly the pull
   * requests just opened against `master`.
   */
  lemma DefaultGateIsOpenedAgainstMaster(event: PullRequestEvent)
    ensures IsOpenedForRelease(DefaultConfig, event) <==> event.action == "opened" && event.baseRef == "master"
  {
  }

  /**
   * onReleasePROpened up to its unconditional return. `pullRequestPages`
   * gives the responses the first request and its `getNextPage` successors
   * settle with.
   */
  method OnReleasePROpened(
    config: Config, event: PullRequestEvent, latest: LatestRelease, semver: Semver,
    pullRequestPages: CommitsRequest -> seq<Response<RawCommit>>)
    returns (o: PullRequestOutcome)
    ensures !IsOpenedForRelease(config, event) <==> o == NotOpenedForRelease
    ensures o == InvalidTag <==>
      IsOpenedForRelease(config, event) && semver.valid(GetLatestReleaseTag(latest, config.initialVersion)) == JsFalse
    ensures o.FetchRejected? <==>
      IsOpenedForRelease(config, event) && semver.valid(GetLatestReleaseTag(latest, config.initialVersion)) != JsFalse
      && Drained(pullRequestPages(CommitsRequest(event.number, PerPage))).Err?
    ensures o.Fetched? ==>
      o.request == CommitsRequest(event.number, PerPage)
      && Drained(pullRequestPages(o.request)) == Ok(o.commits)
  {
    if !IsOpenedForRelease(config, event) {
      return NotOpenedForRelease;
    }
    var latestTag := GetLatestReleaseTag(latest, config.initialVersion);
    if semver.valid(latestTag) == JsFalse {
      return InvalidTag;
    }
    var request := CommitsRequest(event.number, PerPage);
    var all := DrainPages(pullRequestPages(request));
    match all
    case Err => o := FetchRejected;
    case Ok(commits) => o := Fetched(request, commits);
  }
}
