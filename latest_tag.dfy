/** The tag of the latest GitHub release, with the fallback for a repository that has none. */
module LatestTag {
  import opened Wrappers

  const DefaultInitialVersion: string := "0.0.0"

  /** How `repos.getLatestRelease` settles: the release's `tag_name`, or a rejection (no release yet). */
  datatype LatestRelease = Released(tagName: string) | NoRelease

  /**
   * getLatestReleaseTag: the latest release's tag; when the request is
   * rejected, the configured initial version if it is a non-empty string,
   * otherwise `0.0.0`. The rejection is always caught.
   */
  function GetLatestReleaseTag(latest: LatestRelease, initialVersion: Option<string>): (tag: string)
    ensures latest.Released? ==> tag == latest.tagName
    ensures latest.NoRelease? && initialVersion.Some? && initialVersion.value != "" ==> tag == initialVersion.value
    ensures latest.NoRelease? && (initialVersion.None? || initialVersion.value == "") ==> tag == DefaultInitialVersion
  {
    match latest
    case Released(tagName) => tagName
    case NoRelease =>
      if initialVersion.Some? && initialVersion.value != "" then initialVersion.value else DefaultInitialVersion
  }

  /** The handlers' configuration: `INITIAL_VERSION` and `RELEASE_BRANCH` (the template is left out). */
  datatype Config = Config(initialVersion: Option<string>, releaseBranch: string)

  /** The defaults both handlers pass to `context.config`. */
  const DefaultConfig: Config := Config(Some(DefaultInitialVersion), "master")

  /**
   * With the default configuration, a repository without a release starts
   * from `0.0.0`, and the release branch is `master`.
   */
  lemma DefaultConfigStartsFromZero()
    ensures GetLatestReleaseTag(NoRelease, DefaultConfig.initialVersion) == "0.0.0"
    ensures DefaultConfig.releaseBranch == "master"
  {
  }
}
