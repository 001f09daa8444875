/**
 * The bump a set of grouped commits calls for, and the parts of the
 * `semver` package the pipeline calls, which are not part of this model.
 */
module SemverType {
  import opened Wrappers
  import opened Classify

  /** The release types handed to `semver.inc`. */
  datatype Bump = Major | Minor | Patch

  /** A JavaScript value as `semver.valid` may return it. */
  datatype JsValue = JsFalse | JsNull | JsString(s: string)

  /**
   * The `semver` package: `valid(version)` and `inc(version, releaseType)`,
   * where an absent release type is `undefined` and an absent result `null`.
   */
  datatype Semver = Semver(valid: string -> JsValue, inc: (string, Option<Bump>) -> Option<string>)

  /**
   * getSemverType (and its copy getReleaseTypeFactory in index.js): lodash
   * `cond` over the group object. A group present in the object is an
   * array, which is truthy, so presence of the key decides: breakingChange
   * before feat before fix, and `undefined` when none is present.
   */
  function GetSemverType<T>(groups: map<Option<string>, seq<T>>): (r: Option<Bump>)
    ensures r == Some(Major) <==> Some(BreakingChangeKey) in groups
    ensures r == Some(Minor) <==> Some(BreakingChangeKey) !in groups && Some("feat") in groups
    ensures r == Some(Patch) <==> Some(BreakingChangeKey) !in groups && Some("feat") !in groups && Some("fix") in groups
    ensures r == None <==> forall k | k in groups :: k != Some(BreakingChangeKey) && k != Some("feat") && k != Some("fix")
  {
    if Some(BreakingChangeKey) in groups then Some(Major)
    else if Some("feat") in groups then Some(Minor)
    else if Some("fix") in groups then Some(Patch)
    else None
  }

  /** The documented examples, on groups holding any commits at all. */
  lemma GetSemverTypeExamples<T>(breaking: seq<T>, feat: seq<T>, fix: seq<T>, foo: seq<T>)
    ensures GetSemverType(map[Some(BreakingChangeKey) := breaking, Some("feat") := feat, Some("fix") := fix]) == Some(Major)
    ensures GetSemverType(map[Some("feat") := feat, Some("fix") := fix]) == Some(Minor)
    ensures GetSemverType(map[Some("fix") := fix]) == Some(Patch)
    ensures GetSemverType(map[Some("foo") := foo]) == None
  {
  }

  /** Keys other than breakingChange, feat and fix do not change the bump. */
  lemma GetSemverTypeIgnoresOtherKeys<T>(groups: map<Option<string>, seq<T>>, k: Option<string>, commits: seq<T>)
    requires k != Some(BreakingChangeKey) && k != Some("feat") && k != Some("fix")
    ensures GetSemverType(groups[k := commits]) == GetSemverType(groups)
  {
  }

  /**
   * The next tag: `"v"` followed by the new version, where a `null`
   * version prints as `null`.
   */
  function NextTag(version: Option<string>): (tag: string)
    ensures |tag| >= 1 && tag[0] == 'v'
    ensures version.Some? ==> tag[1..] == version.value
    ensures version.None? ==> tag[1..] == "null"
  {
    "v" + version.GetOr("null")
  }
}
