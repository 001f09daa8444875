# probot-conventional-release, modelled in Dafny

probot-conventional-release is a GitHub App. It reads the commit messages pushed to the release branch and parses each one as a Conventional Commits header (`type(scope): subject` plus footer notes). It keeps the releasable commits: breaking changes, features and fixes. It groups them for the release notes and picks the semver bump (breaking → major, feat → minor, fix → patch). It then creates a GitHub release tagged `v` + the incremented version. A second handler drains the paginated commit list of a pull request opened against the release branch.

The repository has two generations of this pipeline, and the model keeps both as written:

- **The `lib/` pipeline and its handlers** (`handler/onPushedMaster.js`, `handler/onReleasePROpened.js`).
  - `Header` models the header regex as a deterministic left-to-right scan.
  - `Convert` models the two converters: the flattening `convertResToConventionalCommit` and the nesting `convertToConventionalCommit`.
  - `Classify` models the predicates and the group key.
  - `Releasable` models the map/filter chain. It is parametric in the converter.
  - The remaining `lib/` files are modelled by `SemverType` (the bump table, the next tag and the `semver` interface) and `LatestTag` (the latest tag with its fallback).
  - `PushedMaster` models the push decision, as a function.
  - `ReleasePROpened` models the pull-request handler, as a method, up to its unconditional `return` at line 92.
  - `Pages` models the page drain. It has a specification function and a `while`-loop method proved equal to it.
- **The older monolith `index.js`** (`Monolith`). It has its own predicates, reading the nested parse result. It also has the since-tag baseline, the trim of the last fetched commit, the date slice and the push handler, which is a method built on the same drain.

Quirks of the code are reproduced rather than corrected:

- `includes('feat', type)` is a substring test.
- The `lib/` predicates read top-level fields, but the composed converter nests them, so the `lib/` filter keeps nothing.
- `onPushedMaster` has no check that a bump was found.
- Each `semver.valid(tag) === false` guard compares with the literal `false`. `semver.valid` returns a string or `null`, so the guard only fires for a `valid` that returns `false`.

The tests in `__tests__/index.test.js` call the nesting converter with an object that has no `commit` field. The header examples they check are therefore stated on the header parser itself.

## Model

| member | source | states |
|---|---|---|
| Header.WordLength | lib/convertResToConventionalCommit.js:5 | `(\w*)` takes the longest word-character prefix: everything before is a word character, the next character is not |
| Header.ScopeLength | lib/convertResToConventionalCommit.js:5 | the scope group takes the longest run over `[\w$.\-*/ ]`, and the next character is outside the class |
| Header.MatchSubject | lib/convertResToConventionalCommit.js:5 | `: (.*)$` matches exactly when the rest is `": "` followed by a subject without line terminators, and that subject is captured |
| Header.MatchScope | lib/convertResToConventionalCommit.js:5 | after the type, the optional `(scope)` group and the separator: on a match the rest is the parenthesised scope (or nothing) then `": "` then the subject, and a present scope is over the scope class |
| Header.ParseHeader | lib/convertResToConventionalCommit.js:5 | on a match the type has only word characters (possibly none), a present scope only scope-class characters, the subject no line terminator, and the header is exactly `type(scope): subject` or `type: subject` |
| Header.ScopeHasNoClosingParen | lib/convertResToConventionalCommit.js:5 | a matched scope never contains `)` |
| Header.ParseFormatRoundTrip | lib/convertResToConventionalCommit.js:5 | a header built from a word-character type, an optional scope-class scope and a one-line subject parses back to exactly those parts; without parentheses the scope is absent |
| Header.ParsesSlashInScope | __tests__/index.test.js:5-19 | `fix(controllers/auth): oauth login failed` gives type `fix`, scope `controllers/auth`, subject `oauth login failed` |
| Header.ParsesSpaceInScope | __tests__/index.test.js:21-35 | `fix(controllers auth): oauth login failed` keeps the space inside the scope |
| Header.MissingSeparatorAfterType | lib/convertResToConventionalCommit.js:5 | if the character after the type is neither a word character nor `(` and `": "` does not follow, there is no match |
| Header.MissingSeparatorAfterScope | lib/convertResToConventionalCommit.js:5 | if `": "` does not follow the closing parenthesis, there is no match |
| Header.RejectsColonWithoutSpace | lib/convertResToConventionalCommit.js:5 | `fix:x` does not match |
| Header.RejectsTextAfterScope | lib/convertResToConventionalCommit.js:5 | `fix(a)b: c` does not match |
| Convert.ParseWithHeaderPattern | lib/convertResToConventionalCommit.js:4-8 | with the repository's header pattern, type and subject are both present or both null. On a match, the header line is rebuilt from the parts, which come from the allowed alphabets. Notes come from the message |
| Convert.NoMatchIsOutsideGrammar | lib/convertResToConventionalCommit.js:5-8 | when the type is null, no type, scope and subject from the allowed alphabets form the header line, so the parse misses no header in the grammar |
| Convert.ConvertFlat | lib/convertResToConventionalCommit.js:10-14 | the parsed type, scope, subject and notes sit at the top level; `sha` and `author` are the commit's own, and nothing is nested |
| Convert.ConvertNested | lib/convertToConventionalCommit.js:21-28 | the default parse of the message sits under `conventionalCommit`, next to the commit's `sha` and `author`. There is no top-level type, scope, subject or notes |
| Convert.ConvertersReadMessageOnly | lib/convertToConventionalCommit.js:21-22 | two commits with the same message convert alike except for `sha` and `author` |
| Lodash.Includes | lib/isFeatureCommit.js:10 | `includes(collection, value)` on a string holds whenever the value is a prefix of the collection, and only for values no longer than the collection; `IncludesIsSubstring` completes the characterisation |
| Lodash.IncludesIsSubstring | lib/isFeatureCommit.js:10 | lodash `includes` with a string collection holds exactly when the value occurs in the string at some index |
| Lodash.Map | lib/convertToReleasableCommits.js:6 | `map` yields one result per input, in input order: the i-th output is the function applied to the i-th input |
| Lodash.Filter | lib/convertToReleasableCommits.js:7 | `filter` yields no more elements than its input, every one of them passes the predicate and comes from the input |
| Lodash.FilterIsSubsequence | lib/convertToReleasableCommits.js:7 | `filter` keeps input order, an input element is in the output exactly when it passes the predicate, and every passing element is kept as many times as it occurs (a failing one never) |
| Lodash.GroupBy | handler/onPushedMaster.js:89 | every group of `groupBy` is non-empty and holds only input elements whose key is the group's key; the last element's key always has a group |
| Lodash.GroupByIsPartition | handler/onPushedMaster.js:89 | `groupBy` has a group exactly for each key that occurs. Each group is non-empty and holds exactly the elements with that key, in input order |
| Lodash.DropRight | index.js:153 | `dropRight` removes exactly the last element, and an empty list stays empty |
| Classify.SomeTitled | lib/isBreakingChangeCommit.js:12 | `some(notes, { title })` holds exactly when some note has that exact title |
| Classify.IsBreakingChangeCommit | lib/isBreakingChangeCommit.js:12 | true exactly when top-level notes are present and one is titled exactly `BREAKING CHANGE` |
| Classify.BreakingIsMonotone | lib/isBreakingChangeCommit.js:12 | adding notes before or after never removes a breaking change, and reordering the notes keeps the result |
| Classify.BreakingReadsTitlesOnly | lib/isBreakingChangeCommit.js:12 | records whose notes have the same titles agree, whatever their types, scopes, subjects or note texts |
| Classify.BreakingExamples | __tests__/index.test.js:39-52 | a `BREAKING CHANGE` note with any text (multi-line included) is breaking. Absent or empty notes, or a `Breaking Change` title, are not |
| Classify.IsFeatureCommit | lib/isFeatureCommit.js:10 | true exactly when a type is present and occurs inside the string `feat` |
| Classify.IsHotfixCommit | lib/isHotfixCommit.js:10 | true exactly when a type is present and occurs inside the string `fix` |
| Classify.SubstringTestAgreesOnLongTypes | lib/isFeatureCommit.js:8-10 | for types of length 3 or more, other than `fea` and `eat`, the substring tests equal the equality with `feat` and `fix` that the doc comments describe |
| Classify.FeatureExamples | lib/isFeatureCommit.js:10 | `feat` is a feature; `fix`, `feature`, `docs` and an absent type are not |
| Classify.HotfixExamples | lib/isHotfixCommit.js:10 | `fix` is a hotfix; `feat`, `hotfix`, `fixes` and an absent type are not |
| Classify.SubstringTestAcceptsFragments | lib/isFeatureCommit.js:10 | the types `""`, `fe` and `eat` pass the feature test, and `""`, `i` and `ix` pass the hotfix test |
| Classify.IsReleasableCommit | lib/isReleasableCommit.js:5-9 | true exactly when there is a breaking note, or a type occurring inside `feat` or inside `fix` |
| Classify.ReleasableExamples | lib/isReleasableCommit.js:5-9 | a breaking note releases any type; `feat` and `fix` are releasable; `docs` without a breaking note, and a record with neither type nor notes, are not |
| Classify.GetTemplatableCommitType | lib/getTemplatableCommitType.js:3-5 | a breaking commit is filed under `breakingChange` whatever its type; any other commit under its type verbatim |
| Classify.TemplatableKeyOfReleasable | lib/getTemplatableCommitType.js:3-5 | a releasable commit is filed under `breakingChange` or under a type passing the feature or hotfix test |
| Releasable.ConvertToReleasableCommits | lib/convertToReleasableCommits.js:5-8 | the output is no longer than the input, and every element is releasable. The output is a subsequence of the converted inputs, in order, and contains exactly the releasable conversions, each as many times as it occurs among the converted inputs |
| Releasable.NestedKeepsNothing | lib/convertToReleasableCommits.js:2-8 | composed with the nesting converter, the output is always empty |
| Releasable.FlatKeepsReleasable | lib/convertToReleasableCommits.js:5-8 | with the flattening converter, a commit whose header type is `feat` or `fix`, or which has a breaking note, is kept with its sha and author |
| SemverType.GetSemverType | lib/getSemverType.js:25-30 | a `breakingChange` group gives major. Otherwise `feat` gives minor, then `fix` gives patch. None of the three keys gives undefined, and other keys are ignored |
| SemverType.GetSemverTypeExamples | lib/getSemverType.js:12-23 | the documented examples: `{breakingChange, feat, fix}` gives major, `{feat, fix}` minor, `{fix}` patch and `{foo}` undefined |
| SemverType.GetSemverTypeIgnoresOtherKeys | lib/getSemverType.js:25-30 | adding a group under any other key leaves the bump unchanged |
| SemverType.NextTag | handler/onPushedMaster.js:93-94 | the tag is `v` followed by the new version, or by `null` when `semver.inc` returns null |
| LatestTag.DefaultConfigStartsFromZero | handler/onPushedMaster.js:14-18 | the default configuration starts a repository without a release from `0.0.0`, and its release branch is `master` |
| LatestTag.GetLatestReleaseTag | lib/getLatestReleaseTag.js:20-27 | on success, the latest release's tag, whatever the initial version. On a rejected request, the initial version if it is a non-empty string, else `0.0.0`; the rejection never escapes |
| Pages.ConcatAllCommits | handler/onReleasePROpened.js:180-182 | the accumulated items stay as a prefix, followed by the page's data |
| Pages.Drained | handler/onReleasePROpened.js:81-86 | the `expand`/`reduce` result: a settled drain starts with a first page and its result begins with that page's data; a first page without a next page is the whole result |
| Pages.DrainedIsConcatenation | handler/onReleasePROpened.js:81-86 | when the drain stops at page n, it yields the concatenation of pages 0..n, in page order and in order within each page, with duplicates kept |
| Pages.DrainedStopsAtFirstLastPage | handler/onReleasePROpened.js:167-171 | without a page lacking a next page the drain is rejected, and responses after the first such page never matter |
| Pages.DrainPages | handler/onReleasePROpened.js:81-86 | the loop that requests pages while `hasNextPage` holds and appends each page's data yields exactly `Drained` |
| PushedMaster.TemplatableGroups | handler/onPushedMaster.js:89 | every group is non-empty and every commit in it is filed under the group's key by `getTemplatableCommitType` |
| PushedMaster.TemplatableGroupsArePartition | handler/onPushedMaster.js:89 | every group is non-empty and holds, in input order, exactly the releasable commits with its key. Every commit's key has a group. Keys are `breakingChange` or types passing the substring tests |
| PushedMaster.OnPushedMaster | handler/onPushedMaster.js:37-119 | a ref other than `refs/heads/<branch>` stops first, then a `false` validity result, then zero releasable commits. Otherwise the request has `tag_name` = `name` = `v` + inc(previous tag, bump), `target_commitish` = the branch, draft and prerelease false, and the rendered notes |
| PushedMaster.AsWrittenNeverReleases | handler/onPushedMaster.js:73-79 | with the converter the repository composes in, no push ever creates a release |
| PushedMaster.ReleasesWithoutBump | handler/onPushedMaster.js:89-94 | with the flattening converter, a single commit of type `fe` creates a release whose tag comes from `semver.inc` with an undefined release type |
| PushedMaster.FragmentGroupHasNoBump | lib/getSemverType.js:25-30 | a lone commit filed under `fe` calls for no bump |
| PushedMaster.OnPushedMasterGuarded | handler/onPushedMaster.js:91-94 | with a no-bump guard, every release passes a release type to `semver.inc`; otherwise the decision is the unguarded one |
| PushedMaster.GuardIdleOnExactTypes | handler/onPushedMaster.js:89-94 | once a commit of type exactly `feat` or `fix`, or with a breaking note, is pushed, the guard changes nothing |
| ReleasePROpened.OnReleasePROpened | handler/onReleasePROpened.js:33-92 | it proceeds only when action is `opened` and the base ref is the release branch, then stops on a `false` validity result. It requests page size 100 and ends with exactly the drained commits, or a rejection |
| ReleasePROpened.DefaultGateIsOpenedAgainstMaster | handler/onReleasePROpened.js:33-36 | with the default configuration, the gate `IsOpenedForRelease` passes exactly the pull requests whose action is `opened` and whose base ref is `master` |
| Monolith.GetLatestReleaseTagName | index.js:222-239 | the latest tag, or `0.0.0` on a rejected request: the `lib/` fallback with initial version `0.0.0` |
| Monolith.IsBreakingChang | index.js:360-365 | true exactly when the nested parse result has a note titled exactly `BREAKING CHANGE` |
| Monolith.HasReleasableType | index.js:383 | the nested type is exactly `feat` or `fix` (array membership, not a substring test) |
| Monolith.IsReleasableCommit | index.js:381-387 | true exactly when the nested type is `feat` or `fix` or a breaking note is present. A releasable commit's group is `breakingChange`, `feat` or `fix`, and `docs` without a breaking note is not releasable |
| Monolith.GroupReleasableCommit | index.js:413-417 | breaking commits go under `breakingChange`, others under their nested type |
| Monolith.ReleasableGroups | index.js:150-160 | every group is non-empty, and each commit in it is releasable and grouped under the group's key |
| Monolith.ReleasableGroupsCallForBump | index.js:150-176 | every group is `breakingChange`, `feat` or `fix` and holds its releasable commits in order, so the release type is undefined exactly when there are no groups |
| Monolith.OneCommitRangeHasNoGroups | index.js:150-160 | the last fetched commit is trimmed, so a single fetched commit leaves no groups and no release type |
| Monolith.FindTagSha | index.js:274-279 | the sha of the first tag with the given name, and none exactly when no tag has that name |
| Monolith.Since | index.js:257-299 | tag `0.0.0` means no `since`; otherwise `since` is the date of the first matching tag's commit, and a rejected tag listing rejects |
| Monolith.CommitsSince | index.js:133-142 | for tag `0.0.0` every commit is requested with no `since`, 100 per page; a rejected tag listing or commit lookup rejects; otherwise the pages requested with the baseline date are drained |
| Monolith.BeforeFirstT | index.js:184-189 | the date is the prefix of the timestamp before its first `T` |
| Monolith.ReleaseDate | index.js:184-189 | an absent timestamp gives the empty date, as lodash `split` on `undefined` does; otherwise the date is the timestamp's prefix before its first `T` |
| Monolith.ReleaseDateOfIsoTimestamp | index.js:184-189 | a timestamp `date T time` yields `date` |
| Monolith.OnPush | index.js:90-217 | a ref other than `refs/heads/master` stops first, then a `false` validity result, then a rejected baseline or page request, then an undefined release type. Otherwise the request uses tag `v` + inc(tag, bump) on `master`, draft and prerelease false, and the head commit's date |

## Left out

- Handlebars rendering of the release notes and the template constants (`lib/compileReleaseTemplate.js`, the templates, `index.js:12-74`) are left out: the compiled template is the parameter `render`.
- conventional-commits-parser is not part of this model beyond the header pattern. Header-line extraction, footer notes and the default parse are the parameters `headerOf`, `notesOf` and `parseDefault`.
- Convert.ParseWithHeaderPattern: keeps an empty capture group as the empty string. The parser library's replacement of empty groups by `null` is not part of this model.
- `semver.valid` and `semver.inc` are left uninterpreted (the `Semver` parameter); the `=== false` comparison is kept literally.
- GitHub requests, configuration loading, event registration and logging are left out as I/O. Each request is represented by the value it settles with, and the owner and repository parameters are left out of requests and template contexts.
- PushedMaster.OnPushedMaster: ends with the release request. Sending it, and the `catch` that swallows a failed `createRelease`, are I/O. The handler returns normally either way.
- Monolith.OnPush: ends with the release request, so the `catch` around `createRelease` is not modelled. A rejected baseline or commits request is the outcome `Rejected`, for the rejection the handler does not catch.
- The Rx `expand`/`reduce` machinery is modelled as a synchronous loop over the responses the requests settle with. A request past the end of the given responses counts as rejected. Asynchrony and races between events are not modelled.
- The wall-clock date `moment(new Date())` in `handler/onPushedMaster.js:98` is the parameter `date`.
- `handler/onReleasePROpened.js:93-158` is left out: it is unreachable after the `return` at line 92.
- `handler/onPushedMaster.js:69` reads `payload.commits` from the push event. The model treats each of these as a commit listing entry (`sha`, `commit.message`, `commit.author`), the shape the converters destructure.
- Group keys are `Option<string>` rather than JavaScript's string property names. An absent type and the type `undefined` would share a key in JavaScript. No releasable commit reaches grouping without a type, so this does not matter.
- `getReleaseTypeFactory` (`index.js:439-445`) is the same table as `lib/getSemverType.js` and is modelled once, by `SemverType.GetSemverType`. `concatAllCommits` in `index.js:318-320` is likewise `Pages.ConcatAllCommits`, and `convertToConventionalCommit` in `index.js:340-348` is `Convert.ConvertNested`.
- Header.ParsesSlashInScope: the header is written as `FormatHeader("fix", Some("controllers/auth"), "oauth login failed")`, which spells out that string, rather than as a single string literal. Header.ParsesSpaceInScope is written the same way.
- Monolith.Since: when no tag has the latest release's name, `getCommit` is called without a sha. What that request settles with is the parameter `commitDate` applied to an absent sha.

## Findings

| source | as written | input that shows it | evidently intended | confidence | as-written member | corrected member |
|---|---|---|---|---|---|---|
| lib/convertToReleasableCommits.js:2-8 | the nesting converter is composed with predicates that read top-level `type` and `notes`, so every commit is filtered out and `onPushedMaster` never releases | any push, e.g. one commit `feat: add login` to `master` | the flattened record of `convertResToConventionalCommit`, which the predicates can read | not executed | Releasable.NestedKeepsNothing | Releasable.FlatKeepsReleasable |
| handler/onPushedMaster.js:91-94 | no check that `getSemverType` found a bump: `semver.inc` is called with `undefined` and the tag built from its result | with the flattening converter, one commit `fe: login` (type `fe` passes the substring feature test and is grouped under `fe`) | exit without a release, as `index.js:172-176` does | not executed | PushedMaster.ReleasesWithoutBump | PushedMaster.OnPushedMasterGuarded |
| lib/isFeatureCommit.js:10 | `includes('feat', type)` tests whether the type occurs inside `feat` | types `fe`, `eat` or the empty type count as features | the type equals `feat`, as the doc comment at line 8 says and `index.js:383` implements, so every releasable commit is filed under a key that calls for a bump | not executed | Classify.SubstringTestAcceptsFragments | Monolith.IsReleasableCommit |
