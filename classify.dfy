/**
 * The `lib/` classification of a converted commit: breaking change, feature,
 * hotfix, releasable, and the group a commit is filed under. These read the
 * record's top-level `type` and `notes`.
 */
module Classify {
  import opened Wrappers
  import opened Commits
  import opened Lodash

  const BreakingChangeTitle: string := "BREAKING CHANGE"

  /** The group key of breaking commits in the release-notes context. */
  const BreakingChangeKey: string := "breakingChange"

  /** lodash `some(notes, { title })`: some note carries exactly this title. */
  function SomeTitled(notes: seq<Note>, title: string): (b: bool)
    ensures b <==> exists i | 0 <= i < |notes| :: notes[i].title == title
  {
    if notes == [] then false
    else
      var rest := SomeTitled(notes[1..], title);
      assert rest ==> exists i | 0 <= i < |notes| :: notes[i].title == title by {
        if rest {
          var i :| 0 <= i < |notes[1..]| && notes[1..][i].title == title;
          assert notes[i + 1].title == title;
        }
      }
      notes[0].title == title || rest
  }

  /** isBreakingChangeCommit: some top-level note is titled exactly `BREAKING CHANGE`. */
  function IsBreakingChangeCommit(c: CommitRecord): (b: bool)
    ensures b <==> c.notes.Some? && exists i | 0 <= i < |c.notes.value| :: c.notes.value[i].title == BreakingChangeTitle
  {
    c.notes.Some? && SomeTitled(c.notes.value, BreakingChangeTitle)
  }

  /**
   * Adding notes anywhere never takes a breaking change away, and where the
   * breaking note stands does not matter: reordering the notes keeps the result.
   */
  lemma BreakingIsMonotone(notes: seq<Note>, before: seq<Note>, after: seq<Note>, reordered: seq<Note>)
    requires multiset(reordered) == multiset(notes)
    ensures SomeTitled(notes, BreakingChangeTitle) ==> SomeTitled(before + notes + after, BreakingChangeTitle)
    ensures SomeTitled(reordered, BreakingChangeTitle) == SomeTitled(notes, BreakingChangeTitle)
  {
    if SomeTitled(notes, BreakingChangeTitle) {
      var i :| 0 <= i < |notes| && notes[i].title == BreakingChangeTitle;
      assert (before + notes + after)[|before| + i] == notes[i];
    }
    forall xs: seq<Note>, ys: seq<Note> | multiset(xs) == multiset(ys) && SomeTitled(xs, BreakingChangeTitle)
      ensures SomeTitled(ys, BreakingChangeTitle)
    {
      var i :| 0 <= i < |xs| && xs[i].title == BreakingChangeTitle;
      assert xs[i] in multiset(ys);
      var j :| 0 <= j < |ys| && ys[j] == xs[i];
    }
  }

  /**
   * The documented case, a `BREAKING CHANGE` note with a multi-line text,
   * is breaking; absent or empty notes and a title differing in case are not.
   */
  lemma BreakingExamples(c: CommitRecord, text: string)
    ensures c.notes == Some([Note(BreakingChangeTitle, text)]) ==> IsBreakingChangeCommit(c)
    ensures c.notes.None? || c.notes == Some([]) ==> !IsBreakingChangeCommit(c)
    ensures c.notes == Some([Note("Breaking Change", text)]) ==> !IsBreakingChangeCommit(c)
  {
    if c.notes == Some([Note("Breaking Change", text)]) {
      assert "Breaking Change"[1] != BreakingChangeTitle[1];
    }
  }

  /** Only the titles count: the commit's type, scope and subject and every note's text are ignored. */
  lemma BreakingReadsTitlesOnly(c: CommitRecord, d: CommitRecord)
    requires c.notes.Some? <==> d.notes.Some?
    requires c.notes.Some? ==>
      (|c.notes.value| == |d.notes.value|
       && forall i | 0 <= i < |c.notes.value| :: c.notes.value[i].title == d.notes.value[i].title)
    ensures IsBreakingChangeCommit(c) == IsBreakingChangeCommit(d)
  {
    if IsBreakingChangeCommit(c) {
      var i :| 0 <= i < |c.notes.value| && c.notes.value[i].title == BreakingChangeTitle;
      assert d.notes.value[i].title == BreakingChangeTitle;
    }
    if IsBreakingChangeCommit(d) {
      var i :| 0 <= i < |d.notes.value| && d.notes.value[i].title == BreakingChangeTitle;
      assert c.notes.value[i].title == BreakingChangeTitle;
    }
  }

  /**
   * isFeatureCommit: lodash `includes('feat', type)` with the string `"feat"`
   * as the collection, so the test is "type occurs inside `feat`".
   */
  function IsFeatureCommit(c: CommitRecord): (b: bool)
    ensures b <==> c.commitType.Some? && exists i :: OccursAt("feat", c.commitType.value, i)
  {
    match c.commitType
    case Some(t) => IncludesIsSubstring("feat", t); Includes("feat", t)
    case None => false
  }

  /** isHotfixCommit: lodash `includes('fix', type)`, "type occurs inside `fix`". */
  function IsHotfixCommit(c: CommitRecord): (b: bool)
    ensures b <==> c.commitType.Some? && exists i :: OccursAt("fix", c.commitType.value, i)
  {
    match c.commitType
    case Some(t) => IncludesIsSubstring("fix", t); Includes("fix", t)
    case None => false
  }

  /**
   * On types of three or more letters, other than `fea` and `eat`, the
   * substring tests coincide with the equality to `feat` and `fix` that the
   * doc comments describe.
   */
  lemma SubstringTestAgreesOnLongTypes(t: string)
    requires |t| >= 3 && t != "fea" && t != "eat"
    ensures Includes("feat", t) <==> t == "feat"
    ensures Includes("fix", t) <==> t == "fix"
  {
    if Includes("feat", t) {
      IncludesBounds("feat", t);
      if |t| == 3 {
        IncludesOneShorter("feat", t);
        assert false;
      }
    }
    if Includes("fix", t) {
      IncludesBounds("fix", t);
    }
    OccursAtIncludes("feat", "feat", 0);
    OccursAtIncludes("fix", "fix", 0);
  }

  /** The documented cases of the feature test; only `type` is read. */
  lemma FeatureExamples(c: CommitRecord)
    ensures c.commitType == Some("feat") ==> IsFeatureCommit(c)
    ensures c.commitType in {Some("fix"), Some("feature"), Some("docs")} ==> !IsFeatureCommit(c)
    ensures c.commitType.None? ==> !IsFeatureCommit(c)
  {
    if c.commitType.Some? && |c.commitType.value| >= 3 && c.commitType.value !in {"fea", "eat"} {
      SubstringTestAgreesOnLongTypes(c.commitType.value);
    }
  }

  /** The documented cases of the hotfix test; only `type` is read. */
  lemma HotfixExamples(c: CommitRecord)
    ensures c.commitType == Some("fix") ==> IsHotfixCommit(c)
    ensures c.commitType in {Some("feat"), Some("hotfix"), Some("fixes")} ==> !IsHotfixCommit(c)
    ensures c.commitType.None? ==> !IsHotfixCommit(c)
  {
    if c.commitType.Some? && |c.commitType.value| >= 3 && c.commitType.value !in {"fea", "eat"} {
      SubstringTestAgreesOnLongTypes(c.commitType.value);
    }
  }

  /** The substring test also accepts fragments such as `fe`, `eat`, `ix` and the empty type. */
  lemma SubstringTestAcceptsFragments(c: CommitRecord)
    ensures c.commitType in {Some(""), Some("fe"), Some("eat")} ==> IsFeatureCommit(c)
    ensures c.commitType in {Some(""), Some("i"), Some("ix")} ==> IsHotfixCommit(c)
  {
    assert "feat"[0..0] == "" && "feat"[0..2] == "fe" && "feat"[1..4] == "eat";
    assert "fix"[1..2] == "i" && "fix"[1..3] == "ix";
    assert OccursAt("feat", "", 0) && OccursAt("feat", "fe", 0) && OccursAt("feat", "eat", 1);
    assert OccursAt("fix", "", 0) && OccursAt("fix", "i", 1) && OccursAt("fix", "ix", 1);
  }

  /** isReleasableCommit: a breaking note, or a type passing the feature or the hotfix test. */
  function IsReleasableCommit(c: CommitRecord): (b: bool)
    ensures b <==>
      (c.notes.Some? && exists i | 0 <= i < |c.notes.value| :: c.notes.value[i].title == BreakingChangeTitle)
      || (c.commitType.Some? && exists i :: OccursAt("feat", c.commitType.value, i) || OccursAt("fix", c.commitType.value, i))
  {
    IsBreakingChangeCommit(c) || IsFeatureCommit(c) || IsHotfixCommit(c)
  }

  /**
   * A breaking note releases any type (`chore` included); `feat` and `fix`
   * release without notes; `docs` without a breaking note, and a record
   * with neither type nor notes, do not.
   */
  lemma ReleasableExamples(c: CommitRecord)
    ensures IsBreakingChangeCommit(c) ==> IsReleasableCommit(c)
    ensures c.commitType in {Some("feat"), Some("fix")} ==> IsReleasableCommit(c)
    ensures c.commitType == Some("docs") && !IsBreakingChangeCommit(c) ==> !IsReleasableCommit(c)
    ensures c.commitType.None? && c.notes.None? ==> !IsReleasableCommit(c)
  {
    FeatureExamples(c);
    HotfixExamples(c);
  }

  /** getTemplatableCommitType: `breakingChange` for a breaking commit, its type otherwise. */
  function GetTemplatableCommitType(c: CommitRecord): (k: Option<string>)
    ensures IsBreakingChangeCommit(c) ==> k == Some(BreakingChangeKey)
    ensures !IsBreakingChangeCommit(c) ==> k == c.commitType
  {
    if IsBreakingChangeCommit(c) then Some(BreakingChangeKey) else c.commitType
  }

  /**
   * A releasable commit is filed under `breakingChange` or under a type that
   * passes the feature or the hotfix substring test.
   */
  lemma TemplatableKeyOfReleasable(c: CommitRecord)
    requires IsReleasableCommit(c)
    ensures var k := GetTemplatableCommitType(c);
      k == Some(BreakingChangeKey) || (k.Some? && (Includes("feat", k.value) || Includes("fix", k.value)))
  {
    if !IsBreakingChangeCommit(c) {
      IncludesIsSubstring("feat", c.commitType.value);
      IncludesIsSubstring("fix", c.commitType.value);
    }
  }
}
