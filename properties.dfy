/** What a run promises, stated over its reference course `Expected`: which
    prompts are shown, which entries survive, which exit path is taken. */
module RunProperties {
  import opened Wrappers
  import opened Text
  import opened Template
  import opened Target
  import opened Disk
  import opened Scaffold

  /** Whether the target raises the conflict question. */
  predicate Conflicting(nameAnswer: Option<string>, before: Snapshot) {
    nameAnswer.Some? && before.Listed? && before.children != map[]
  }

  /** The prompts a run shows, in order. */
  lemma PromptSequence(forceGit: bool, forceVanilla: bool, templateAnswer: Option<bool>,
                       nameAnswer: Option<string>, cwd: string,
                       resolve: (string, string) -> string, basename: string -> string,
                       before: Snapshot, action: Option<Action>, clone: CloneResult)
    ensures Expected(forceGit, forceVanilla, templateAnswer, nameAnswer, cwd, resolve, basename, before, action, clone).prompts
         == (if !forceGit && !forceVanilla then [TemplatePrompt] else []) + [NamePrompt]
            + (if Conflicting(nameAnswer, before) then [ConflictPrompt] else [])
  {
  }

  /** The template prompt is shown exactly when no flag forces the choice;
      the name prompt is always shown; no prompt is shown twice. */
  lemma PromptsShown(forceGit: bool, forceVanilla: bool, templateAnswer: Option<bool>,
                     nameAnswer: Option<string>, cwd: string,
                     resolve: (string, string) -> string, basename: string -> string,
                     before: Snapshot, action: Option<Action>, clone: CloneResult)
    ensures var t := Expected(forceGit, forceVanilla, templateAnswer, nameAnswer, cwd, resolve, basename, before, action, clone);
      && (TemplatePrompt in t.prompts <==> !forceGit && !forceVanilla)
      && NamePrompt in t.prompts
      && (forall i, j :: 0 <= i < j < |t.prompts| ==> t.prompts[i] != t.prompts[j])
  {
    PromptSequence(forceGit, forceVanilla, templateAnswer, nameAnswer, cwd, resolve, basename, before, action, clone);
    ShapeOfPrompts(Expected(forceGit, forceVanilla, templateAnswer, nameAnswer, cwd, resolve, basename, before, action, clone).prompts,
                   !forceGit && !forceVanilla, Conflicting(nameAnswer, before));
  }

  /** A sequence of prompts of the shape every run shows: which prompts it
      holds, each at most once. */
  lemma ShapeOfPrompts(p: seq<Prompt>, template: bool, conflict: bool)
    requires p == (if template then [TemplatePrompt] else []) + [NamePrompt] + (if conflict then [ConflictPrompt] else [])
    ensures TemplatePrompt in p <==> template
    ensures NamePrompt in p
    ensures ConflictPrompt in p <==> conflict
    ensures forall i, j :: 0 <= i < j < |p| ==> p[i] != p[j]
  {
  }

  /** The conflict prompt is shown exactly when a name was given and the
      target is a directory with at least one entry. */
  lemma ConflictPromptIff(forceGit: bool, forceVanilla: bool, templateAnswer: Option<bool>,
                          nameAnswer: Option<string>, cwd: string,
                          resolve: (string, string) -> string, basename: string -> string,
                          before: Snapshot, action: Option<Action>, clone: CloneResult)
    ensures var t := Expected(forceGit, forceVanilla, templateAnswer, nameAnswer, cwd, resolve, basename, before, action, clone);
      ConflictPrompt in t.prompts <==> nameAnswer.Some? && before.Listed? && before.children != map[]
  {
    PromptSequence(forceGit, forceVanilla, templateAnswer, nameAnswer, cwd, resolve, basename, before, action, clone);
    ShapeOfPrompts(Expected(forceGit, forceVanilla, templateAnswer, nameAnswer, cwd, resolve, basename, before, action, clone).prompts,
                   !forceGit && !forceVanilla, Conflicting(nameAnswer, before));
  }

  /** An absent or empty target raises no question, loses no entry, and the
      run goes on to the fetch. */
  lemma NoConflictNoRemoval(forceGit: bool, forceVanilla: bool, templateAnswer: Option<bool>,
                            nameAnswer: Option<string>, cwd: string,
                            resolve: (string, string) -> string, basename: string -> string,
                            before: Snapshot, action: Option<Action>, clone: CloneResult)
    requires nameAnswer.Some?
    requires before == Absent || before == Listed(map[])
    ensures var t := Expected(forceGit, forceVanilla, templateAnswer, nameAnswer, cwd, resolve, basename, before, action, clone);
      && ConflictPrompt !in t.prompts
      && !t.cleared
      && t.fetch.Some?
  {
  }

  /** "cancel" on a non-empty target ends the run with status 0 before any
      fetch, and only "cancel" ends it so; nothing is removed. */
  lemma CancelExitsCleanly(forceGit: bool, forceVanilla: bool, templateAnswer: Option<bool>,
                           nameAnswer: Option<string>, cwd: string,
                           resolve: (string, string) -> string, basename: string -> string,
                           before: Snapshot, action: Option<Action>, clone: CloneResult)
    ensures var t := Expected(forceGit, forceVanilla, templateAnswer, nameAnswer, cwd, resolve, basename, before, action, clone);
      && (t.outcome == Cancelled <==>
            nameAnswer.Some? && before.Listed? && before.children != map[] && action == Some(Cancel))
      && (t.outcome == Cancelled ==> ExitCode(t.outcome) == 0 && t.fetch.None? && !t.cleared)
  {
  }

  /** The target is cleared exactly when "clear" is chosen for a non-empty
      target; what survives is `.git` alone, if it was there, subtree and
      all; and every other run leaves the target as it was. */
  lemma ClearKeepsGitOnly(forceGit: bool, forceVanilla: bool, templateAnswer: Option<bool>,
                          nameAnswer: Option<string>, cwd: string,
                          resolve: (string, string) -> string, basename: string -> string,
                          before: Snapshot, action: Option<Action>, clone: CloneResult)
    requires before.Listed?
    ensures var t := Expected(forceGit, forceVanilla, templateAnswer, nameAnswer, cwd, resolve, basename, before, action, clone);
      var after := Afterwards(before.children, t);
      && (t.cleared <==> nameAnswer.Some? && before.children != map[] && action == Some(Clear))
      && (t.cleared ==> after.Keys == (if GitDir in before.children then {GitDir} else {}))
      && (t.cleared && GitDir in before.children ==> after[GitDir] == before.children[GitDir])
      && (!t.cleared ==> after == before.children)
  {
  }

  /** Any answer to the conflict prompt other than "cancel" and "clear" --
      "keep", or none at all when the prompt is aborted -- leaves the target
      as it is and goes on to the fetch. */
  lemma OtherAnswersKeep(forceGit: bool, forceVanilla: bool, templateAnswer: Option<bool>,
                         nameAnswer: Option<string>, cwd: string,
                         resolve: (string, string) -> string, basename: string -> string,
                         before: Snapshot, action: Option<Action>, clone: CloneResult)
    requires nameAnswer.Some? && before.Listed? && before.children != map[]
    requires action == Some(Keep) || action == None
    ensures var t := Expected(forceGit, forceVanilla, templateAnswer, nameAnswer, cwd, resolve, basename, before, action, clone);
      && ConflictPrompt in t.prompts
      && !t.cleared
      && Afterwards(before.children, t) == before.children
      && t.fetch.Some?
  {
  }

  /** A fetch that is attempted gets the selected template and the resolved
      target, and it is attempted exactly when the run neither crashed nor
      was cancelled. */
  lemma FetchRequested(forceGit: bool, forceVanilla: bool, templateAnswer: Option<bool>,
                       nameAnswer: Option<string>, cwd: string,
                       resolve: (string, string) -> string, basename: string -> string,
                       before: Snapshot, action: Option<Action>, clone: CloneResult)
    ensures var t := Expected(forceGit, forceVanilla, templateAnswer, nameAnswer, cwd, resolve, basename, before, action, clone);
      && (t.fetch.Some? <==> !t.outcome.Cancelled? && !t.outcome.Crashed?)
      && (t.fetch.Some? ==>
            nameAnswer.Some? &&
            var target := TargetDir(cwd, nameAnswer.value, resolve);
            t.fetch.value == FetchRequest(RepoFor(UseAdvancedGit(forceGit, forceVanilla, templateAnswer)), target) &&
            t.announced == Some(VisibleName(nameAnswer.value, target, basename)))
  {
  }

  /** A failed clone ends the run with status 1 and no instructions; a
      successful one ends it with status 0 and the instructions for the name. */
  lemma CloneDecidesExit(forceGit: bool, forceVanilla: bool, templateAnswer: Option<bool>,
                         nameAnswer: Option<string>, cwd: string,
                         resolve: (string, string) -> string, basename: string -> string,
                         before: Snapshot, action: Option<Action>, clone: CloneResult)
    ensures var t := Expected(forceGit, forceVanilla, templateAnswer, nameAnswer, cwd, resolve, basename, before, action, clone);
      && (t.outcome.FetchFailed? <==> t.fetch.Some? && clone.CloneFailed?)
      && (t.outcome.FetchFailed? ==> ExitCode(t.outcome) == 1 && t.outcome.message == clone.message)
      && (t.fetch.Some? && clone == Cloned ==>
            nameAnswer.Some? && t.outcome == Done(Instructions(nameAnswer.value)) && ExitCode(t.outcome) == 0)
  {
  }

  /** The run crashes exactly when the name prompt was aborted or the target
      exists without being a directory; listing nothing and fetching nothing. */
  lemma CrashIff(forceGit: bool, forceVanilla: bool, templateAnswer: Option<bool>,
                 nameAnswer: Option<string>, cwd: string,
                 resolve: (string, string) -> string, basename: string -> string,
                 before: Snapshot, action: Option<Action>, clone: CloneResult)
    ensures var t := Expected(forceGit, forceVanilla, templateAnswer, nameAnswer, cwd, resolve, basename, before, action, clone);
      && (t.outcome == Crashed <==> nameAnswer.None? || before == NotDir)
      && (t.outcome == Crashed ==> t.fetch.None? && !t.cleared && ConflictPrompt !in t.prompts)
  {
  }

  /** The answer to a prompt that is not shown changes nothing. */
  lemma UnaskedAnswersIgnored(forceGit: bool, forceVanilla: bool, t1: Option<bool>, t2: Option<bool>,
                              nameAnswer: Option<string>, cwd: string,
                              resolve: (string, string) -> string, basename: string -> string,
                              before: Snapshot, a1: Option<Action>, a2: Option<Action>, clone: CloneResult)
    ensures !TemplatePromptShown(forceGit, forceVanilla) ==>
      Expected(forceGit, forceVanilla, t1, nameAnswer, cwd, resolve, basename, before, a1, clone) ==
      Expected(forceGit, forceVanilla, t2, nameAnswer, cwd, resolve, basename, before, a1, clone)
    ensures ConflictPrompt !in Expected(forceGit, forceVanilla, t1, nameAnswer, cwd, resolve, basename, before, a1, clone).prompts ==>
      Expected(forceGit, forceVanilla, t1, nameAnswer, cwd, resolve, basename, before, a1, clone) ==
      Expected(forceGit, forceVanilla, t1, nameAnswer, cwd, resolve, basename, before, a2, clone)
  {
    if !TemplatePromptShown(forceGit, forceVanilla) {
      AnswerIgnoredWhenForced(forceGit, forceVanilla, t1, t2);
    }
    ConflictPromptIff(forceGit, forceVanilla, t1, nameAnswer, cwd, resolve, basename, before, a1, clone);
  }

  /** Name "demo" in "/home/u" with nothing there: no conflict prompt, and the
      fetch goes to `path.resolve("/home/u", "demo")`. */
  lemma FreshDirectoryScenario(resolve: (string, string) -> string, basename: string -> string,
                               clone: CloneResult)
    ensures var t := Expected(false, false, Some(false), Some("demo"), "/home/u", resolve, basename, Absent, None, clone);
      && t.prompts == [TemplatePrompt, NamePrompt]
      && t.fetch == Some(FetchRequest(VanillaRepo, resolve("/home/u", "demo")))
      && t.announced == Some("demo")
  {
  }

  /** Name "." in "/home/u/demo" holding only `index.html`, answered "clear":
      the conflict prompt is shown, the directory ends up empty, the fetch
      targets the working directory, and no `cd` is printed. */
  lemma ClearCurrentDirectoryScenario(resolve: (string, string) -> string, basename: string -> string,
                                      page: Entry)
    ensures var before := map["index.html" := page];
      var t := Expected(true, false, None, Some("."), "/home/u/demo", resolve, basename,
                        Listed(before), Some(Clear), Cloned);
      && t.prompts == [NamePrompt, ConflictPrompt]
      && Afterwards(before, t) == map[]
      && t.fetch == Some(FetchRequest(GitRepo, "/home/u/demo"))
      && t.announced == Some(basename("/home/u/demo"))
      && t.outcome == Done(["npm install", "npm run start"])
  {
    var dot, cwd := ".", "/home/u/demo";
    assert !IsWhitespace(dot[0]);
    TrimTight(dot);
    assert IsDot(dot);
    assert TargetDir(cwd, dot, resolve) == cwd;
    assert Instructions(dot) == ["npm install", "npm run start"];
    var before := map["index.html" := page];
    assert "index.html" in before;
    assert ConflictStep(Listed(before), Some(Clear)) == Proceed(true, true);
    assert Cleared(before).Keys == {};
    assert Expected(true, false, None, Some(dot), cwd, resolve, basename, Listed(before), Some(Clear), Cloned)
        == Trace([NamePrompt, ConflictPrompt], Some(basename(cwd)), Some(FetchRequest(GitRepo, cwd)),
                 Done(["npm install", "npm run start"]), true);
  }
}
