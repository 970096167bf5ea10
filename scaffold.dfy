/** The whole `run` procedure: template choice, project name, the conflict
    over an existing target directory, the template fetch and the final
    instructions. Prompt answers, what lies at the target path and the
    result of the clone are inputs; exiting the process is an outcome. */
module Scaffold {
  import opened Wrappers
  import opened Text
  import opened Template
  import opened Target
  import opened Disk

  /** The prompts the run can show. */
  datatype Prompt = TemplatePrompt | NamePrompt | ConflictPrompt

  /** The three choices of the conflict prompt. */
  datatype Action = Cancel | Clear | Keep

  /** What the existence check and the listing find at the target path. */
  datatype Lookup = Missing | NotADirectory | Present(dir: Directory)
  {
    function Footprint(): set<object> {
      if Present? then {dir} else {}
    }
  }

  /** The same, as a value: the children of the directory at that moment. */
  datatype Snapshot = Absent | NotDir | Listed(children: map<string, Entry>)

  /** The result of `emitter.clone(targetDir)`. */
  datatype CloneResult = Cloned | CloneFailed(message: string)

  /** What degit is given: the repository and the destination. */
  datatype FetchRequest = FetchRequest(repo: string, target: string)

  /** How the run ends. `Crashed` is a rejection of the promise `run()`
      returns, which nothing handles: `name.trim()` on the `undefined` name
      of an aborted name prompt, or `readdirSync` on a target that is not a
      directory, throws inside the async `run`. */
  datatype Outcome =
    | Cancelled
    | FetchFailed(message: string)
    | Done(instructions: seq<string>)
    | Crashed

  /** The observable course of a run: the prompts shown in order, the name
      the download is announced under, the fetch attempted if any, how the
      run ended, and whether the target was cleared. */
  datatype Trace = Trace(prompts: seq<Prompt>, announced: Option<string>, fetch: Option<FetchRequest>,
                         outcome: Outcome, cleared: bool)

  /** The process exit status of each outcome. Since version 15, Node exits
      with status 1 on a promise rejection nothing handles. */
  function ExitCode(o: Outcome): (code: int)
    ensures code == 0 <==> o.Cancelled? || o.Done?
    ensures code == 1 <==> o.FetchFailed? || o.Crashed?
  {
    match o
    case Cancelled => 0
    case Done(_) => 0
    case FetchFailed(_) => 1
    case Crashed => 1
  }

  /** The commands printed after a successful clone: `cd <name>` (the name as
      typed) first unless the name is a padded ".", and always the install
      and start commands last. */
  function Instructions(name: string): (r: seq<string>)
    ensures ("cd " + name in r) <==> !DotPadded(name)
    ensures |r| == (if DotPadded(name) then 2 else 3)
    ensures !DotPadded(name) ==> r[0] == "cd " + name
    ensures r[|r| - 2..] == ["npm install", "npm run start"]
  {
    var cd := "cd " + name;
    assert cd[0] == 'c';
    assert "npm install"[0] == 'n' && "npm run start"[0] == 'n';
    (if IsDot(name) then [] else [cd]) + ["npm install", "npm run start"]
  }

  /** The observable value of a lookup. */
  function Observe(at: Lookup): Snapshot
    reads at.Footprint()
  {
    match at
    case Missing => Absent
    case NotADirectory => NotDir
    case Present(d) => Listed(d.children)
  }

  /** The end of the run, once the fetch has been requested: the clone's
      result decides between the failure exit and the instructions. */
  function AfterFetch(prompts: seq<Prompt>, announced: string, fetch: FetchRequest, name: string,
                      clone: CloneResult, cleared: bool): Trace
  {
    Trace(prompts, Some(announced), Some(fetch),
          if clone.CloneFailed? then FetchFailed(clone.message) else Done(Instructions(name)),
          cleared)
  }

  /** How step 3 ends: the run goes on to the fetch (after clearing the
      target or not), or it stops there. Either way the conflict prompt may
      have been shown. */
  datatype Step = Proceed(asked: bool, clear: bool) | Stop(asked: bool, outcome: Outcome)

  /** The reference for step 3, from what lies at the target and the answer
      the conflict prompt would get. */
  function ConflictStep(before: Snapshot, action: Option<Action>): (step: Step)
    ensures step.asked <==> before.Listed? && before.children != map[]
    ensures step.Stop? <==> before.NotDir? || (step.asked && action == Some(Cancel))
    ensures step.Stop? ==> step.outcome == (if before.NotDir? then Crashed else Cancelled)
    ensures step.Proceed? ==> (step.clear <==> step.asked && action == Some(Clear))
  {
    match before
    case NotDir => Stop(false, Crashed)
    case Absent => Proceed(false, false)
    case Listed(children) =>
      if children == map[] then Proceed(false, false)
      else if action == Some(Cancel) then Stop(true, Cancelled)
      else Proceed(true, action == Some(Clear))
  }

  /** The reference course of a run, from its inputs and what lies at the
      target before anything is removed. The directory is only ever cleared
      after the conflict prompt, and a run that gets past step 3 always
      announces and attempts the fetch. */
  function Expected(forceGit: bool, forceVanilla: bool, templateAnswer: Option<bool>,
                    nameAnswer: Option<string>, cwd: string,
                    resolve: (string, string) -> string, basename: string -> string,
                    before: Snapshot, action: Option<Action>, clone: CloneResult): (t: Trace)
    ensures t.cleared ==> ConflictPrompt in t.prompts && t.fetch.Some?
    ensures t.fetch.Some? <==> !t.outcome.Cancelled? && !t.outcome.Crashed?
    ensures t.announced.Some? <==> t.fetch.Some?
  {
    var asked := (if TemplatePromptShown(forceGit, forceVanilla) then [TemplatePrompt] else []) + [NamePrompt];
    if nameAnswer.None? then Trace(asked, None, None, Crashed, false)
    else
      var name := nameAnswer.value;
      var target := TargetDir(cwd, name, resolve);
      var fetch := FetchRequest(RepoFor(UseAdvancedGit(forceGit, forceVanilla, templateAnswer)), target);
      var step := ConflictStep(before, action);
      var prompts := asked + if step.asked then [ConflictPrompt] else [];
      assert step.asked ==> prompts[|prompts| - 1] == ConflictPrompt;
      match step
      case Stop(_, outcome) => Trace(prompts, None, None, outcome, false)
      case Proceed(_, clear) => AfterFetch(prompts, VisibleName(name, target, basename), fetch, name, clone, clear)
  }

  /** The target's children after a run that started from `children`. */
  function Afterwards(children: map<string, Entry>, t: Trace): map<string, Entry> {
    if t.cleared then Cleared(children) else children
  }

  /** Step 3: check the target, ask about a non-empty one, and carry out
      the choice. */
  method HandleConflict(at: Lookup, action: Option<Action>) returns (step: Step)
    modifies at.Footprint()
    ensures step == ConflictStep(old(Observe(at)), action)
    ensures at.Present? ==> at.dir.children == if step.Proceed? && step.clear
                                               then Cleared(old(at.dir.children))
                                               else old(at.dir.children)
  {
    match at {
      case Missing =>
        return Proceed(false, false);
      case NotADirectory =>
        return Stop(false, Crashed);
      case Present(dir) =>
        var entries := dir.List();
        if |entries| == 0 {
          assert dir.children.Keys == {};
          return Proceed(false, false);
        }
        assert entries[0] in dir.children;
        if action == Some(Cancel) {
          return Stop(true, Cancelled);
        }
        if action == Some(Clear) {
          dir.Clear();
          return Proceed(true, true);
        }
        return Proceed(true, false);
    }
  }

  /** `run`, step by step. The answers of prompts that are not shown are
      ignored. The name prompt only ever returns a name that passed its
      validation, but nothing in the run depends on that, so no such
      precondition is stated. */
  method Run(forceGit: bool, forceVanilla: bool, templateAnswer: Option<bool>,
             nameAnswer: Option<string>, cwd: string,
             resolve: (string, string) -> string, basename: string -> string,
             at: Lookup, action: Option<Action>, clone: CloneResult)
    returns (t: Trace)
    modifies at.Footprint()
    ensures t == Expected(forceGit, forceVanilla, templateAnswer, nameAnswer, cwd, resolve, basename,
                          old(Observe(at)), action, clone)
    ensures at.Present? ==> at.dir.children == Afterwards(old(at.dir.children), t)
  {
    // Step 1: the template.
    var prompts: seq<Prompt> := [];
    var useAdvancedGit: bool;
    if forceGit || forceVanilla {
      useAdvancedGit := forceGit;
    } else {
      prompts := prompts + [TemplatePrompt];
      useAdvancedGit := templateAnswer == Some(true);
    }

    // Step 2: the name and the target directory.
    prompts := prompts + [NamePrompt];
    ghost var asked := prompts;
    assert asked == (if TemplatePromptShown(forceGit, forceVanilla) then [TemplatePrompt] else []) + [NamePrompt];
    if nameAnswer.None? {
      return Trace(prompts, None, None, Crashed, false);
    }
    var name := nameAnswer.value;
    var targetDir := TargetDir(cwd, name, resolve);
    var visibleName := VisibleName(name, targetDir, basename);

    // Step 3: the conflict over an existing, non-empty target.
    var repo := RepoFor(useAdvancedGit);
    var step := HandleConflict(at, action);
    if step.asked {
      prompts := prompts + [ConflictPrompt];
    }
    if step.Stop? {
      return Trace(prompts, None, None, step.outcome, false);
    }
    assert prompts == asked + if step.asked then [ConflictPrompt] else [];
    var cleared := step.clear;

    // Step 4: the fetch and the final instructions.
    var fetch := FetchRequest(repo, targetDir);
    if clone.CloneFailed? {
      return Trace(prompts, Some(visibleName), Some(fetch), FetchFailed(clone.message), cleared);
    }
    t := Trace(prompts, Some(visibleName), Some(fetch), Done(Instructions(name)), cleared);
  }
}
