/** Step 1 of the run: which remote template is fetched. Two command-line
    flags can force the choice; otherwise a select prompt asks for it. */
module Template {
  import opened Wrappers

  /** The two fixed template repositories. */
  const GitRepo: string := "atrocityz/vite-template-js-git"
  const VanillaRepo: string := "atrocityz/vite-template-js-vanilla"

  /** The template prompt is skipped as soon as either flag is given. */
  predicate TemplatePromptShown(forceGit: bool, forceVanilla: bool) {
    !(forceGit || forceVanilla)
  }

  /** The value of `useAdvancedGit`. With a flag given it is `--git` itself,
      so `--git` wins over `--vanilla`. Otherwise it is the prompt's answer,
      read as a truth value: an aborted prompt leaves it `undefined`, which
      counts as false. */
  function UseAdvancedGit(forceGit: bool, forceVanilla: bool, answer: Option<bool>): (git: bool)
    ensures forceGit ==> git
    ensures !forceGit && forceVanilla ==> !git
    ensures TemplatePromptShown(forceGit, forceVanilla) ==> (git <==> answer == Some(true))
  {
    if forceGit || forceVanilla then forceGit else answer == Some(true)
  }

  /** The repository fetched for a given `useAdvancedGit`: the two choices
      lead to the two different repositories. */
  function RepoFor(useAdvancedGit: bool): (repo: string)
    ensures repo == GitRepo || repo == VanillaRepo
    ensures repo == GitRepo <==> useAdvancedGit
    ensures repo == VanillaRepo <==> !useAdvancedGit
  {
    assert |GitRepo| != |VanillaRepo|;
    if useAdvancedGit then GitRepo else VanillaRepo
  }

  /** When the prompt is skipped its answer has no influence on the template. */
  lemma AnswerIgnoredWhenForced(forceGit: bool, forceVanilla: bool, a1: Option<bool>, a2: Option<bool>)
    requires !TemplatePromptShown(forceGit, forceVanilla)
    ensures RepoFor(UseAdvancedGit(forceGit, forceVanilla, a1)) == RepoFor(UseAdvancedGit(forceGit, forceVanilla, a2))
  {
  }

  /** When the prompt is shown, each of its two choices leads to its own
      template, and an aborted prompt falls back to the vanilla one. */
  lemma PromptDecides()
    ensures RepoFor(UseAdvancedGit(false, false, Some(true))) == GitRepo
    ensures RepoFor(UseAdvancedGit(false, false, Some(false))) == VanillaRepo
    ensures RepoFor(UseAdvancedGit(false, false, None)) == VanillaRepo
  {
  }
}
