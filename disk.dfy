/** The target directory as the run sees it: a mutable map from the names of
    its direct children to their (opaque) subtrees. Removing a child removes
    its whole subtree, as the recursive, forced `rmSync` does. */
module Disk {

  /** A subtree: the run never looks inside one. */
  datatype Entry = File(data: seq<bv8>) | Folder(children: map<string, Entry>)

  /** The one child the "clear" choice keeps. */
  const GitDir: string := ".git"

  /** The children that survive clearing: those named `.git`, subtree and all. */
  function Cleared(children: map<string, Entry>): (r: map<string, Entry>)
    ensures r.Keys == if GitDir in children then {GitDir} else {}
    ensures forall k :: k in r ==> r[k] == children[k]
  {
    map k | k in children && k == GitDir :: children[k]
  }

  /** No distinct positions of `s` hold the same name. */
  predicate Distinct(s: seq<string>) {
    forall i, j :: 0 <= i < j < |s| ==> s[i] != s[j]
  }

  class Directory {
    var children: map<string, Entry>

    /** `readdirSync`: the names of the children, each once, in an order
        the file system chooses. */
    method List() returns (names: seq<string>)
      ensures Distinct(names)
      ensures forall n :: n in names <==> n in children
    {
      var rest := children.Keys;
      names := [];
      while rest != {}
        invariant rest <= children.Keys
        invariant Distinct(names)
        invariant forall n :: n in names <==> n in children && n !in rest
        decreases rest
      {
        var n :| n in rest;
        names := names + [n];
        rest := rest - {n};
      }
    }

    /** `rmSync(path.join(targetDir, name), { recursive: true, force: true })`:
        the child and its subtree are gone; a missing child is no error. */
    method Remove(name: string)
      modifies this
      ensures children == old(children) - {name}
    {
      children := children - {name};
    }

    /** The "clear" choice: list the children, then remove each of them
        except `.git`. */
    method Clear()
      modifies this
      ensures children == Cleared(old(children))
    {
      var files := List();
      ghost var before := children;
      for i := 0 to |files|
        invariant forall k :: k in children <==> k in before && (k == GitDir || k !in files[..i])
        invariant forall k :: k in children ==> children[k] == before[k]
      {
        if files[i] == GitDir {
          continue;
        }
        Remove(files[i]);
        assert files[..i + 1] == files[..i] + [files[i]];
      }
      assert files[..|files|] == files;
      assert children.Keys == Cleared(before).Keys;
    }
  }

  /** Spelled out for the scenario `{a.txt, sub/, .git}`: only `.git` stays. */
  lemma ClearKeepsOnlyGit(a: Entry, sub: Entry, git: Entry)
    ensures Cleared(map["a.txt" := a, "sub" := sub, GitDir := git]) == map[GitDir := git]
  {
  }
}
