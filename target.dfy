/** Step 2 of the run: the project name, its validation, and the directory
    it names. `path.resolve` and `path.basename` are Node's path library;
    the model takes them as uninterpreted functions. */
module Target {
  import opened Text

  /** The name prompt's `validate`: a name is accepted when its trim is not
      empty, that is, when it holds a character that is not whitespace. */
  function NameAccepted(name: string): (ok: bool)
    ensures ok <==> exists i :: 0 <= i < |name| && !IsWhitespace(name[i])
  {
    |Trim(name)| > 0
  }

  /** A name made of one "." and whitespace around it, as a user may type
      the sentinel. */
  ghost predicate DotPadded(name: string) {
    exists i :: 0 <= i < |name| && name[i] == '.' &&
      forall j :: 0 <= j < |name| && j != i ==> IsWhitespace(name[j])
  }

  /** `name.trim() === '.'` holds exactly for a "." with nothing but
      whitespace around it. */
  lemma TrimIsDotIff(name: string)
    ensures Trim(name) == "." <==> DotPadded(name)
  {
    var lo := SkipForward(name, 0);
    var r := Trim(name);
    if r == "." {
      assert name[lo] == r[0] == '.';
    }
    if DotPadded(name) {
      var i :| 0 <= i < |name| && name[i] == '.' &&
        forall j :: 0 <= j < |name| && j != i ==> IsWhitespace(name[j]);
      assert !IsWhitespace(name[i]);
      assert lo == i;
      assert r != [];
      assert !IsWhitespace(name[lo + |r| - 1]);
      assert lo + |r| - 1 == i;
      assert r == [name[i]];
    }
  }

  /** The sentinel test of `targetDir`, `visibleName` and the instructions. */
  function IsDot(name: string): (dot: bool)
    ensures dot <==> DotPadded(name)
  {
    TrimIsDotIff(name);
    Trim(name) == "."
  }

  /** `targetDir`: the working directory itself for a "." however padded,
      otherwise `path.resolve(cwd, name)` applied to the name as typed,
      whitespace included. */
  function TargetDir(cwd: string, name: string, resolve: (string, string) -> string): (r: string)
    ensures DotPadded(name) ==> r == cwd
    ensures !DotPadded(name) ==> r == resolve(cwd, name)
  {
    if IsDot(name) then cwd else resolve(cwd, name)
  }

  /** `visibleName`: the base name of the working directory for a padded
      ".", otherwise the name as typed. */
  function VisibleName(name: string, target: string, basename: string -> string): (r: string)
    ensures DotPadded(name) ==> r == basename(target)
    ensures !DotPadded(name) ==> r == name
  {
    if IsDot(name) then basename(target) else name
  }

  /** The sentinel is an accepted name. */
  lemma DotIsAccepted(name: string)
    requires IsDot(name)
    ensures NameAccepted(name)
  {
  }

  /** " . " is the sentinel: the target is the working directory. */
  lemma PaddedDotIsCwd(cwd: string, resolve: (string, string) -> string)
    ensures TargetDir(cwd, " . ", resolve) == cwd
  {
  }

  /** " demo" is not the sentinel, and it is resolved as typed, with its
      leading space, not as its trim "demo". */
  lemma PaddedNameResolvedUntrimmed(cwd: string, resolve: (string, string) -> string)
    ensures TargetDir(cwd, " demo", resolve) == resolve(cwd, " demo")
  {
  }

  /** A name made of blanks and line breaks only is refused. */
  lemma BlankNameRefused()
    ensures !NameAccepted(" \t\n")
  {
  }
}
