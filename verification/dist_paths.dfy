/** The dist directory: the safety check that guards its recursive delete
    (`cleanDirectoryStructure`) and the skeleton created afterwards
    (`buildDirectoryStructure`). */
module DistPaths {
  import opened Outcomes
  import opened Effects

  const CriticalError := "Critical Error: Attempting to delete dist directory when it is not set correctly."
  const DeleteError := "There was a problem deleting the dist directory."

  /** The only dist directory the build accepts: `dist/` inside the project. */
  function ExpectedDistDir(projectDir: string): string
  {
    projectDir + "dist/"
  }

  /** Where the compiled templates of the dist build go. */
  function VoltCacheDirFor(distDir: string): string
  {
    distDir + "cache-static/volt/"
  }

  /** The guard in front of the delete, with all three of its disjuncts.
      The last two never decide anything: a dist directory equal to the
      expected one is never empty and never the filesystem root. */
  function DistDirRejected(projectDir: string, distDir: string): (rejected: bool)
    ensures rejected <==> distDir != ExpectedDistDir(projectDir)
  {
    distDir != projectDir + "dist/" || distDir == "" || distDir == "/"
  }

  /** The expected dist directory ends in "dist/", so it is at least five
      characters long and cannot be "" or "/". */
  lemma ExpectedDistDirShape(projectDir: string)
    ensures var d := ExpectedDistDir(projectDir);
            |d| >= 5 && d[|d| - 5..] == "dist/" && d != "" && d != "/"
  {
  }

  /** `cleanDirectoryStructure`: check the dist directory, then delete it
      recursively when it exists. `distExists` stands for `file_exists` and
      `rmExit` for the exit code `rm -Rf` would return. */
  function CleanDirectoryStructure(projectDir: string, distDir: string, distExists: bool, rmExit: int): (r: StageResult)
    ensures r.actions == [] || r.actions == [RemoveTree(ExpectedDistDir(projectDir))]
    ensures RemoveTree(distDir) in r.actions <==> distDir == ExpectedDistDir(projectDir) && distExists
    ensures distDir != ExpectedDistDir(projectDir) ==> r.actions == [] && r.outcome == Threw(CriticalError)
    ensures r.outcome == Completed <==> distDir == ExpectedDistDir(projectDir) && (!distExists || rmExit == 0)
    ensures r.outcome == Completed || r.outcome == Threw(CriticalError) || r.outcome == Threw(DeleteError)
    ensures r.outcome == Threw(CriticalError) <==> distDir != ExpectedDistDir(projectDir)
    ensures distDir == ExpectedDistDir(projectDir) && distExists && rmExit != 0 ==> r.outcome == Threw(DeleteError)
  {
    if DistDirRejected(projectDir, distDir) then
      StageResult([], Threw(CriticalError))
    else if distExists then
      StageResult([RemoveTree(distDir)], if rmExit != 0 then Threw(DeleteError) else Completed)
    else
      StageResult([], Completed)
  }

  /** `child` names a directory one level below `parent`: the parent path,
      then one non-empty name without '/', then '/'. */
  predicate ChildDir(parent: string, child: string)
  {
    && |child| > |parent| + 1
    && child[..|parent|] == parent
    && child[|child| - 1] == '/'
    && forall k :: |parent| <= k < |child| - 1 ==> child[k] != '/'
  }

  /** `buildDirectoryStructure`: the dist directory and its fixed
      subdirectories, created one `mkdir` at a time. A failing `mkdir` only
      emits a PHP warning and does not stop the build. */
  function BuildDirectoryStructure(distDir: string): (r: StageResult)
    ensures r.outcome == Completed
    ensures |r.actions| == 5 && r.actions[0] == MakeDir(distDir)
    ensures forall a :: a in r.actions ==> a.MakeDir? && |a.path| >= |distDir| && a.path[..|distDir|] == distDir
    ensures MakeDir(distDir + "public/") in r.actions
    ensures MakeDir(distDir + "etc/") in r.actions
    ensures MakeDir(distDir + "cache-static/") in r.actions
    ensures MakeDir(VoltCacheDirFor(distDir)) in r.actions
  {
    StageResult([MakeDir(distDir),
                 MakeDir(distDir + "public/"),
                 MakeDir(distDir + "etc/"),
                 MakeDir(distDir + "cache-static/"),
                 MakeDir(distDir + "cache-static/volt/")],
                Completed)
  }

  lemma ChildDirAppend(parent: string, name: string)
    requires |name| > 0
    requires forall k :: 0 <= k < |name| ==> name[k] != '/'
    ensures ChildDir(parent, parent + name + "/")
  {
    var child := parent + name + "/";
    assert child[..|parent|] == parent;
    forall k | |parent| <= k < |child| - 1
      ensures child[k] != '/'
    {
      assert child[k] == name[k - |parent|];
    }
  }

  /** Every directory the skeleton creates after the first sits directly
      below one created before it, so each non-recursive `mkdir` has its
      parent in place once the dist directory itself exists. */
  lemma SkeletonParentsFirst(distDir: string)
    ensures var dirs := BuildDirectoryStructure(distDir).actions;
            forall i :: 0 < i < |dirs| ==> exists j :: 0 <= j < i && ChildDir(dirs[j].path, dirs[i].path)
  {
    var dirs := BuildDirectoryStructure(distDir).actions;
    ChildDirAppend(distDir, "public");
    ChildDirAppend(distDir, "etc");
    ChildDirAppend(distDir, "cache-static");
    ChildDirAppend(distDir + "cache-static/", "volt");
    assert distDir + "cache-static/" + "volt" + "/" == distDir + "cache-static/volt/";
    assert ChildDir(dirs[0].path, dirs[1].path);
    assert ChildDir(dirs[0].path, dirs[2].path);
    assert ChildDir(dirs[0].path, dirs[3].path);
    assert ChildDir(dirs[3].path, dirs[4].path);
  }
}
