/** The walk up to the workspace root, the POSIX `find_workspace_root` of `native/clide-cli/clide.c`. The
    file system is a predicate on the paths that exist. */
module ClideRoot {
  import opened Common

  const BUFFER := 4096

  /** The file system: which paths `lstat` finds. */
  type Files = string -> bool

  predicate HasGit(files: Files, dir: string) { files(dir + "/.git") }

  /** Position of the last `/`, if there is one. */
  function LastSlash(s: string): (k: Option<nat>)
    ensures k.None? ==> '/' !in s
    ensures k.Some? ==> k.value < |s| && s[k.value] == '/' && forall j :: k.value < j < |s| ==> s[j] != '/'
  {
    if |s| == 0 then None
    else if s[|s| - 1] == '/' then Some(|s| - 1)
    else LastSlash(s[..|s| - 1])
  }

  /** The directories the walk may stop at: the start, what stands before each of its slashes, and the root
      of an absolute path. */
  ghost predicate Stop(start: string, dir: string) {
    || dir == start
    || (0 < |dir| < |start| && dir <= start && start[|dir|] == '/')
    || (dir == "/" && "/" <= start)
  }

  method FindWorkspaceRoot(start: string, files: Files) returns (root: Option<string>)
    ensures |start| + 6 >= 4096 ==> root.None?
    ensures |start| + 6 < 4096 && root.None? ==> forall dir :: Stop(start, dir) ==> !files(dir + "/.git")
    ensures root.Some? ==> Stop(start, root.value) && files(root.value + "/.git")
    ensures root.Some? ==> forall dir :: Stop(start, dir) && |dir| > |root.value| ==> !files(dir + "/.git")
  {
    var cwd := if |start| > BUFFER - 1 then start[..BUFFER - 1] else start;
    while true
      invariant |start| + 6 < BUFFER ==> Stop(start, cwd) && |cwd| <= |start|
      invariant |start| + 6 < BUFFER ==> forall dir :: Stop(start, dir) && |dir| > |cwd| ==> !HasGit(files, dir)
      invariant |start| + 6 >= BUFFER ==> |cwd| + 6 >= BUFFER
      decreases |cwd|
    {
      if |cwd| + 6 >= BUFFER { return None; }
      if HasGit(files, cwd) { return Some(cwd); }
      StopsOfLength(start, cwd);
      if cwd == "/" { NoneShorter(start, cwd); return None; }
      var slash := LastSlash(cwd);
      if slash.None? { NoneShorter(start, cwd); return None; }
      Climb(start, cwd, slash.value);
      cwd := if slash.value == 0 then cwd[..1] else cwd[..slash.value];
    }
  }

  /** Stops are told apart by their length. */
  lemma StopsOfLength(start: string, dir: string)
    requires Stop(start, dir)
    ensures forall other :: Stop(start, other) && |other| == |dir| ==> other == dir
  {
    assert dir <= start;
    forall other | Stop(start, other) && |other| == |dir| ensures other == dir {
      assert other <= start;
    }
  }

  /** At the root, or without a slash, there is no shorter stop. */
  lemma NoneShorter(start: string, dir: string)
    requires Stop(start, dir) && (dir == "/" || '/' !in dir)
    ensures forall other :: Stop(start, other) ==> |other| >= |dir|
  {
    assert dir <= start;
    forall k | 0 <= k < |dir| && start[k] == '/' ensures '/' in dir {
      assert dir[k] == start[k];
    }
    assert "/" <= start ==> start[0] == '/';
    forall other | Stop(start, other) ensures |other| >= |dir| {
      assert other <= start;
    }
  }

  /** Climbing goes to the next shorter stop. */
  lemma Climb(start: string, dir: string, k: nat)
    requires Stop(start, dir) && dir != "/" && LastSlash(dir) == Some(k)
    ensures var up := if k == 0 then dir[..1] else dir[..k];
            && Stop(start, up) && |up| < |dir|
            && forall other :: Stop(start, other) && |other| < |dir| ==> |other| <= |up|
  {
    assert dir <= start;
    var up := if k == 0 then dir[..1] else dir[..k];
    assert up <= start;
    if k == 0 {
      assert up == "/";
      assert |dir| == 1 ==> dir == "/";
    } else {
      assert start[|up|] == dir[k] == '/';
    }
    forall other | Stop(start, other) && |other| < |dir| ensures |other| <= |up| {
      assert other <= start;
      if |other| > 0 && start[|other|] == '/' { assert dir[|other|] == '/'; }
    }
  }
}
