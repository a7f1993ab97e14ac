/** `rebuild_repo` and `rebuild_all_repos` (arado/aradoutil.py): regenerate a
    repository's metadata with createrepo, optionally inside a chroot. */
module Rebuild {
  import opened Base
  import opened Strings
  import opened Fs
  import opened Layout
  import Signing

  const CREATEREPO := "/usr/bin/createrepo"
  const COMPS_GLOB := "*xml"
  const REPODATA := "repodata"
  const REBUILD_FAILED := "Failed to rebuild repository"

  /** The fixed options: sha checksums, incremental update, symlinks skipped,
      internal release packages excluded, unique metadata file names. */
  const CREATEREPO_FLAGS: seq<string> :=
    ["--checksum=sha", "--update", "--skip-symlinks", "-x", "*release-internal*", "--unique-md-filenames"]

  /** The comps (group) file handed to createrepo: the first match of the
      glob, seen through the bind mount when running in a chroot. */
  function CompsFile(chroot: Option<string>, matches: seq<string>): (comps: Option<string>)
    ensures comps.None? <==> matches == []
    ensures comps.Some? && !Truthy(chroot) ==> comps.value == matches[0]
    ensures comps.Some? && Truthy(chroot) ==> StartsWith(comps.value, MOUNT_POINT)
  {
    if matches == [] then None
    else if Truthy(chroot) then
      var name := Basename(matches[0]);
      assert !StartsWith(name, "/") by { assert name == [] || name[0] in name; }
      Some(PathJoin(MOUNT_POINT, name))
    else Some(matches[0])
  }

  /** A comps file found directly in the repository directory is named, inside
      the chroot, by the same name under the mount point the directory is
      bound to. */
  lemma CompsUnderMount(path: Path, chroot: Option<string>, name: string, rest: seq<string>)
    requires Truthy(chroot) && Component(name)
    ensures CompsFile(chroot, [PathJoin(Render(path), name)] + rest) == Some(MOUNT_POINT + "/" + name)
  {
    BasenameOfJoin(Render(path), name);
    assert name[0] in name;
  }

  /** The createrepo argument vector, position by position: the chroot
      wrapper, the program, the optional group file, the fixed flags and the
      directory to index, "/mnt" inside a chroot and "." otherwise. */
  function CreaterepoArgv(chroot: Option<string>, comps: Option<string>): (argv: seq<string>)
    ensures var k := if Truthy(chroot) then 2 else 0;
            var g := if comps.Some? then 2 else 0;
            |argv| == k + g + |CREATEREPO_FLAGS| + 2
            && (Truthy(chroot) ==> argv[0] == CHROOT_BIN && argv[1] == chroot.value)
            && argv[k] == CREATEREPO
            && (comps.Some? ==> argv[k + 1] == "-g" && argv[k + 2] == comps.value)
            && argv[k + 1 + g..|argv| - 1] == CREATEREPO_FLAGS
            && argv[|argv| - 1] == (if Truthy(chroot) then MOUNT_POINT else ".")
  {
    (if Truthy(chroot) then [CHROOT_BIN, chroot.value] else [])
    + [CREATEREPO]
    + (if comps.Some? then ["-g", comps.value] else [])
    + CREATEREPO_FLAGS
    + [if Truthy(chroot) then MOUNT_POINT else "."]
  }

  /** The argument vector tells which chroot and which group file were used:
      two calls with the same vector agree on both. */
  lemma ArgvDetermines(c1: Option<string>, g1: Option<string>, c2: Option<string>, g2: Option<string>)
    requires CreaterepoArgv(c1, g1) == CreaterepoArgv(c2, g2)
    ensures Truthy(c1) == Truthy(c2)
    ensures Truthy(c1) ==> c1 == c2
    ensures g1 == g2
  {
    var a := CreaterepoArgv(c1, g1);
    assert Truthy(c1) == (a[|a| - 1] == MOUNT_POINT);
    assert Truthy(c2) == (a[|a| - 1] == MOUNT_POINT);
  }

  /** `shutil.rmtree(path/repodata, ignore_errors=True)`: a directory is
      removed with everything below it; a file, a link or nothing is left
      as it is, since the error is ignored. */
  function ClearRepodata(fs: FileSystem, path: Path): (r: FileSystem)
    ensures IsDir(fs, path + [REPODATA]) ==> Absent(r, path + [REPODATA])
    ensures !IsDir(fs, path + [REPODATA]) ==> r == fs
    ensures forall q :: q in fs && !(path + [REPODATA] <= q) ==> q in r && r[q] == fs[q]
    ensures r.Keys <= fs.Keys
  {
    if IsDir(fs, path + [REPODATA]) then RemoveTree(fs, path + [REPODATA]) else fs
  }

  /** The createrepo run for a repository directory: the group file is
      looked up by globbing "*xml" in the directory, and the run's working
      directory is the repository. */
  function CreaterepoRun(path: Path, chroot: Option<string>, glob: string -> seq<string>): (a: Action)
    ensures a.Run? && a.cwd == Some(Render(path))
  {
    Run(CreaterepoArgv(chroot, CompsFile(chroot, glob(PathJoin(Render(path), COMPS_GLOB)))), Some(Render(path)))
  }

  /** The effect of one rebuild: the new filesystem, the commands issued in
      order, and how it ended. */
  datatype Rebuilt = Rebuilt(fs: FileSystem, actions: seq<Action>, out: Outcome)

  /** What a createrepo run does: its exit status, and the metadata tree it
      leaves in the "repodata" directory of the repository, keyed by paths
      relative to that directory. */
  datatype CreaterepoOutput = CreaterepoOutput(status: int, repodata: map<Path, Node>)

  /** `rebuild_repo(path, chroot)`, where `glob` lists the matches of a
      pattern and `createrepo` tells what a run does. The old "repodata"
      directory is removed, then createrepo is run once, in the repository
      directory, and regenerates it; in a chroot the directory is
      bind-mounted before and unmounted after, whatever the status; a
      positive status raises, any other is success. Nothing outside the
      "repodata" directory changes. */
  function Rebuild(fs: FileSystem, path: Path, chroot: Option<string>,
                   glob: string -> seq<string>, createrepo: Action -> CreaterepoOutput): (r: Rebuilt)
    ensures var run := CreaterepoRun(path, chroot, glob);
            Tree(r.fs, path + [REPODATA]) == createrepo(run).repodata
    ensures forall q :: q in fs && !(path + [REPODATA] <= q) ==> q in r.fs && r.fs[q] == fs[q]
    ensures forall q :: q in r.fs ==> q in fs || path + [REPODATA] <= q
    ensures var run := CreaterepoRun(path, chroot, glob);
            (Truthy(chroot) ==> r.actions == [System(Signing.MountCommand(Render(path), chroot.value)), run,
                                              System(Signing.UmountCommand(Render(path)))])
            && (!Truthy(chroot) ==> r.actions == [run])
            && (r.out.Ok? <==> createrepo(run).status <= 0)
    ensures r.out.Raised? ==> r.out.error == PromotionError(REBUILD_FAILED)
  {
    var run := CreaterepoRun(path, chroot, glob);
    var result := createrepo(run);
    var actions := if Truthy(chroot)
      then [System(Signing.MountCommand(Render(path), chroot.value)), run, System(Signing.UmountCommand(Render(path)))]
      else [run];
    Rebuilt(Graft(ClearRepodata(fs, path), path + [REPODATA], result.repodata), actions,
            if result.status > 0 then Raised(PromotionError(REBUILD_FAILED)) else Ok)
  }

  /** `rebuild_repo`, building the argument vector piece by piece. */
  method RebuildRepo(fs: FileSystem, path: Path, chroot: Option<string>,
                     glob: string -> seq<string>, createrepo: Action -> CreaterepoOutput)
    returns (fs': FileSystem, actions: seq<Action>, out: Outcome)
    ensures Rebuilt(fs', actions, out) == Rebuild(fs, path, chroot, glob, createrepo)
  {
    fs' := fs;
    if IsDir(fs, path + [REPODATA]) {
      fs' := RemoveTree(fs, path + [REPODATA]);
    }
    assert fs' == ClearRepodata(fs, path);
    var result;
    actions, result := RunCreaterepo(path, chroot, glob, createrepo);
    fs' := Graft(fs', path + [REPODATA], result.repodata);
    out := Ok;
    if result.status > 0 {
      out := Raised(PromotionError(REBUILD_FAILED));
    }
    RebuildUnfold(fs, path, chroot, glob, createrepo);
  }

  /** The commands of `rebuild_repo`: the bind mount in a chroot, the
      createrepo run in the repository directory, and the unmount. */
  method RunCreaterepo(path: Path, chroot: Option<string>,
                       glob: string -> seq<string>, createrepo: Action -> CreaterepoOutput)
    returns (actions: seq<Action>, result: CreaterepoOutput)
    ensures var run := CreaterepoRun(path, chroot, glob);
            result == createrepo(run)
            && (Truthy(chroot) ==> actions == [System(Signing.MountCommand(Render(path), chroot.value)), run,
                                               System(Signing.UmountCommand(Render(path)))])
            && (!Truthy(chroot) ==> actions == [run])
  {
    var repo := Render(path);
    var mount: seq<Action> := [];
    if Truthy(chroot) {
      mount := [System(Signing.MountCommand(repo, chroot.value))];
    }
    var cmd := CreaterepoCommand(chroot, glob(PathJoin(repo, COMPS_GLOB)));
    result := createrepo(Run(cmd, Some(repo)));
    actions := mount + [Run(cmd, Some(repo))];
    if Truthy(chroot) {
      actions := actions + [System(Signing.UmountCommand(repo))];
    }
  }

  /** The filesystem, actions and outcome of a rebuild, step by step. */
  lemma RebuildUnfold(fs: FileSystem, path: Path, chroot: Option<string>,
                      glob: string -> seq<string>, createrepo: Action -> CreaterepoOutput)
    ensures var run := CreaterepoRun(path, chroot, glob);
            var r := Rebuild(fs, path, chroot, glob, createrepo);
            r.fs == Graft(ClearRepodata(fs, path), path + [REPODATA], createrepo(run).repodata)
  {
  }

  /** The argument vector as `rebuild_repo` assembles it, one `+=` at a time. */
  method CreaterepoCommand(chroot: Option<string>, matches: seq<string>) returns (cmd: seq<string>)
    ensures cmd == CreaterepoArgv(chroot, CompsFile(chroot, matches))
  {
    cmd := [];
    if Truthy(chroot) {
      cmd := [CHROOT_BIN, chroot.value];
    }
    cmd := cmd + [CREATEREPO];
    var comps: Option<string> := None;
    if matches != [] {
      var file := matches[0];
      if Truthy(chroot) {
        file := PathJoin(MOUNT_POINT, Basename(file));
      }
      comps := Some(file);
      cmd := cmd + ["-g", file];
    }
    cmd := cmd + CREATEREPO_FLAGS;
    if Truthy(chroot) {
      cmd := cmd + [MOUNT_POINT];
    } else {
      cmd := cmd + ["."];
    }
    assert comps == CompsFile(chroot, matches);
  }

  // ---- rebuild_all_repos ----

  /** The architecture directories of a tree: every template directory
      followed by "i386" and then "x86_64". */
  function ArchDirs(toplevel: Path): (dirs: seq<Path>)
    ensures |dirs| == |TEMPLATE_DIRS| * |ARCHES|
    ensures forall i, j :: 0 <= i < |TEMPLATE_DIRS| && 0 <= j < |ARCHES| ==>
              dirs[i * |ARCHES| + j] == toplevel + TEMPLATE_DIRS[i] + [ARCHES[j]]
  {
    [toplevel + TEMPLATE_DIRS[0] + [ARCHES[0]], toplevel + TEMPLATE_DIRS[0] + [ARCHES[1]]]
  }

  /** Rebuilding each directory of `dirs` in turn that is a directory at the
      time it is reached, stopping at the first failure. */
  function RebuildEach(fs: FileSystem, dirs: seq<Path>, glob: string -> seq<string>,
                       createrepo: Action -> CreaterepoOutput): (r: Rebuilt)
    ensures r.out.Raised? ==> r.out.error == PromotionError(REBUILD_FAILED)
    decreases |dirs|
  {
    if dirs == [] then Rebuilt(fs, [], Ok)
    else
      var before := RebuildEach(fs, dirs[..|dirs| - 1], glob, createrepo);
      var d := dirs[|dirs| - 1];
      if before.out.Raised? || !IsDir(before.fs, d) then before
      else
        var step := Rebuild(before.fs, d, None, glob, createrepo);
        Rebuilt(step.fs, before.actions + step.actions, step.out)
  }

  /** `rebuild_all_repos(toplevel)`: no chroot is used. */
  method RebuildAllRepos(fs: FileSystem, toplevel: Path, glob: string -> seq<string>,
                         createrepo: Action -> CreaterepoOutput)
    returns (fs': FileSystem, actions: seq<Action>, out: Outcome)
    ensures Rebuilt(fs', actions, out) == RebuildEach(fs, ArchDirs(toplevel), glob, createrepo)
  {
    var dirs := ArchDirs(toplevel);
    fs', actions, out := fs, [], Ok;
    var n := 0;
    for i := 0 to |TEMPLATE_DIRS|
      invariant n == i * |ARCHES|
      invariant Rebuilt(fs', actions, out) == RebuildEach(fs, dirs[..n], glob, createrepo)
      invariant out == Ok
    {
      for j := 0 to |ARCHES|
        invariant n == i * |ARCHES| + j
        invariant Rebuilt(fs', actions, out) == RebuildEach(fs, dirs[..n], glob, createrepo)
        invariant out == Ok
      {
        var archdir := toplevel + TEMPLATE_DIRS[i] + [ARCHES[j]];
        assert dirs[n] == archdir;
        RebuildEachNext(fs, dirs, n, glob, createrepo);
        var acts;
        fs', acts, out := RebuildIfDir(fs', archdir, glob, createrepo);
        actions := actions + acts;
        if out.Raised? {
          RebuildStops(fs, dirs, n + 1, glob, createrepo);
          return;
        }
        n := n + 1;
      }
    }
    assert dirs[..n] == dirs;
  }

  /** One pass of the loop of `rebuild_all_repos`: the directory is rebuilt
      if it is one, and skipped otherwise. */
  method RebuildIfDir(fs: FileSystem, d: Path, glob: string -> seq<string>, createrepo: Action -> CreaterepoOutput)
    returns (fs': FileSystem, actions: seq<Action>, out: Outcome)
    ensures IsDir(fs, d) ==> Rebuilt(fs', actions, out) == Rebuild(fs, d, None, glob, createrepo)
    ensures !IsDir(fs, d) ==> fs' == fs && actions == [] && out == Ok
  {
    fs', actions, out := fs, [], Ok;
    if IsDir(fs, d) {
      fs', actions, out := RebuildRepo(fs, d, None, glob, createrepo);
    }
  }

  /** How one more directory extends RebuildEach when nothing has failed yet. */
  lemma RebuildEachNext(fs: FileSystem, dirs: seq<Path>, n: nat, glob: string -> seq<string>,
                        createrepo: Action -> CreaterepoOutput)
    requires n < |dirs|
    requires RebuildEach(fs, dirs[..n], glob, createrepo).out.Ok?
    ensures var before := RebuildEach(fs, dirs[..n], glob, createrepo);
            var r := RebuildEach(fs, dirs[..n + 1], glob, createrepo);
            (!IsDir(before.fs, dirs[n]) ==> r == before)
            && (IsDir(before.fs, dirs[n]) ==>
                  var step := Rebuild(before.fs, dirs[n], None, glob, createrepo);
                  r == Rebuilt(step.fs, before.actions + step.actions, step.out))
  {
    assert dirs[..n + 1][..n] == dirs[..n];
  }

  /** Once a rebuild has failed, later directories are not visited. */
  lemma {:induction false} RebuildStops(fs: FileSystem, dirs: seq<Path>, k: nat,
                                        glob: string -> seq<string>, createrepo: Action -> CreaterepoOutput)
    requires k <= |dirs|
    requires RebuildEach(fs, dirs[..k], glob, createrepo).out.Raised?
    ensures RebuildEach(fs, dirs, glob, createrepo) == RebuildEach(fs, dirs[..k], glob, createrepo)
    decreases |dirs| - k
  {
    if k < |dirs| {
      assert dirs[..k + 1][..k] == dirs[..k];
      RebuildStops(fs, dirs, k + 1, glob, createrepo);
    } else {
      assert dirs[..k] == dirs;
    }
  }

  /** No directory of the list lies inside another. */
  predicate PairwiseDisjoint(dirs: seq<Path>)
  {
    forall i, j :: 0 <= i < j < |dirs| ==> Disjoint(dirs[i], dirs[j])
  }

  /** The two architecture directories are siblings. */
  lemma ArchDirsDisjoint(toplevel: Path)
    ensures PairwiseDisjoint(ArchDirs(toplevel))
  {
    var dirs := ArchDirs(toplevel);
    var n := |dirs[0]|;
    assert |dirs[1]| == n && dirs[0][n - 1] != dirs[1][n - 1];
  }

  /** The entries of `dirs` that are directories in `fs`, in order. */
  function Visited(fs: FileSystem, dirs: seq<Path>): seq<Path>
  {
    if dirs == [] then []
    else Visited(fs, dirs[..|dirs| - 1]) + (if IsDir(fs, dirs[|dirs| - 1]) then [dirs[|dirs| - 1]] else [])
  }

  /** The unchrooted createrepo run for each directory, in order. */
  function Runs(dirs: seq<Path>, glob: string -> seq<string>): seq<Action>
  {
    if dirs == [] then []
    else
      var d := dirs[|dirs| - 1];
      Runs(dirs[..|dirs| - 1], glob) + [CreaterepoRun(d, None, glob)]
  }

  /** Nothing is touched except the "repodata" directories of the list. */
  predicate OutsideRepodata(dirs: seq<Path>, q: Path)
  {
    forall i :: 0 <= i < |dirs| ==> !(dirs[i] + [REPODATA] <= q)
  }

  /** `rebuild_all_repos` changes nothing outside the "repodata" directories
      of the list, and adds nothing outside them. */
  lemma {:induction false} RebuildEachKeeps(fs: FileSystem, dirs: seq<Path>, glob: string -> seq<string>,
                                            createrepo: Action -> CreaterepoOutput)
    ensures var r := RebuildEach(fs, dirs, glob, createrepo);
            forall q :: q in fs && OutsideRepodata(dirs, q) ==> q in r.fs && r.fs[q] == fs[q]
    ensures var r := RebuildEach(fs, dirs, glob, createrepo);
            forall q :: q in r.fs && OutsideRepodata(dirs, q) ==> q in fs
    decreases |dirs|
  {
    if dirs != [] {
      var init := dirs[..|dirs| - 1];
      RebuildEachKeeps(fs, init, glob, createrepo);
      forall q | OutsideRepodata(dirs, q) ensures OutsideRepodata(init, q) && !(dirs[|dirs| - 1] + [REPODATA] <= q) {
        forall i | 0 <= i < |init| ensures !(init[i] + [REPODATA] <= q) {
          assert init[i] == dirs[i];
        }
      }
    }
  }

  /** The last directory of a disjoint list, and its "repodata", look the same
      after the earlier rebuilds as before them. */
  lemma LastUntouched(fs: FileSystem, dirs: seq<Path>, glob: string -> seq<string>,
                      createrepo: Action -> CreaterepoOutput)
    requires PairwiseDisjoint(dirs) && dirs != []
    ensures var before := RebuildEach(fs, dirs[..|dirs| - 1], glob, createrepo);
            var d := dirs[|dirs| - 1];
            IsDir(before.fs, d) == IsDir(fs, d)
            && IsDir(before.fs, d + [REPODATA]) == IsDir(fs, d + [REPODATA])
  {
    var init := dirs[..|dirs| - 1];
    var d := dirs[|dirs| - 1];
    forall i | 0 <= i < |init|
      ensures !(init[i] + [REPODATA] <= d) && !(init[i] + [REPODATA] <= d + [REPODATA])
    {
      assert Disjoint(dirs[i], d);
      NotBelowSibling(init[i], d);
    }
    assert OutsideRepodata(init, d) && OutsideRepodata(init, d + [REPODATA]);
    RebuildEachKeeps(fs, init, glob, createrepo);
  }

  /** Over directories none of which lies inside another, a successful
      `rebuild_all_repos` runs createrepo exactly in the directories that
      exist to begin with, in order. */
  lemma {:induction false} RebuildEachRuns(fs: FileSystem, dirs: seq<Path>, glob: string -> seq<string>,
                                           createrepo: Action -> CreaterepoOutput)
    requires PairwiseDisjoint(dirs)
    ensures var r := RebuildEach(fs, dirs, glob, createrepo);
            r.out.Ok? ==> r.actions == Runs(Visited(fs, dirs), glob)
    decreases |dirs|
  {
    if dirs != [] {
      var init := dirs[..|dirs| - 1];
      assert PairwiseDisjoint(init);
      RebuildEachRuns(fs, init, glob, createrepo);
      LastUntouched(fs, dirs, glob, createrepo);
      var d := dirs[|dirs| - 1];
      var before := RebuildEach(fs, init, glob, createrepo);
      var r := RebuildEach(fs, dirs, glob, createrepo);
      if r.out.Ok? {
        assert before.out.Ok?;
        if IsDir(fs, d) {
          var vs := Visited(fs, init) + [d];
          assert Visited(fs, dirs) == vs;
          assert vs[..|vs| - 1] == Visited(fs, init);
          assert Runs(vs, glob) == Runs(Visited(fs, init), glob) + [CreaterepoRun(d, None, glob)];
          assert r.actions == before.actions + Rebuild(before.fs, d, None, glob, createrepo).actions;
        } else {
          assert Visited(fs, dirs) == Visited(fs, init);
        }
      }
    }
  }

  /** A successful `rebuild_all_repos` over disjoint directories leaves in
      every directory that existed the metadata its createrepo run
      regenerated. */
  lemma {:induction false} RebuildEachRegenerates(fs: FileSystem, dirs: seq<Path>, glob: string -> seq<string>,
                                                  createrepo: Action -> CreaterepoOutput)
    requires PairwiseDisjoint(dirs)
    ensures var r := RebuildEach(fs, dirs, glob, createrepo);
            r.out.Ok? ==> forall i :: 0 <= i < |dirs| && IsDir(fs, dirs[i]) ==>
                            Tree(r.fs, dirs[i] + [REPODATA]) == createrepo(CreaterepoRun(dirs[i], None, glob)).repodata
    decreases |dirs|
  {
    if dirs != [] {
      var n := |dirs| - 1;
      var init, d := dirs[..n], dirs[n];
      assert PairwiseDisjoint(init);
      RebuildEachRegenerates(fs, init, glob, createrepo);
      LastUntouched(fs, dirs, glob, createrepo);
      var before := RebuildEach(fs, init, glob, createrepo);
      var r := RebuildEach(fs, dirs, glob, createrepo);
      if r.out.Ok? {
        assert before.out.Ok?;
        forall i | 0 <= i < |dirs| && IsDir(fs, dirs[i])
          ensures Tree(r.fs, dirs[i] + [REPODATA]) == createrepo(CreaterepoRun(dirs[i], None, glob)).repodata
        {
          if i < n {
            assert init[i] == dirs[i];
            if IsDir(before.fs, d) {
              assert Disjoint(dirs[i], d);
              RebuildOther(before.fs, d, dirs[i], glob, createrepo);
            }
          }
        }
      }
    }
  }

  /** A rebuild leaves the "repodata" directory of a disjoint path alone. */
  lemma RebuildOther(fs: FileSystem, path: Path, c: Path, glob: string -> seq<string>,
                     createrepo: Action -> CreaterepoOutput)
    requires Disjoint(path, c)
    ensures Tree(Rebuild(fs, path, None, glob, createrepo).fs, c + [REPODATA]) == Tree(fs, c + [REPODATA])
  {
    forall rel ensures !(path + [REPODATA] <= c + [REPODATA] + rel) {
      RepodataApart(path, c, rel);
    }
    TreeOutside(fs, Rebuild(fs, path, None, glob, createrepo).fs, path + [REPODATA], c + [REPODATA]);
  }

  /** Below the "repodata" directory of a path lies nothing of the
      "repodata" directory of a disjoint one. */
  lemma RepodataApart(a: Path, c: Path, rel: Path)
    requires Disjoint(a, c)
    ensures !(a + [REPODATA] <= c + [REPODATA] + rel)
  {
    var q := c + [REPODATA] + rel;
    if |a| < |c| {
      assert q[..|a|] == c[..|a|];
    } else {
      assert (a + [REPODATA])[..|c|] == a[..|c|];
    }
  }

  /** The "repodata" directory of one path never holds a path disjoint from it. */
  lemma NotBelowSibling(a: Path, d: Path)
    requires Disjoint(a, d)
    ensures !(a + [REPODATA] <= d) && !(a + [REPODATA] <= d + [REPODATA])
  {
    ExtendedPrefix(a, d);
  }

  lemma ExtendedPrefix(a: Path, d: Path)
    ensures a + [REPODATA] <= d ==> a <= d
    ensures a + [REPODATA] <= d + [REPODATA] ==> a <= d
  {
    if |a| <= |d| {
      assert (d + [REPODATA])[..|a|] == d[..|a|];
    }
  }
}
