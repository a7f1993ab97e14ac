/** `create_staging_repo` (arado/aradoutil.py): a fresh temporary directory
    that either receives a copy of an existing repository or is laid out as
    an empty repository skeleton. */
module Staging {
  import opened Base
  import opened Strings
  import opened Fs
  import opened Layout

  const STAGING_FAILED := "Failed to create temporary repository"

  /** What a new, empty repository looks like below its top directory:
      "rhel" and "rhel/6" as directories, "centos" linking to "rhel", and
      "rhel/6Server" and "rhel/6Workstation" linking to "6". */
  const SKELETON: map<Path, Node> := map[
    ["rhel"] := Dir(MKDIR_MODE),
    ["rhel", "6"] := Dir(MKDIR_MODE),
    ["centos"] := Symlink("rhel"),
    ["rhel", "6Server"] := Symlink("6"),
    ["rhel", "6Workstation"] := Symlink("6")
  ]

  /** `os.makedirs(tmp/d)` for each template directory, in order, stopping at
      the first failure. */
  function TemplateDirs(fs: FileSystem, tmp: Path, dirs: seq<Path>): Result<FileSystem>
    decreases |dirs|
  {
    if dirs == [] then Success(fs)
    else
      var before := TemplateDirs(fs, tmp, dirs[..|dirs| - 1]);
      if before.Failure? then before
      else MakeDirs(before.value, tmp + dirs[|dirs| - 1])
  }

  /** `os.symlink(target, tmp/name)` for each template link, in order,
      stopping at the first failure. */
  function TemplateLinks(fs: FileSystem, tmp: Path, links: seq<Link>): Result<FileSystem>
    decreases |links|
  {
    if links == [] then Success(fs)
    else
      var before := TemplateLinks(fs, tmp, links[..|links| - 1]);
      var link := links[|links| - 1];
      if before.Failure? then before
      else if tmp + link.name == [] then Failure(OSError(FILE_EXISTS))
      else MakeLink(before.value, link.target, tmp + link.name)
  }

  /** The template laid out in `tmp`: the directories, then the links. */
  function Template(fs: FileSystem, tmp: Path): Result<FileSystem>
  {
    var dirs := TemplateDirs(fs, tmp, TEMPLATE_DIRS);
    if dirs.Failure? then dirs else TemplateLinks(dirs.value, tmp, TEMPLATE_LINKS)
  }

  /** Nothing lies below `tmp` but `tmp` itself, which is a directory. */
  ghost predicate EmptyDir(fs: FileSystem, tmp: Path)
  {
    IsDir(fs, tmp) && forall q :: q in fs && tmp <= q ==> q == tmp
  }

  /** The template directories and then the template links added to `fs`
      below `tmp`, one entry at a time. */
  function WithDirs(fs: FileSystem, tmp: Path): FileSystem
  {
    fs[tmp + ["rhel"] := Dir(MKDIR_MODE)][tmp + ["rhel", "6"] := Dir(MKDIR_MODE)]
  }

  function WithLinks(fs: FileSystem, tmp: Path): FileSystem
  {
    fs[tmp + ["centos"] := Symlink("rhel")][tmp + ["rhel", "6Server"] := Symlink("6")]
      [tmp + ["rhel", "6Workstation"] := Symlink("6")]
  }

  /** Laying the template out in an empty directory succeeds and gives
      exactly the skeleton below it; nothing outside it changes. */
  lemma TemplateBuildsSkeleton(fs: FileSystem, tmp: Path)
    requires EmptyDir(fs, tmp)
    ensures Template(fs, tmp).Success?
    ensures var r := Template(fs, tmp).value;
            Tree(r, tmp) == SKELETON[[] := fs[tmp]]
            && (forall q :: q in fs ==> q in r && r[q] == fs[q])
            && (forall q :: q in r && !(tmp <= q) ==> q in fs)
  {
    TemplateDirsOnEmpty(fs, tmp);
    TemplateLinksOnEmpty(fs, tmp);
    SkeletonTree(fs, tmp);
    TemplateKeeps(fs, tmp);
  }

  lemma TemplateKeeps(fs: FileSystem, tmp: Path)
    requires EmptyDir(fs, tmp)
    ensures var r := WithLinks(WithDirs(fs, tmp), tmp);
            (forall q :: q in fs ==> q in r && r[q] == fs[q])
            && (forall q :: q in r && !(tmp <= q) ==> q in fs)
  {
    var r := WithLinks(WithDirs(fs, tmp), tmp);
    forall q | q in fs ensures q in r && r[q] == fs[q] {
      assert !(tmp <= q) || |q| == |tmp|;
    }
  }

  lemma TemplateDirsOnEmpty(fs: FileSystem, tmp: Path)
    requires EmptyDir(fs, tmp)
    ensures TemplateDirs(fs, tmp, TEMPLATE_DIRS) == Success(WithDirs(fs, tmp))
  {
    var rhel := tmp + ["rhel"];
    var six := tmp + ["rhel", "6"];
    assert Parent(rhel) == tmp && Parent(six) == rhel;
    assert rhel !in fs && six !in fs by {
      assert tmp <= rhel && tmp <= six;
    }
    assert MakeDirs(fs, rhel) == Success(fs[rhel := Dir(MKDIR_MODE)]);
    assert MakeDirs(fs, six) == Success(WithDirs(fs, tmp));
    assert TEMPLATE_DIRS[..0] == [];
  }

  lemma TemplateLinksOnEmpty(fs: FileSystem, tmp: Path)
    requires EmptyDir(fs, tmp)
    ensures TemplateLinks(WithDirs(fs, tmp), tmp, TEMPLATE_LINKS) == Success(WithLinks(WithDirs(fs, tmp), tmp))
  {
    var fs1 := WithDirs(fs, tmp);
    var rhel := tmp + ["rhel"];
    var centos := tmp + ["centos"];
    var server := tmp + ["rhel", "6Server"];
    var work := tmp + ["rhel", "6Workstation"];
    assert Parent(centos) == tmp && Parent(server) == rhel && Parent(work) == rhel;
    assert centos !in fs && server !in fs && work !in fs by {
      assert tmp <= centos && tmp <= server && tmp <= work;
    }
    AppendInjective(tmp, ["centos"], ["rhel", "6"]);
    AppendInjective(tmp, ["rhel", "6Server"], ["rhel", "6"]);
    AppendInjective(tmp, ["rhel", "6Workstation"], ["rhel", "6"]);
    AppendInjective(tmp, ["rhel", "6Workstation"], ["rhel", "6Server"]);
    assert centos !in fs1 && server !in fs1 && work !in fs1;
    var fs2 := fs1[centos := Symlink("rhel")];
    var fs3 := fs2[server := Symlink("6")];
    var links := TEMPLATE_LINKS;
    assert links[..0] == [] && links[..1][..0] == [] && links[..2][..1] == links[..1]
        && links[..3] == links && links[..3][..2] == links[..2];
    assert TemplateLinks(fs1, tmp, links[..1]) == Success(fs2);
    assert TemplateLinks(fs1, tmp, links[..2]) == Success(fs3);
  }

  lemma SkeletonTree(fs: FileSystem, tmp: Path)
    requires EmptyDir(fs, tmp)
    ensures Tree(WithLinks(WithDirs(fs, tmp), tmp), tmp) == SKELETON[[] := fs[tmp]]
  {
    assert Tree(fs, tmp) == map[[] := fs[tmp]] by {
      forall rel | rel in Tree(fs, tmp) ensures rel == [] {
        assert tmp + rel in fs;
      }
      assert tmp + [] == tmp;
    }
    var fs0 := fs[tmp + ["rhel"] := Dir(MKDIR_MODE)];
    var fs1 := WithDirs(fs, tmp);
    var fs2 := fs1[tmp + ["centos"] := Symlink("rhel")];
    var fs3 := fs2[tmp + ["rhel", "6Server"] := Symlink("6")];
    TreeUpdate(fs, tmp, ["rhel"], Dir(MKDIR_MODE));
    TreeUpdate(fs0, tmp, ["rhel", "6"], Dir(MKDIR_MODE));
    TreeUpdate(fs1, tmp, ["centos"], Symlink("rhel"));
    TreeUpdate(fs2, tmp, ["rhel", "6Server"], Symlink("6"));
    TreeUpdate(fs3, tmp, ["rhel", "6Workstation"], Symlink("6"));
    SkeletonLiteral(fs[tmp]);
  }

  lemma SkeletonLiteral(top: Node)
    ensures map[[] := top][["rhel"] := Dir(MKDIR_MODE)][["rhel", "6"] := Dir(MKDIR_MODE)]
              [["centos"] := Symlink("rhel")][["rhel", "6Server"] := Symlink("6")]
              [["rhel", "6Workstation"] := Symlink("6")]
         == SKELETON[[] := top]
  {
  }

  /** The template step by step, as `create_staging_repo` runs its two loops. */
  method MakeTemplate(fs: FileSystem, tmp: Path) returns (fs': FileSystem, out: Outcome)
    ensures out.Ok? <==> Template(fs, tmp).Success?
    ensures out.Ok? ==> fs' == Template(fs, tmp).value
    ensures out.Raised? ==> out.error == Template(fs, tmp).error
  {
    fs' := fs;
    var r := MakeTemplateDirs(fs, tmp);
    if r.Success? {
      r := MakeTemplateLinks(r.value, tmp);
    }
    if r.Failure? {
      return fs', Raised(r.error);
    }
    fs', out := r.value, Ok;
  }

  /** The first loop: the template directories, in order. */
  method MakeTemplateDirs(fs: FileSystem, tmp: Path) returns (r: Result<FileSystem>)
    ensures r == TemplateDirs(fs, tmp, TEMPLATE_DIRS)
  {
    var fs' := fs;
    for i := 0 to |TEMPLATE_DIRS|
      invariant TemplateDirs(fs, tmp, TEMPLATE_DIRS[..i]) == Success(fs')
    {
      assert TEMPLATE_DIRS[..i + 1][..i] == TEMPLATE_DIRS[..i];
      r := MakeDirs(fs', tmp + TEMPLATE_DIRS[i]);
      if r.Failure? {
        TemplateDirsStops(fs, tmp, TEMPLATE_DIRS, i + 1);
        assert TEMPLATE_DIRS[..|TEMPLATE_DIRS|] == TEMPLATE_DIRS;
        return;
      }
      fs' := r.value;
    }
    assert TEMPLATE_DIRS[..|TEMPLATE_DIRS|] == TEMPLATE_DIRS;
    r := Success(fs');
  }

  /** The second loop: the template links, in order. */
  method MakeTemplateLinks(fs: FileSystem, tmp: Path) returns (r: Result<FileSystem>)
    ensures r == TemplateLinks(fs, tmp, TEMPLATE_LINKS)
  {
    var fs' := fs;
    for i := 0 to |TEMPLATE_LINKS|
      invariant TemplateLinks(fs, tmp, TEMPLATE_LINKS[..i]) == Success(fs')
    {
      var link := TEMPLATE_LINKS[i];
      assert TEMPLATE_LINKS[..i + 1][..i] == TEMPLATE_LINKS[..i];
      if tmp + link.name == [] {
        r := Failure(OSError(FILE_EXISTS));
      } else {
        r := MakeLink(fs', link.target, tmp + link.name);
      }
      if r.Failure? {
        TemplateLinksStops(fs, tmp, TEMPLATE_LINKS, i + 1);
        assert TEMPLATE_LINKS[..|TEMPLATE_LINKS|] == TEMPLATE_LINKS;
        return;
      }
      fs' := r.value;
    }
    assert TEMPLATE_LINKS[..|TEMPLATE_LINKS|] == TEMPLATE_LINKS;
    r := Success(fs');
  }

  lemma {:induction false} TemplateDirsStops(fs: FileSystem, tmp: Path, dirs: seq<Path>, k: nat)
    requires k <= |dirs| && TemplateDirs(fs, tmp, dirs[..k]).Failure?
    ensures TemplateDirs(fs, tmp, dirs) == TemplateDirs(fs, tmp, dirs[..k])
    decreases |dirs| - k
  {
    if k < |dirs| {
      assert dirs[..k + 1][..k] == dirs[..k];
      TemplateDirsStops(fs, tmp, dirs, k + 1);
    } else {
      assert dirs[..k] == dirs;
    }
  }

  lemma {:induction false} TemplateLinksStops(fs: FileSystem, tmp: Path, links: seq<Link>, k: nat)
    requires k <= |links| && TemplateLinks(fs, tmp, links[..k]).Failure?
    ensures TemplateLinks(fs, tmp, links) == TemplateLinks(fs, tmp, links[..k])
    decreases |links| - k
  {
    if k < |links| {
      assert links[..k + 1][..k] == links[..k];
      TemplateLinksStops(fs, tmp, links, k + 1);
    } else {
      assert links[..k] == links;
    }
  }

  // ---- create_staging_repo ----

  /** The effect of creating a staging directory: the new filesystem, the
      commands run, the directory created and how it ended. */
  datatype Staged = Staged(fs: FileSystem, actions: seq<Action>, tmp: Path, out: Outcome)

  /** The `cp -a path/. tmp` command that fills the staging directory. */
  function CopyArgv(path: Path, tmp: Path): seq<string>
  {
    ["cp", "-a", PathJoin(Render(path), "."), Render(tmp)]
  }

  /** `create_staging_repo(path, merge)`, where `name` is the fresh name
      `tempfile.mkdtemp` picks and `cp` gives the exit status of a copy.
      The directory is created below "/srv/software/.repotmp" and given mode
      02775; it receives a copy of `path` when `merge` is set and `path`
      exists, and the empty repository skeleton otherwise. */
  function Stage(fs: FileSystem, path: Path, merge: bool, name: string, cp: seq<string> -> int): (r: Staged)
    requires Component(name) && Absent(fs, REPOTMP + [name])
    ensures r.tmp == REPOTMP + [name]
    ensures !IsDir(fs, REPOTMP) ==> r == Staged(fs, [], r.tmp, Raised(ParentError(fs, r.tmp)))
    ensures IsDir(fs, REPOTMP) && path in fs && merge ==>
              r.actions == [Run(CopyArgv(path, r.tmp), None)]
              && (r.out.Ok? <==> cp(CopyArgv(path, r.tmp)) <= 0)
              && (r.out.Raised? ==> r.out.error == PromotionError(STAGING_FAILED))
    ensures IsDir(fs, REPOTMP) && !(path in fs && merge) ==> r.actions == [] && r.out.Ok?
  {
    var tmp := REPOTMP + [name];
    if !IsDir(fs, REPOTMP) then Staged(fs, [], tmp, Raised(ParentError(fs, tmp)))
    else
      var fs1 := fs[tmp := Dir(MKDTEMP_MODE)][tmp := Dir(STAGING_MODE)];
      if path in fs && merge then
        var argv := CopyArgv(path, tmp);
        if cp(argv) > 0 then Staged(fs1, [Run(argv, None)], tmp, Raised(PromotionError(STAGING_FAILED)))
        else Staged(CopyInto(fs1, path, tmp), [Run(argv, None)], tmp, Ok)
      else
        EmptyStaging(fs, tmp);
        Staged(Laid(fs1, tmp), [], tmp, Ok)
  }

  /** The filesystem once the template is laid out in an empty directory. */
  function Laid(fs: FileSystem, tmp: Path): (r: FileSystem)
    requires EmptyDir(fs, tmp)
    ensures Template(fs, tmp) == Success(r)
    ensures Tree(r, tmp) == SKELETON[[] := fs[tmp]]
    ensures forall q :: q in fs ==> q in r && r[q] == fs[q]
    ensures forall q :: q in r && !(tmp <= q) ==> q in fs
  {
    TemplateBuildsSkeleton(fs, tmp);
    Template(fs, tmp).value
  }

  /** A fresh directory, just made, holds nothing but itself. */
  lemma EmptyStaging(fs: FileSystem, tmp: Path)
    requires Absent(fs, tmp)
    ensures EmptyDir(fs[tmp := Dir(MKDTEMP_MODE)][tmp := Dir(STAGING_MODE)], tmp)
  {
  }

  /** Without a repository to merge, the staging directory is the empty
      skeleton with mode 02775, and nothing else in the filesystem changes
      or appears. */
  lemma StageSkeleton(fs: FileSystem, path: Path, merge: bool, name: string, cp: seq<string> -> int)
    requires Component(name) && Absent(fs, REPOTMP + [name])
    requires IsDir(fs, REPOTMP) && !(path in fs && merge)
    ensures var r := Stage(fs, path, merge, name, cp);
            Tree(r.fs, r.tmp) == SKELETON[[] := Dir(STAGING_MODE)]
            && (forall q :: q in fs ==> q in r.fs && r.fs[q] == fs[q])
            && (forall q :: q in r.fs && !(r.tmp <= q) ==> q in fs)
  {
    var tmp := REPOTMP + [name];
    var fs1 := fs[tmp := Dir(MKDTEMP_MODE)][tmp := Dir(STAGING_MODE)];
    EmptyStaging(fs, tmp);
    var r := Laid(fs1, tmp);
    assert Stage(fs, path, merge, name, cp).fs == r;
    assert fs1[tmp] == Dir(STAGING_MODE);
    forall q | q in fs ensures q in r && r[q] == fs[q] {
      assert q != tmp && q in fs1 && fs1[q] == fs[q];
    }
    forall q | q in r && !(tmp <= q) ensures q in fs {
      assert q in fs1 && q != tmp;
    }
  }

  /** A successful merge-copy gives the staging directory the tree of the
      repository, the repository directory's own mode replacing 02775 at its
      top, and changes nothing outside it. */
  lemma StageCopy(fs: FileSystem, path: Path, merge: bool, name: string, cp: seq<string> -> int)
    requires Component(name) && Absent(fs, REPOTMP + [name])
    requires IsDir(fs, REPOTMP) && path in fs && merge
    requires Disjoint(path, REPOTMP + [name])
    requires cp(CopyArgv(path, REPOTMP + [name])) <= 0
    ensures var r := Stage(fs, path, merge, name, cp);
            Tree(r.fs, r.tmp) == Tree(fs, path)
            && (forall q :: q in fs ==> q in r.fs && r.fs[q] == fs[q])
            && (forall q :: q in r.fs && !(r.tmp <= q) ==> q in fs)
  {
    var tmp := REPOTMP + [name];
    var fs1 := fs[tmp := Dir(MKDTEMP_MODE)][tmp := Dir(STAGING_MODE)];
    assert Stage(fs, path, merge, name, cp).fs == CopyInto(fs1, path, tmp);
    CopiedStaging(fs, path, tmp);
  }

  lemma CopiedStaging(fs: FileSystem, path: Path, tmp: Path)
    requires path in fs && Absent(fs, tmp) && Disjoint(path, tmp)
    ensures var r := CopyInto(fs[tmp := Dir(MKDTEMP_MODE)][tmp := Dir(STAGING_MODE)], path, tmp);
            Tree(r, tmp) == Tree(fs, path)
            && (forall q :: q in fs ==> q in r && r[q] == fs[q])
            && (forall q :: q in r && !(tmp <= q) ==> q in fs)
  {
    CopiedTree(fs, path, tmp);
    CopiedKeeps(fs, path, tmp);
  }

  lemma CopiedTree(fs: FileSystem, path: Path, tmp: Path)
    requires path in fs && Absent(fs, tmp) && Disjoint(path, tmp)
    ensures Tree(CopyInto(fs[tmp := Dir(MKDTEMP_MODE)][tmp := Dir(STAGING_MODE)], path, tmp), tmp)
            == Tree(fs, path)
  {
    var fs1 := fs[tmp := Dir(MKDTEMP_MODE)][tmp := Dir(STAGING_MODE)];
    EmptyStaging(fs, tmp);
    CopyIntoTree(fs1, path, tmp);
    UpdateOther(fs, tmp, path);
  }

  lemma CopiedKeeps(fs: FileSystem, path: Path, tmp: Path)
    requires Absent(fs, tmp)
    ensures var r := CopyInto(fs[tmp := Dir(MKDTEMP_MODE)][tmp := Dir(STAGING_MODE)], path, tmp);
            (forall q :: q in fs ==> q in r && r[q] == fs[q])
            && (forall q :: q in r && !(tmp <= q) ==> q in fs)
  {
    var fs1 := fs[tmp := Dir(MKDTEMP_MODE)][tmp := Dir(STAGING_MODE)];
    var r := CopyInto(fs1, path, tmp);
    forall q | q in fs ensures q in r && r[q] == fs[q] {
      assert !(tmp <= q);
      assert q in fs1 && fs1[q] == fs[q];
    }
    forall q | q in r && !(tmp <= q) ensures q in fs {
      assert q in fs1;
    }
  }

  /** Creating the staging directory leaves the trees disjoint from it alone. */
  lemma UpdateOther(fs: FileSystem, tmp: Path, c: Path)
    requires Disjoint(tmp, c)
    ensures Tree(fs[tmp := Dir(MKDTEMP_MODE)][tmp := Dir(STAGING_MODE)], c) == Tree(fs, c)
  {
    var fs1 := fs[tmp := Dir(MKDTEMP_MODE)][tmp := Dir(STAGING_MODE)];
    forall rel
      ensures rel in Tree(fs1, c) <==> rel in Tree(fs, c)
      ensures rel in Tree(fs, c) ==> Tree(fs1, c)[rel] == Tree(fs, c)[rel]
    {
      assert c <= c + rel;
      assert c + rel != tmp;
    }
  }

  /** `create_staging_repo`, with the template laid out by its two loops. */
  method CreateStagingRepo(fs: FileSystem, path: Path, merge: bool, name: string, cp: seq<string> -> int)
    returns (fs': FileSystem, actions: seq<Action>, tmp: Path, out: Outcome)
    requires Component(name) && Absent(fs, REPOTMP + [name])
    ensures Staged(fs', actions, tmp, out) == Stage(fs, path, merge, name, cp)
  {
    tmp := REPOTMP + [name];
    actions := [];
    if !IsDir(fs, REPOTMP) {
      return fs, actions, tmp, Raised(ParentError(fs, tmp));
    }
    fs' := fs[tmp := Dir(MKDTEMP_MODE)];
    fs' := fs'[tmp := Dir(STAGING_MODE)];
    if path in fs && merge {
      var argv := CopyArgv(path, tmp);
      actions := [Run(argv, None)];
      if cp(argv) > 0 {
        return fs', actions, tmp, Raised(PromotionError(STAGING_FAILED));
      }
      fs' := CopyInto(fs', path, tmp);
      out := Ok;
    } else {
      EmptyStaging(fs, tmp);
      ghost var laid := Laid(fs', tmp);
      fs', out := MakeTemplate(fs', tmp);
    }
  }
}
