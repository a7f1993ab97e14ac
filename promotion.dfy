/** Signing a repository and the phase of `merge_repos` that follows the
    copy (arado/aradoutil.py). `os.walk` is a parameter: the directories it
    visits below a repository, in its order, with the names of the files in
    each. Signing rewrites package contents, which the filesystem model does
    not hold, so it leaves the filesystem as it is. */
module Promotion {
  import opened Base
  import opened Strings
  import opened Fs
  import Signing
  import Rebuild
  import Merge

  /** The suffix the pattern "*.rpm" requires of a package's name. */
  const RPM_SUFFIX := ".rpm"

  /** One directory of a walk: where it is and the names of the files in it. */
  datatype Listing = Listing(root: Path, names: seq<string>)

  /** The packages `sign_repo` hands over for one directory: the names that
      match "*.rpm" and are not symbolic links, in listing order. */
  function Packages(fs: FileSystem, root: Path, names: seq<string>): (r: seq<string>)
    ensures |r| <= |names|
    ensures forall n :: n in r <==> n in names && EndsWith(n, RPM_SUFFIX) && !IsLink(fs, root + [n])
    decreases |names|
  {
    if names == [] then []
    else
      var init := Packages(fs, root, names[..|names| - 1]);
      var n := names[|names| - 1];
      assert names == names[..|names| - 1] + [n];
      if EndsWith(n, RPM_SUFFIX) && !IsLink(fs, root + [n]) then init + [n] else init
  }

  /** The outcomes `sign_repo` lets pass: success, or a SigningError, which
      is reported and the walk goes on. */
  predicate Tolerated(out: Outcome)
  {
    out.Ok? || out.error.SigningError?
  }

  /** `sign_packages` for one walked directory, with the directory as the path
      and no chroot. */
  function SignDir(fs: FileSystem, l: Listing, key: string, signer: string -> Signing.Signer): Signing.Attempt
  {
    Signing.SignAttempt(Packages(fs, l.root, l.names), key, Render(l.root), None, signer)
  }

  /** One pass of `sign_repo`'s loop: the directory's packages are signed,
      and a SigningError (among them the one for a directory without
      packages) is reported and counts as success. No chroot is used, so
      nothing is mounted, and the command line always formats, so what can
      fail is only the signer's conversation. */
  function SignOne(fs: FileSystem, l: Listing, key: string, signer: string -> Signing.Signer)
    : (r: Signing.Attempt)
    ensures r.actions == SignDir(fs, l, key, signer).actions
    ensures r.out.Ok? <==> Tolerated(SignDir(fs, l, key, signer).out)
    ensures r.out.Raised? ==> r.out.error in {ExpectEof, ExpectTimeout}
    ensures forall a :: a in r.actions ==> !a.System?
  {
    var a := SignDir(fs, l, key, signer);
    Signing.SignLineExpands(Packages(fs, l.root, l.names), key, Render(l.root), None);
    Signing.Attempt(a.actions, if Tolerated(a.out) then Ok else a.out)
  }

  /** `sign_repo(repo, key)` over the walk below `repo`: every directory in
      turn, until one fails with anything but a SigningError. */
  function SignWalk(fs: FileSystem, walk: seq<Listing>, key: string, signer: string -> Signing.Signer)
    : (r: Signing.Attempt)
    ensures r.out.Raised? ==> r.out.error in {ExpectEof, ExpectTimeout}
    ensures forall a :: a in r.actions ==> !a.System?
    decreases |walk|
  {
    if walk == [] then Signing.Attempt([], Ok)
    else
      var before := SignWalk(fs, walk[..|walk| - 1], key, signer);
      if before.out.Raised? then before
      else
        var one := SignOne(fs, walk[|walk| - 1], key, signer);
        Signing.Attempt(before.actions + one.actions, one.out)
  }

  /** `sign_repo` succeeds exactly when no directory's signing ends in
      anything but success or a SigningError. */
  lemma {:induction false} SignWalkOk(fs: FileSystem, walk: seq<Listing>, key: string, signer: string -> Signing.Signer)
    ensures SignWalk(fs, walk, key, signer).out.Ok?
            <==> forall i :: 0 <= i < |walk| ==> Tolerated(SignDir(fs, walk[i], key, signer).out)
    decreases |walk|
  {
    if walk != [] {
      var init := walk[..|walk| - 1];
      SignWalkOk(fs, init, key, signer);
      SignWalkLast(fs, walk, key, signer);
      AllSnoc(walk, init, l => Tolerated(SignDir(fs, l, key, signer).out));
    }
  }

  lemma SignWalkLast(fs: FileSystem, walk: seq<Listing>, key: string, signer: string -> Signing.Signer)
    requires walk != []
    ensures SignWalk(fs, walk, key, signer).out.Ok?
            <==> SignWalk(fs, walk[..|walk| - 1], key, signer).out.Ok?
                 && Tolerated(SignDir(fs, walk[|walk| - 1], key, signer).out)
    ensures SignWalk(fs, walk, key, signer).out.Ok? ==>
              SignWalk(fs, walk, key, signer).actions
              == SignWalk(fs, walk[..|walk| - 1], key, signer).actions + SignDir(fs, walk[|walk| - 1], key, signer).actions
  {
  }

  /** A property holds of every directory of a walk exactly when it holds
      of every directory before the last and of the last. */
  lemma AllSnoc(walk: seq<Listing>, init: seq<Listing>, P: Listing -> bool)
    requires walk != [] && init == walk[..|walk| - 1]
    ensures (forall i :: 0 <= i < |walk| ==> P(walk[i]))
            <==> (forall i :: 0 <= i < |init| ==> P(init[i])) && P(walk[|walk| - 1])
  {
    assert forall i :: 0 <= i < |init| ==> init[i] == walk[i];
  }

  /** A directory without packages leaves signing exactly as it was. */
  lemma SignWalkSkips(fs: FileSystem, walk: seq<Listing>, l: Listing, key: string, signer: string -> Signing.Signer)
    requires Packages(fs, l.root, l.names) == []
    ensures SignWalk(fs, walk + [l], key, signer) == SignWalk(fs, walk, key, signer)
  {
    assert (walk + [l])[..|walk|] == walk;
    var before := SignWalk(fs, walk, key, signer);
    assert before.actions + [] == before.actions;
  }

  /** What signing did for a prefix of the walk comes first in what it does
      for the whole walk. */
  lemma {:induction false} SignWalkPrefix(fs: FileSystem, walk: seq<Listing>, k: nat, key: string,
                                          signer: string -> Signing.Signer)
    requires k <= |walk|
    ensures var p := SignWalk(fs, walk[..k], key, signer);
            var r := SignWalk(fs, walk, key, signer);
            p.actions <= r.actions && (r.out.Ok? ==> p.out.Ok?)
    decreases |walk| - k
  {
    if k < |walk| {
      SignWalkPrefix(fs, walk, k + 1, key, signer);
      assert walk[..k + 1][..k] == walk[..k];
      SignWalkSnoc(fs, walk[..k + 1], key, signer);
    } else {
      assert walk[..k] == walk;
    }
  }

  /** One more directory only appends to what signing did, and signing
      succeeds only if it succeeded without that directory. */
  lemma SignWalkSnoc(fs: FileSystem, walk: seq<Listing>, key: string, signer: string -> Signing.Signer)
    requires walk != []
    ensures var p := SignWalk(fs, walk[..|walk| - 1], key, signer);
            var r := SignWalk(fs, walk, key, signer);
            p.actions <= r.actions && (r.out.Ok? ==> p.out.Ok?)
  {
  }

  /** When `sign_repo` succeeds, the signer was spawned in every directory
      that holds packages, with the signing command for the key and the
      package paths in that directory. */
  lemma SignWalkSigns(fs: FileSystem, walk: seq<Listing>, key: string, signer: string -> Signing.Signer)
    ensures var r := SignWalk(fs, walk, key, signer);
            r.out.Ok? ==>
              forall i :: 0 <= i < |walk| && Packages(fs, walk[i].root, walk[i].names) != [] ==>
                Spawn(Signing.SignCommand(key, Signing.PackageList(Render(walk[i].root),
                                                                   Packages(fs, walk[i].root, walk[i].names))),
                      Signing.SIGN_TIMEOUT) in r.actions
  {
    var r := SignWalk(fs, walk, key, signer);
    if r.out.Ok? {
      forall i | 0 <= i < |walk| && Packages(fs, walk[i].root, walk[i].names) != []
        ensures Spawn(Signing.SignCommand(key, Signing.PackageList(Render(walk[i].root),
                                                                   Packages(fs, walk[i].root, walk[i].names))),
                      Signing.SIGN_TIMEOUT) in r.actions
      {
        SignsAt(fs, walk, i, key, signer);
      }
    }
  }

  lemma SignsAt(fs: FileSystem, walk: seq<Listing>, i: nat, key: string, signer: string -> Signing.Signer)
    requires i < |walk| && SignWalk(fs, walk, key, signer).out.Ok?
    requires Packages(fs, walk[i].root, walk[i].names) != []
    ensures Spawn(Signing.SignCommand(key, Signing.PackageList(Render(walk[i].root),
                                                               Packages(fs, walk[i].root, walk[i].names))),
                  Signing.SIGN_TIMEOUT) in SignWalk(fs, walk, key, signer).actions
  {
    var w := walk[..i + 1];
    assert w[i] == walk[i];
    var spawn := Spawn(Signing.SignCommand(key, Signing.PackageList(Render(walk[i].root),
                                                                    Packages(fs, walk[i].root, walk[i].names))),
                       Signing.SIGN_TIMEOUT);
    SignWalkPrefix(fs, walk, i + 1, key, signer);
    SignWalkLast(fs, w, key, signer);
    SignDirSpawns(fs, walk[i], key, signer);
    var p := SignWalk(fs, w, key, signer).actions;
    InSuffix(spawn, SignWalk(fs, w[..i], key, signer).actions, SignDir(fs, walk[i], key, signer).actions);
    InPrefix(spawn, p, SignWalk(fs, walk, key, signer).actions);
  }

  lemma InSuffix<T>(x: T, a: seq<T>, b: seq<T>)
    requires x in b
    ensures x in a + b
  {
    var k :| 0 <= k < |b| && b[k] == x;
    assert (a + b)[|a| + k] == x;
  }

  lemma InPrefix<T>(x: T, p: seq<T>, r: seq<T>)
    requires x in p && p <= r
    ensures x in r
  {
    var k :| 0 <= k < |p| && p[k] == x;
    assert r[k] == x;
  }

  /** Signing a directory with packages spawns the signing command for them. */
  lemma SignDirSpawns(fs: FileSystem, l: Listing, key: string, signer: string -> Signing.Signer)
    requires Packages(fs, l.root, l.names) != []
    ensures Spawn(Signing.SignCommand(key, Signing.PackageList(Render(l.root), Packages(fs, l.root, l.names))),
                  Signing.SIGN_TIMEOUT) in SignDir(fs, l, key, signer).actions
  {
    var pkgs := Packages(fs, l.root, l.names);
    var dir := Render(l.root);
    Signing.SignLineExpands(pkgs, key, dir, None);
    var cmd := Signing.SignCommand(key, Signing.PackageList(dir, pkgs));
    assert Signing.PackageDir(dir, None) == dir;
    assert Signing.ChrootPrefix(None) + cmd == cmd;
    assert Signing.SignLine(pkgs, key, dir, None) == Some(cmd);
  }

  /** The inner loop of `sign_repo`: the package list of one directory. */
  method PackageLoop(fs: FileSystem, root: Path, names: seq<string>) returns (pkglist: seq<string>)
    ensures pkglist == Packages(fs, root, names)
  {
    pkglist := [];
    for i := 0 to |names|
      invariant pkglist == Packages(fs, root, names[..i])
    {
      assert names[..i + 1][..i] == names[..i];
      var pkg := names[i];
      if EndsWith(pkg, RPM_SUFFIX) && !IsLink(fs, root + [pkg]) {
        pkglist := pkglist + [pkg];
      }
    }
    assert names[..|names|] == names;
  }

  /** `sign_repo(repo, key)`, directory by directory. */
  method SignRepo(fs: FileSystem, walk: seq<Listing>, key: string, signer: string -> Signing.Signer)
    returns (actions: seq<Action>, out: Outcome)
    ensures Signing.Attempt(actions, out) == SignWalk(fs, walk, key, signer)
  {
    actions, out := [], Ok;
    for i := 0 to |walk|
      invariant Signing.Attempt(actions, out) == SignWalk(fs, walk[..i], key, signer)
      invariant out == Ok
    {
      assert walk[..i + 1][..i] == walk[..i];
      var signed;
      signed, out := SignDirectory(fs, walk[i], key, signer);
      actions := actions + signed;
      if out.Raised? {
        SignWalkStops(fs, walk, i + 1, key, signer);
        return;
      }
    }
    assert walk[..|walk|] == walk;
  }

  /** The body of `sign_repo`'s loop, with its `try`: the package list of
      the directory is built, signed, and a SigningError is caught. */
  method SignDirectory(fs: FileSystem, l: Listing, key: string, signer: string -> Signing.Signer)
    returns (actions: seq<Action>, out: Outcome)
    ensures Signing.Attempt(actions, out) == SignOne(fs, l, key, signer)
  {
    var pkglist := PackageLoop(fs, l.root, l.names);
    actions, out := Signing.SignPackages(pkglist, key, Render(l.root), None, signer);
    if Tolerated(out) {
      out := Ok;
    }
  }

  /** Once signing has failed, the rest of the walk changes nothing. */
  lemma {:induction false} SignWalkStops(fs: FileSystem, walk: seq<Listing>, k: nat, key: string,
                                         signer: string -> Signing.Signer)
    requires k <= |walk|
    ensures SignWalk(fs, walk[..k], key, signer).out.Raised? ==>
      SignWalk(fs, walk, key, signer) == SignWalk(fs, walk[..k], key, signer)
    decreases |walk| - k
  {
    if k < |walk| {
      SignWalkStops(fs, walk, k + 1, key, signer);
      assert walk[..k + 1][..k] == walk[..k];
    } else {
      assert walk[..k] == walk;
    }
  }

  /** The signing step for one recorded directory: `sign_repo` on it when a
      key is given, nothing otherwise. */
  function SignStep(fs: FileSystem, d: Path, key: Option<string>,
                    walkOf: Path -> seq<Listing>, signer: string -> Signing.Signer): (r: Signing.Attempt)
    ensures !Truthy(key) ==> r == Signing.Attempt([], Ok)
    ensures Truthy(key) ==> r == SignWalk(fs, walkOf(d), key.value, signer)
    ensures r.out.Raised? ==> r.out.error in {ExpectEof, ExpectTimeout}
    ensures forall a :: a in r.actions ==> !a.System?
  {
    if Truthy(key) then SignWalk(fs, walkOf(d), key.value, signer) else Signing.Attempt([], Ok)
  }

  /** The rebuilding step for one recorded directory: createrepo cannot
      start in a directory that is missing, which raises an OSError;
      otherwise its metadata is regenerated without a chroot, and nothing
      outside its "repodata" directory changes. */
  function RebuildStep(fs: FileSystem, d: Path, glob: string -> seq<string>,
                       createrepo: Action -> Rebuild.CreaterepoOutput): (r: Rebuild.Rebuilt)
    ensures !IsDir(fs, d) ==> r.fs == fs
    ensures IsDir(fs, d) ==>
      Tree(r.fs, d + [Rebuild.REPODATA]) == createrepo(Rebuild.CreaterepoRun(d, None, glob)).repodata
    ensures forall q :: q in fs && !(d + [Rebuild.REPODATA] <= q) ==> q in r.fs && r.fs[q] == fs[q]
    ensures forall q :: q in r.fs ==> q in fs || d + [Rebuild.REPODATA] <= q
    ensures r.actions == if IsDir(fs, d) then [Rebuild.CreaterepoRun(d, None, glob)] else []
    ensures r.out.Raised? ==>
      r.out.error == if IsDir(fs, d) then PromotionError(Rebuild.REBUILD_FAILED) else OSError(NO_SUCH_DIRECTORY)
    ensures !IsDir(fs, d) ==> r.out.Raised?
  {
    if !IsDir(fs, d) then Rebuild.Rebuilt(fs, [], Raised(OSError(NO_SUCH_DIRECTORY)))
    else Rebuild.Rebuild(fs, d, None, glob, createrepo)
  }

  /** One pass of the loop of `merge_repos` after the copy, for the recorded
      directory `d`: with a key, the packages below it are signed (`walkOf`
      gives the walk below a directory); then it is rebuilt. */
  function RepoStep(fs: FileSystem, d: Path, key: Option<string>,
                    walkOf: Path -> seq<Listing>, signer: string -> Signing.Signer,
                    glob: string -> seq<string>, createrepo: Action -> Rebuild.CreaterepoOutput): (r: Rebuild.Rebuilt)
    ensures forall q :: q in fs && !(d + [Rebuild.REPODATA] <= q) ==> q in r.fs && r.fs[q] == fs[q]
    ensures forall q :: q in r.fs ==> q in fs || d + [Rebuild.REPODATA] <= q
    ensures r.out.Ok? ==>
      Tree(r.fs, d + [Rebuild.REPODATA]) == createrepo(Rebuild.CreaterepoRun(d, None, glob)).repodata
    ensures !Truthy(key) ==> forall a :: a in r.actions ==> !a.Spawn?
    ensures forall a :: a in r.actions ==> !a.System?
    ensures r.out.Raised? ==>
      r.out.error in {ExpectEof, ExpectTimeout, PromotionError(Rebuild.REBUILD_FAILED), OSError(NO_SUCH_DIRECTORY)}
    ensures r.out.Ok? ==> r.actions == SignStep(fs, d, key, walkOf, signer).actions + [Rebuild.CreaterepoRun(d, None, glob)]
  {
    var signed := SignStep(fs, d, key, walkOf, signer);
    if signed.out.Raised? then Rebuild.Rebuilt(fs, signed.actions, signed.out)
    else
      var step := RebuildStep(fs, d, glob, createrepo);
      Rebuild.Rebuilt(step.fs, signed.actions + step.actions, step.out)
  }

  /** The phase of `merge_repos` after the copy: RepoStep in every recorded
      repository directory in order, until the first error. */
  function PostMerge(fs: FileSystem, repoDirs: seq<Path>, key: Option<string>,
                     walkOf: Path -> seq<Listing>, signer: string -> Signing.Signer,
                     glob: string -> seq<string>, createrepo: Action -> Rebuild.CreaterepoOutput): (r: Rebuild.Rebuilt)
    ensures !Truthy(key) ==> forall a :: a in r.actions ==> !a.Spawn?
    ensures forall a :: a in r.actions ==> !a.System?
    ensures r.out.Raised? ==>
      r.out.error in {ExpectEof, ExpectTimeout, PromotionError(Rebuild.REBUILD_FAILED), OSError(NO_SUCH_DIRECTORY)}
    decreases |repoDirs|
  {
    if repoDirs == [] then Rebuild.Rebuilt(fs, [], Ok)
    else
      var before := PostMerge(fs, repoDirs[..|repoDirs| - 1], key, walkOf, signer, glob, createrepo);
      if before.out.Raised? then before
      else
        var step := RepoStep(before.fs, repoDirs[|repoDirs| - 1], key, walkOf, signer, glob, createrepo);
        Rebuild.Rebuilt(step.fs, before.actions + step.actions, step.out)
  }

  /** What the phase did for a prefix of the directories comes first in what
      it does for all of them. */
  lemma {:induction false} PostMergePrefix(fs: FileSystem, repoDirs: seq<Path>, k: nat, key: Option<string>,
                                           walkOf: Path -> seq<Listing>, signer: string -> Signing.Signer,
                                           glob: string -> seq<string>, createrepo: Action -> Rebuild.CreaterepoOutput)
    requires k <= |repoDirs|
    ensures var p := PostMerge(fs, repoDirs[..k], key, walkOf, signer, glob, createrepo);
            var r := PostMerge(fs, repoDirs, key, walkOf, signer, glob, createrepo);
            p.actions <= r.actions && (r.out.Ok? ==> p.out.Ok?)
    decreases |repoDirs| - k
  {
    if k < |repoDirs| {
      PostMergePrefix(fs, repoDirs, k + 1, key, walkOf, signer, glob, createrepo);
      assert repoDirs[..k + 1][..k] == repoDirs[..k];
      PostMergeSnoc(fs, repoDirs[..k + 1], key, walkOf, signer, glob, createrepo);
    } else {
      assert repoDirs[..k] == repoDirs;
    }
  }

  /** One more directory only appends to what the phase did, and the phase
      succeeds only if it succeeded without that directory. */
  lemma PostMergeSnoc(fs: FileSystem, repoDirs: seq<Path>, key: Option<string>,
                      walkOf: Path -> seq<Listing>, signer: string -> Signing.Signer,
                      glob: string -> seq<string>, createrepo: Action -> Rebuild.CreaterepoOutput)
    requires repoDirs != []
    ensures var p := PostMerge(fs, repoDirs[..|repoDirs| - 1], key, walkOf, signer, glob, createrepo);
            var r := PostMerge(fs, repoDirs, key, walkOf, signer, glob, createrepo);
            p.actions <= r.actions && (r.out.Ok? ==> p.out.Ok?)
  {
  }

  /** When the phase succeeds, createrepo was run in every recorded
      directory, without a chroot. */
  lemma PostMergeRuns(fs: FileSystem, repoDirs: seq<Path>, key: Option<string>,
                      walkOf: Path -> seq<Listing>, signer: string -> Signing.Signer,
                      glob: string -> seq<string>, createrepo: Action -> Rebuild.CreaterepoOutput)
    ensures var r := PostMerge(fs, repoDirs, key, walkOf, signer, glob, createrepo);
            r.out.Ok? ==> forall d :: d in repoDirs ==> Rebuild.CreaterepoRun(d, None, glob) in r.actions
  {
    var r := PostMerge(fs, repoDirs, key, walkOf, signer, glob, createrepo);
    if r.out.Ok? {
      forall d | d in repoDirs ensures Rebuild.CreaterepoRun(d, None, glob) in r.actions {
        var i :| 0 <= i < |repoDirs| && repoDirs[i] == d;
        RunsAt(fs, repoDirs, i, key, walkOf, signer, glob, createrepo);
      }
    }
  }

  lemma RunsAt(fs: FileSystem, repoDirs: seq<Path>, i: nat, key: Option<string>,
               walkOf: Path -> seq<Listing>, signer: string -> Signing.Signer,
               glob: string -> seq<string>, createrepo: Action -> Rebuild.CreaterepoOutput)
    requires i < |repoDirs|
    requires PostMerge(fs, repoDirs, key, walkOf, signer, glob, createrepo).out.Ok?
    ensures Rebuild.CreaterepoRun(repoDirs[i], None, glob)
            in PostMerge(fs, repoDirs, key, walkOf, signer, glob, createrepo).actions
  {
    var w := repoDirs[..i + 1];
    assert w[i] == repoDirs[i];
    PostMergePrefix(fs, repoDirs, i + 1, key, walkOf, signer, glob, createrepo);
    PostMergeLast(fs, w, key, walkOf, signer, glob, createrepo);
  }

  /** The last directory of a successful phase ends its actions with a run
      of createrepo there. */
  lemma PostMergeLast(fs: FileSystem, repoDirs: seq<Path>, key: Option<string>,
                      walkOf: Path -> seq<Listing>, signer: string -> Signing.Signer,
                      glob: string -> seq<string>, createrepo: Action -> Rebuild.CreaterepoOutput)
    requires repoDirs != []
    requires PostMerge(fs, repoDirs, key, walkOf, signer, glob, createrepo).out.Ok?
    ensures var actions := PostMerge(fs, repoDirs, key, walkOf, signer, glob, createrepo).actions;
            actions != [] && actions[|actions| - 1] == Rebuild.CreaterepoRun(repoDirs[|repoDirs| - 1], None, glob)
  {
    PostMergeUnfold(fs, repoDirs, key, walkOf, signer, glob, createrepo);
  }

  /** A successful phase over one more directory is the phase over the
      others followed by that directory's pass. */
  lemma PostMergeUnfold(fs: FileSystem, repoDirs: seq<Path>, key: Option<string>,
                        walkOf: Path -> seq<Listing>, signer: string -> Signing.Signer,
                        glob: string -> seq<string>, createrepo: Action -> Rebuild.CreaterepoOutput)
    requires repoDirs != []
    requires PostMerge(fs, repoDirs, key, walkOf, signer, glob, createrepo).out.Ok?
    ensures var before := PostMerge(fs, repoDirs[..|repoDirs| - 1], key, walkOf, signer, glob, createrepo);
            var d := repoDirs[|repoDirs| - 1];
            before.out.Ok?
            && PostMerge(fs, repoDirs, key, walkOf, signer, glob, createrepo).actions
               == before.actions + (SignStep(before.fs, d, key, walkOf, signer).actions
                                    + [Rebuild.CreaterepoRun(d, None, glob)])
  {
    var before := PostMerge(fs, repoDirs[..|repoDirs| - 1], key, walkOf, signer, glob, createrepo);
    var d := repoDirs[|repoDirs| - 1];
    var step := RepoStep(before.fs, d, key, walkOf, signer, glob, createrepo);
    assert PostMerge(fs, repoDirs, key, walkOf, signer, glob, createrepo)
        == Rebuild.Rebuilt(step.fs, before.actions + step.actions, step.out);
    assert step.out.Ok?;
  }

  /** What the phase does directory by directory when nothing fails: for
      each recorded directory in order, the signing of the packages below it
      (as the filesystem left by the directories before it shows them),
      followed by a run of createrepo there. */
  function SignThenRebuild(fs: FileSystem, repoDirs: seq<Path>, key: Option<string>,
                           walkOf: Path -> seq<Listing>, signer: string -> Signing.Signer,
                           glob: string -> seq<string>, createrepo: Action -> Rebuild.CreaterepoOutput)
    : seq<Action>
    decreases |repoDirs|
  {
    if repoDirs == [] then []
    else
      var init, d := repoDirs[..|repoDirs| - 1], repoDirs[|repoDirs| - 1];
      var before := PostMerge(fs, init, key, walkOf, signer, glob, createrepo);
      SignThenRebuild(fs, init, key, walkOf, signer, glob, createrepo)
        + (SignStep(before.fs, d, key, walkOf, signer).actions + [Rebuild.CreaterepoRun(d, None, glob)])
  }

  /** A successful phase signed and then rebuilt each recorded directory, one
      directory after the other, in the order they were recorded. */
  lemma {:induction false} PostMergeOrder(fs: FileSystem, repoDirs: seq<Path>, key: Option<string>,
                                          walkOf: Path -> seq<Listing>, signer: string -> Signing.Signer,
                                          glob: string -> seq<string>, createrepo: Action -> Rebuild.CreaterepoOutput)
    ensures var r := PostMerge(fs, repoDirs, key, walkOf, signer, glob, createrepo);
            r.out.Ok? ==> r.actions == SignThenRebuild(fs, repoDirs, key, walkOf, signer, glob, createrepo)
    decreases |repoDirs|
  {
    var r := PostMerge(fs, repoDirs, key, walkOf, signer, glob, createrepo);
    if repoDirs != [] && r.out.Ok? {
      var init := repoDirs[..|repoDirs| - 1];
      PostMergeOrder(fs, init, key, walkOf, signer, glob, createrepo);
      PostMergeUnfold(fs, repoDirs, key, walkOf, signer, glob, createrepo);
    }
  }

  /** The phase changes nothing outside the "repodata" directories of the
      recorded directories, and adds nothing outside them. */
  lemma {:induction false} PostMergeKeeps(fs: FileSystem, repoDirs: seq<Path>, key: Option<string>,
                                          walkOf: Path -> seq<Listing>, signer: string -> Signing.Signer,
                                          glob: string -> seq<string>, createrepo: Action -> Rebuild.CreaterepoOutput)
    ensures var r := PostMerge(fs, repoDirs, key, walkOf, signer, glob, createrepo);
            forall q :: q in fs && Rebuild.OutsideRepodata(repoDirs, q) ==> q in r.fs && r.fs[q] == fs[q]
    ensures var r := PostMerge(fs, repoDirs, key, walkOf, signer, glob, createrepo);
            forall q :: q in r.fs && Rebuild.OutsideRepodata(repoDirs, q) ==> q in fs
    decreases |repoDirs|
  {
    if repoDirs != [] {
      var init := repoDirs[..|repoDirs| - 1];
      PostMergeKeeps(fs, init, key, walkOf, signer, glob, createrepo);
      forall q | Rebuild.OutsideRepodata(repoDirs, q)
        ensures Rebuild.OutsideRepodata(init, q) && !(repoDirs[|repoDirs| - 1] + [Rebuild.REPODATA] <= q)
      {
        forall i | 0 <= i < |init| ensures !(init[i] + [Rebuild.REPODATA] <= q) {
          assert init[i] == repoDirs[i];
        }
      }
    }
  }

  /** `merge_repos(source, dest, key)`: the copy phase, then, if it
      succeeded, signing and rebuilding in the directories it recorded. A
      run that completes has rebuilt the metadata of the parent of every
      `repodata` directory of the source, re-rooted under the destination. */
  function Promoted(fs: FileSystem, source: Path, dest: Path, key: Option<string>,
                      walk: seq<Merge.WalkEntry>, walkOf: Path -> seq<Listing>,
                      signer: string -> Signing.Signer,
                      glob: string -> seq<string>, createrepo: Action -> Rebuild.CreaterepoOutput): (r: Rebuild.Rebuilt)
    requires Merge.Rooted(source, walk)
    ensures Merge.MergeWalk(fs, source, dest, walk).out.Raised? ==>
      r == Rebuild.Rebuilt(Merge.MergeWalk(fs, source, dest, walk).fs, [], Merge.MergeWalk(fs, source, dest, walk).out)
    ensures r.out.Ok? ==>
      forall d :: d in Merge.RepodataParents(source, dest, walk) ==> Rebuild.CreaterepoRun(d, None, glob) in r.actions
  {
    var m := Merge.MergeWalk(fs, source, dest, walk);
    if m.out.Raised? then Rebuild.Rebuilt(m.fs, [], m.out)
    else
      PostMergeRuns(m.fs, m.repoDirs, key, walkOf, signer, glob, createrepo);
      PostMerge(m.fs, m.repoDirs, key, walkOf, signer, glob, createrepo)
  }

  /** `merge_repos`: the copy phase, then the loop over the recorded
      directories. */
  method MergeRepos(fs: FileSystem, source: Path, dest: Path, key: Option<string>,
                    walk: seq<Merge.WalkEntry>, walkOf: Path -> seq<Listing>,
                    signer: string -> Signing.Signer,
                    glob: string -> seq<string>, createrepo: Action -> Rebuild.CreaterepoOutput)
    returns (fs': FileSystem, actions: seq<Action>, out: Outcome)
    requires Merge.Rooted(source, walk)
    ensures Rebuild.Rebuilt(fs', actions, out) == Promoted(fs, source, dest, key, walk, walkOf, signer, glob, createrepo)
  {
    var repoDirs;
    fs', repoDirs, out := Merge.MergeCopy(fs, source, dest, walk);
    actions := [];
    if out.Raised? {
      return;
    }
    fs', actions, out := PostMergeLoop(fs', repoDirs, key, walkOf, signer, glob, createrepo);
  }

  /** The loop of `merge_repos` over the directories the copy recorded. */
  method PostMergeLoop(fs: FileSystem, repoDirs: seq<Path>, key: Option<string>,
                       walkOf: Path -> seq<Listing>, signer: string -> Signing.Signer,
                       glob: string -> seq<string>, createrepo: Action -> Rebuild.CreaterepoOutput)
    returns (fs': FileSystem, actions: seq<Action>, out: Outcome)
    ensures Rebuild.Rebuilt(fs', actions, out) == PostMerge(fs, repoDirs, key, walkOf, signer, glob, createrepo)
  {
    fs', actions, out := fs, [], Ok;
    for i := 0 to |repoDirs|
      invariant Rebuild.Rebuilt(fs', actions, out) == PostMerge(fs, repoDirs[..i], key, walkOf, signer, glob, createrepo)
      invariant out == Ok
    {
      PostMergeNext(fs, repoDirs, i, key, walkOf, signer, glob, createrepo);
      var done;
      fs', done, out := ProcessRepo(fs', repoDirs[i], key, walkOf, signer, glob, createrepo);
      actions := actions + done;
      if out.Raised? {
        PostMergeStops(fs, repoDirs, i + 1, key, walkOf, signer, glob, createrepo);
        return;
      }
    }
    assert repoDirs[..|repoDirs|] == repoDirs;
  }

  /** One more directory, after a prefix that went well: its step runs on
      the prefix's filesystem and its actions follow the prefix's. */
  lemma PostMergeNext(fs: FileSystem, repoDirs: seq<Path>, i: nat, key: Option<string>,
                      walkOf: Path -> seq<Listing>, signer: string -> Signing.Signer,
                      glob: string -> seq<string>, createrepo: Action -> Rebuild.CreaterepoOutput)
    requires i < |repoDirs|
    requires PostMerge(fs, repoDirs[..i], key, walkOf, signer, glob, createrepo).out.Ok?
    ensures var before := PostMerge(fs, repoDirs[..i], key, walkOf, signer, glob, createrepo);
            var step := RepoStep(before.fs, repoDirs[i], key, walkOf, signer, glob, createrepo);
            PostMerge(fs, repoDirs[..i + 1], key, walkOf, signer, glob, createrepo)
              == Rebuild.Rebuilt(step.fs, before.actions + step.actions, step.out)
  {
    assert repoDirs[..i + 1][..i] == repoDirs[..i];
  }

  /** Once the phase has failed, the remaining directories change nothing. */
  lemma {:induction false} PostMergeStops(fs: FileSystem, repoDirs: seq<Path>, k: nat, key: Option<string>,
                                          walkOf: Path -> seq<Listing>, signer: string -> Signing.Signer,
                                          glob: string -> seq<string>, createrepo: Action -> Rebuild.CreaterepoOutput)
    requires k <= |repoDirs|
    ensures PostMerge(fs, repoDirs[..k], key, walkOf, signer, glob, createrepo).out.Raised? ==>
      PostMerge(fs, repoDirs, key, walkOf, signer, glob, createrepo)
        == PostMerge(fs, repoDirs[..k], key, walkOf, signer, glob, createrepo)
    decreases |repoDirs| - k
  {
    var p := PostMerge(fs, repoDirs[..k], key, walkOf, signer, glob, createrepo);
    if k < |repoDirs| && p.out.Raised? {
      assert repoDirs[..k + 1][..k] == repoDirs[..k];
      assert PostMerge(fs, repoDirs[..k + 1], key, walkOf, signer, glob, createrepo) == p;
      PostMergeStops(fs, repoDirs, k + 1, key, walkOf, signer, glob, createrepo);
    } else if k == |repoDirs| {
      assert repoDirs[..k] == repoDirs;
    }
  }

  /** The body of the loop of `merge_repos` over the recorded directories. */
  method ProcessRepo(fs: FileSystem, d: Path, key: Option<string>,
                     walkOf: Path -> seq<Listing>, signer: string -> Signing.Signer,
                     glob: string -> seq<string>, createrepo: Action -> Rebuild.CreaterepoOutput)
    returns (fs': FileSystem, actions: seq<Action>, out: Outcome)
    ensures Rebuild.Rebuilt(fs', actions, out) == RepoStep(fs, d, key, walkOf, signer, glob, createrepo)
  {
    fs', actions, out := fs, [], Ok;
    if Truthy(key) {
      actions, out := SignRepo(fs, walkOf(d), key.value, signer);
      if out.Raised? {
        return;
      }
    }
    var rebuilt: seq<Action> := [];
    if IsDir(fs, d) {
      fs', rebuilt, out := Rebuild.RebuildRepo(fs, d, None, glob, createrepo);
    } else {
      out := Raised(OSError(NO_SUCH_DIRECTORY));
    }
    actions := actions + rebuilt;
  }
}
