/** The copy phase of `merge_repos` (arado/aradoutil.py): walk the source
    repository and copy into the destination every file the destination does
    not have yet, creating missing directories, while collecting the
    directories whose `repodata` must be rebuilt. The walk is a parameter: the
    directories `os.walk(source)` visits, in its order, with the files in each
    and their contents. */
module Merge {
  import opened Base
  import opened Strings
  import opened Fs

  datatype SourceFile = SourceFile(name: string, content: string)

  /** One directory of the walk and the files in it. */
  datatype WalkEntry = WalkEntry(root: Path, files: seq<SourceFile>)

  /** The filesystem after some steps, and how they ended. */
  datatype Step = Step(fs: FileSystem, out: Outcome)

  /** The state of the copy phase: the filesystem, the directories recorded
      for a rebuild so far, and how it ended. */
  datatype Merged = Merged(fs: FileSystem, repoDirs: seq<Path>, out: Outcome)

  /** Every directory the walk visits lies in `source`. */
  predicate Rooted(source: Path, walk: seq<WalkEntry>)
  {
    forall i :: 0 <= i < |walk| ==> source <= walk[i].root
  }

  /** A walked directory moved from under `source` to under `dest`. */
  function DestRoot(source: Path, dest: Path, root: Path): (d: Path)
    requires source <= root
    ensures dest <= d && d[|dest|..] == root[|source|..]
  {
    dest + root[|source|..]
  }

  /** The directory path ends in "/repodata". */
  predicate IsRepodata(p: Path)
  {
    p != [] && p[|p| - 1] == "repodata"
  }

  /** Every existing entry keeps its place and what it holds. */
  ghost predicate Grows(before: FileSystem, after: FileSystem)
  {
    forall p :: p in before ==> p in after && after[p] == before[p]
  }

  /** Where the files of one directory go. */
  function FilePaths(dir: Path, files: seq<SourceFile>): set<Path>
  {
    set f | f in files :: dir + [f.name]
  }

  /** What a walked directory may create in the destination: nothing for a
      `repodata` directory, otherwise the directory and its files. */
  function EntryPaths(d: Path, files: seq<SourceFile>): set<Path>
  {
    if IsRepodata(d) then {} else {d} + FilePaths(d, files)
  }

  /** What the whole walk may create in the destination. */
  function WalkPaths(source: Path, dest: Path, walk: seq<WalkEntry>): set<Path>
    requires Rooted(source, walk)
  {
    if walk == [] then {}
    else
      var e := walk[|walk| - 1];
      WalkPaths(source, dest, walk[..|walk| - 1]) + EntryPaths(DestRoot(source, dest, e.root), e.files)
  }

  /** The directories recorded for a rebuild: the parent of every re-rooted
      `repodata` directory, in walk order. */
  function RepodataParents(source: Path, dest: Path, walk: seq<WalkEntry>): seq<Path>
    requires Rooted(source, walk)
  {
    if walk == [] then []
    else
      var d := DestRoot(source, dest, walk[|walk| - 1].root);
      RepodataParents(source, dest, walk[..|walk| - 1]) + (if IsRepodata(d) then [Parent(d)] else [])
  }

  /** One file: a destination that exists (a symbolic link included) is
      skipped, anything else is copied into the directory. */
  function CopyOne(fs: FileSystem, dir: Path, f: SourceFile): (r: Step)
    ensures Grows(fs, r.fs)
    ensures r.fs.Keys <= fs.Keys + {dir + [f.name]}
    ensures r.out.Ok? ==> dir + [f.name] in r.fs
    ensures dir + [f.name] !in fs && r.out.Ok? ==> r.fs[dir + [f.name]] == File(f.content)
    ensures r.out.Raised? ==> r.out.error.OSError?
  {
    var target := dir + [f.name];
    if target in fs then Step(fs, Ok)
    else if IsDir(fs, dir) then Step(fs[target := File(f.content)], Ok)
    else Step(fs, Raised(OSError(NOT_A_DIRECTORY)))
  }

  /** The files of one directory, in order, stopping at the first failure. */
  function CopyFiles(fs: FileSystem, dir: Path, files: seq<SourceFile>): (r: Step)
    ensures Grows(fs, r.fs)
    ensures r.fs.Keys <= fs.Keys + FilePaths(dir, files)
    ensures r.out.Ok? ==> FilePaths(dir, files) <= r.fs.Keys
    ensures r.out.Raised? ==> r.out.error.OSError?
    decreases |files|
  {
    if files == [] then Step(fs, Ok)
    else
      var init := files[..|files| - 1];
      assert FilePaths(dir, files) == FilePaths(dir, init) + {dir + [files[|files| - 1].name]} by {
        assert files == init + [files[|files| - 1]];
      }
      var s := CopyFiles(fs, dir, init);
      if s.out.Raised? then s else CopyOne(s.fs, dir, files[|files| - 1])
  }

  /** One walked directory: record a `repodata` directory's parent; otherwise
      create the directory when missing and copy its files. */
  function MergeEntry(m: Merged, d: Path, files: seq<SourceFile>): (r: Merged)
    requires m.out.Ok?
    ensures Grows(m.fs, r.fs)
    ensures r.fs.Keys <= m.fs.Keys + EntryPaths(d, files)
    ensures r.out.Ok? ==> EntryPaths(d, files) <= r.fs.Keys
    ensures r.out.Raised? ==> r.out.error.OSError?
    ensures r.repoDirs == m.repoDirs + (if IsRepodata(d) then [Parent(d)] else [])
  {
    if IsRepodata(d) then Merged(m.fs, m.repoDirs + [Parent(d)], Ok)
    else if d !in m.fs && !(d != [] && IsDir(m.fs, Parent(d))) then
      Merged(m.fs, m.repoDirs, Raised(OSError(NO_SUCH_DIRECTORY)))
    else
      var fs1 := if d in m.fs then m.fs else m.fs[d := Dir(MKDIR_MODE)];
      var s := CopyFiles(fs1, d, files);
      Merged(s.fs, m.repoDirs, s.out)
  }

  /** The copy phase over the walk, stopping at the first failure. */
  function MergeWalk(fs: FileSystem, source: Path, dest: Path, walk: seq<WalkEntry>): (r: Merged)
    requires Rooted(source, walk)
    ensures Grows(fs, r.fs)
    ensures r.fs.Keys <= fs.Keys + WalkPaths(source, dest, walk)
    ensures r.out.Ok? ==> WalkPaths(source, dest, walk) <= r.fs.Keys
    ensures r.out.Ok? ==> r.repoDirs == RepodataParents(source, dest, walk)
    ensures r.out.Raised? ==> r.out.error.OSError?
    decreases |walk|
  {
    if walk == [] then Merged(fs, [], Ok)
    else
      var e := walk[|walk| - 1];
      var m := MergeWalk(fs, source, dest, walk[..|walk| - 1]);
      if m.out.Raised? then m else MergeEntry(m, DestRoot(source, dest, e.root), e.files)
  }

  /** Copying files that are all present already changes nothing. */
  lemma {:induction false} CopyFilesSaturated(fs: FileSystem, dir: Path, files: seq<SourceFile>)
    requires FilePaths(dir, files) <= fs.Keys
    ensures CopyFiles(fs, dir, files) == Step(fs, Ok)
    decreases |files|
  {
    if files != [] {
      var init := files[..|files| - 1];
      assert FilePaths(dir, init) <= FilePaths(dir, files) by {
        forall p | p in FilePaths(dir, init) ensures p in FilePaths(dir, files) {
          var f :| f in init && p == dir + [f.name];
          assert f in files;
        }
      }
      CopyFilesSaturated(fs, dir, init);
      assert files[|files| - 1] in files;
    }
  }

  /** A walk whose every destination is present already changes nothing and
      still records every `repodata` parent. */
  lemma {:induction false} MergeSaturated(fs: FileSystem, source: Path, dest: Path, walk: seq<WalkEntry>)
    requires Rooted(source, walk)
    requires WalkPaths(source, dest, walk) <= fs.Keys
    ensures MergeWalk(fs, source, dest, walk) == Merged(fs, RepodataParents(source, dest, walk), Ok)
    decreases |walk|
  {
    if walk != [] {
      var e := walk[|walk| - 1];
      var d := DestRoot(source, dest, e.root);
      MergeSaturated(fs, source, dest, walk[..|walk| - 1]);
      if !IsRepodata(d) {
        assert d in EntryPaths(d, e.files);
        assert FilePaths(d, e.files) <= EntryPaths(d, e.files);
        CopyFilesSaturated(fs, d, e.files);
      }
    }
  }

  /** Merging the same source a second time copies nothing: after a merge that
      completed, repeating it leaves the destination as it is and records the
      same directories. */
  lemma MergeIdempotent(fs: FileSystem, source: Path, dest: Path, walk: seq<WalkEntry>)
    requires Rooted(source, walk)
    requires MergeWalk(fs, source, dest, walk).out.Ok?
    ensures var m := MergeWalk(fs, source, dest, walk);
            MergeWalk(m.fs, source, dest, walk) == m
  {
    var m := MergeWalk(fs, source, dest, walk);
    MergeSaturated(m.fs, source, dest, walk);
  }

  /** What `os.walk` guarantees of its output: each directory is visited once,
      the names in a directory are distinct, and no file shares its path with
      a visited directory. */
  predicate WellFormedWalk(walk: seq<WalkEntry>)
  {
    (forall i, j :: 0 <= i < j < |walk| ==> walk[i].root != walk[j].root)
    && (forall i :: 0 <= i < |walk| ==> DistinctNames(walk[i].files))
    && (forall i, j, k :: 0 <= i < |walk| && 0 <= j < |walk| && 0 <= k < |walk[i].files| ==>
          walk[i].root + [walk[i].files[k].name] != walk[j].root)
  }

  predicate DistinctNames(files: seq<SourceFile>)
  {
    forall k, l :: 0 <= k < l < |files| ==> files[k].name != files[l].name
  }

  /** A file missing from the destination directory is copied with its content. */
  lemma {:induction false} CopyFilesContent(fs: FileSystem, dir: Path, files: seq<SourceFile>, k: nat)
    requires k < |files| && DistinctNames(files)
    requires dir + [files[k].name] !in fs
    requires CopyFiles(fs, dir, files).out.Ok?
    ensures var r := CopyFiles(fs, dir, files);
            dir + [files[k].name] in r.fs && r.fs[dir + [files[k].name]] == File(files[k].content)
    decreases |files|
  {
    var init := files[..|files| - 1];
    if k == |files| - 1 {
      CopyLastContent(fs, dir, files);
    } else {
      DistinctInit(files);
      assert init[k] == files[k];
      CopyFilesSnoc(fs, dir, files);
      CopyFilesContent(fs, dir, init, k);
      var t := dir + [files[k].name];
      var s, r := CopyFiles(fs, dir, init), CopyFiles(fs, dir, files);
      assert t in s.fs && t in r.fs && r.fs[t] == s.fs[t];
    }
  }

  /** Dropping the last file keeps the names distinct. */
  lemma DistinctInit(files: seq<SourceFile>)
    requires files != [] && DistinctNames(files)
    ensures DistinctNames(files[..|files| - 1])
  {
  }

  /** Copying one more file only adds to what the shorter copy did, and
      succeeds only when the shorter copy did. */
  lemma CopyFilesSnoc(fs: FileSystem, dir: Path, files: seq<SourceFile>)
    requires files != []
    ensures var s := CopyFiles(fs, dir, files[..|files| - 1]);
            var r := CopyFiles(fs, dir, files);
            (r.out.Ok? ==> s.out.Ok?) && Grows(s.fs, r.fs)
  {
  }

  lemma CopyLastContent(fs: FileSystem, dir: Path, files: seq<SourceFile>)
    requires files != [] && DistinctNames(files)
    requires dir + [files[|files| - 1].name] !in fs
    requires CopyFiles(fs, dir, files).out.Ok?
    ensures var r := CopyFiles(fs, dir, files);
            var f := files[|files| - 1];
            dir + [f.name] in r.fs && r.fs[dir + [f.name]] == File(f.content)
  {
    var k := |files| - 1;
    var init := files[..k];
    var s := CopyFiles(fs, dir, init);
    var t := dir + [files[k].name];
    forall f | f in init ensures dir + [f.name] != t {
      var l :| 0 <= l < |init| && init[l] == f;
      assert files[l].name != files[k].name;
      assert (dir + [f.name])[|dir|] == f.name;
    }
    assert t !in FilePaths(dir, init);
    assert s.out.Ok?;
    assert CopyFiles(fs, dir, files) == CopyOne(s.fs, dir, files[k]);
  }

  /** Re-rooting keeps distinct walked paths distinct. */
  lemma DestRootInjective(source: Path, dest: Path, r1: Path, r2: Path, tail: Path)
    requires source <= r1 && source <= r2
    requires DestRoot(source, dest, r1) + tail == DestRoot(source, dest, r2)
    ensures r1 + tail == r2
  {
    var d1, d2 := DestRoot(source, dest, r1), DestRoot(source, dest, r2);
    assert r1[|source|..] + tail == (d1 + tail)[|dest|..];
    assert r1 == source + r1[|source|..];
    assert r2 == source + r2[|source|..];
  }

  /** A path one longer than a directory is one of its files only when that
      directory is the parent. */
  lemma InFilePaths(dir: Path, files: seq<SourceFile>, d: Path, n: string)
    ensures d + [n] in FilePaths(dir, files) ==> d == dir
  {
    if d + [n] in FilePaths(dir, files) {
      var f :| f in files && d + [n] == dir + [f.name];
      assert d == (d + [n])[..|d|];
      assert dir == (dir + [f.name])[..|dir|];
    }
  }

  /** Re-rooted paths are equal, or one longer, only when the walked ones are. */
  lemma DestRootSame(source: Path, dest: Path, r1: Path, r2: Path, n: string)
    requires source <= r1 && source <= r2
    ensures DestRoot(source, dest, r1) == DestRoot(source, dest, r2) ==> r1 == r2
    ensures DestRoot(source, dest, r1) + [n] == DestRoot(source, dest, r2) ==> r1 + [n] == r2
  {
    if DestRoot(source, dest, r1) == DestRoot(source, dest, r2) {
      DestRootInjective(source, dest, r1, r2, []);
      assert r1 + [] == r1;
      assert DestRoot(source, dest, r1) + [] == DestRoot(source, dest, r1);
    }
    if DestRoot(source, dest, r1) + [n] == DestRoot(source, dest, r2) {
      DestRootInjective(source, dest, r1, r2, [n]);
    }
  }

  /** The destination of a file of the walk is created by no other step. */
  lemma {:induction false} TargetNotEarlier(source: Path, dest: Path, walk: seq<WalkEntry>, k: nat)
    requires Rooted(source, walk) && WellFormedWalk(walk) && walk != []
    requires k < |walk[|walk| - 1].files|
    ensures var e := walk[|walk| - 1];
            DestRoot(source, dest, e.root) + [e.files[k].name] !in WalkPaths(source, dest, walk[..|walk| - 1])
  {
    var n := |walk| - 1;
    var e := walk[n];
    var de := DestRoot(source, dest, e.root);
    var t := de + [e.files[k].name];
    var init := walk[..n];
    assert Rooted(source, init);
    forall j | 0 <= j < n ensures t !in EntryPaths(DestRoot(source, dest, init[j].root), init[j].files) {
      var dj := DestRoot(source, dest, init[j].root);
      assert init[j] == walk[j];
      DestRootSame(source, dest, e.root, walk[j].root, e.files[k].name);
      InFilePaths(dj, init[j].files, de, e.files[k].name);
    }
    WalkPathsBound(source, dest, init, t);
  }

  /** A path the walk may create is one of its entries' paths. */
  lemma {:induction false} WalkPathsBound(source: Path, dest: Path, walk: seq<WalkEntry>, t: Path)
    requires Rooted(source, walk)
    requires forall j :: 0 <= j < |walk| ==> t !in EntryPaths(DestRoot(source, dest, walk[j].root), walk[j].files)
    ensures t !in WalkPaths(source, dest, walk)
    decreases |walk|
  {
    if walk != [] {
      var init := walk[..|walk| - 1];
      assert forall j :: 0 <= j < |init| ==> init[j] == walk[j];
      WalkPathsBound(source, dest, init, t);
    }
  }

  /** Every file of a non-`repodata` directory whose destination did not exist
      is copied there with its content once the copy phase completes. */
  lemma {:induction false} MergeCopiesMissing(fs: FileSystem, source: Path, dest: Path, walk: seq<WalkEntry>,
                                              i: nat, k: nat)
    requires Rooted(source, walk) && WellFormedWalk(walk)
    requires i < |walk| && k < |walk[i].files|
    requires !IsRepodata(DestRoot(source, dest, walk[i].root))
    requires DestRoot(source, dest, walk[i].root) + [walk[i].files[k].name] !in fs
    requires MergeWalk(fs, source, dest, walk).out.Ok?
    ensures var r := MergeWalk(fs, source, dest, walk);
            var t := DestRoot(source, dest, walk[i].root) + [walk[i].files[k].name];
            t in r.fs && r.fs[t] == File(walk[i].files[k].content)
    decreases |walk|
  {
    var n := |walk| - 1;
    if i == n {
      MergeCopiesLast(fs, source, dest, walk, k);
    } else {
      var init := walk[..n];
      MergeWalkSnoc(fs, source, dest, walk);
      WellFormedInit(walk);
      assert init[i] == walk[i];
      MergeCopiesMissing(fs, source, dest, init, i, k);
      var t := DestRoot(source, dest, walk[i].root) + [walk[i].files[k].name];
      var m, r := MergeWalk(fs, source, dest, init), MergeWalk(fs, source, dest, walk);
      assert t in m.fs && t in r.fs && r.fs[t] == m.fs[t];
    }
  }

  /** Dropping the last walked directory keeps a walk well formed. */
  lemma WellFormedInit(walk: seq<WalkEntry>)
    requires walk != [] && WellFormedWalk(walk)
    ensures WellFormedWalk(walk[..|walk| - 1])
  {
    var init := walk[..|walk| - 1];
    assert forall j :: 0 <= j < |init| ==> init[j] == walk[j];
  }

  /** One more walked directory only adds to what the shorter merge did, and
      the merge succeeds only when the shorter one did. */
  lemma MergeWalkSnoc(fs: FileSystem, source: Path, dest: Path, walk: seq<WalkEntry>)
    requires Rooted(source, walk) && walk != []
    ensures Rooted(source, walk[..|walk| - 1])
    ensures var m := MergeWalk(fs, source, dest, walk[..|walk| - 1]);
            var r := MergeWalk(fs, source, dest, walk);
            (r.out.Ok? ==> m.out.Ok?) && Grows(m.fs, r.fs)
  {
  }

  /** The case of MergeCopiesMissing where the file is in the last
      directory walked. */
  lemma MergeCopiesLast(fs: FileSystem, source: Path, dest: Path, walk: seq<WalkEntry>, k: nat)
    requires Rooted(source, walk) && WellFormedWalk(walk)
    requires walk != [] && k < |walk[|walk| - 1].files|
    requires !IsRepodata(DestRoot(source, dest, walk[|walk| - 1].root))
    requires DestRoot(source, dest, walk[|walk| - 1].root) + [walk[|walk| - 1].files[k].name] !in fs
    requires MergeWalk(fs, source, dest, walk).out.Ok?
    ensures var r := MergeWalk(fs, source, dest, walk);
            var t := DestRoot(source, dest, walk[|walk| - 1].root) + [walk[|walk| - 1].files[k].name];
            t in r.fs && r.fs[t] == File(walk[|walk| - 1].files[k].content)
  {
    var n := |walk| - 1;
    var init := walk[..n];
    assert Rooted(source, init);
    var m := MergeWalk(fs, source, dest, init);
    var e := walk[n];
    var d := DestRoot(source, dest, e.root);
    var t := d + [e.files[k].name];
    TargetNotEarlier(source, dest, walk, k);
    assert t !in m.fs;
    assert m.out.Ok?;
    var fs1 := if d in m.fs then m.fs else m.fs[d := Dir(MKDIR_MODE)];
    assert |t| == |d| + 1;
    assert t !in fs1;
    assert MergeWalk(fs, source, dest, walk) == Merged(CopyFiles(fs1, d, e.files).fs, m.repoDirs, CopyFiles(fs1, d, e.files).out);
    CopyFilesContent(fs1, d, e.files, k);
  }

  /** The copy loop over the files of one directory. */
  method CopyFilesLoop(fs: FileSystem, dir: Path, files: seq<SourceFile>) returns (fs': FileSystem, out: Outcome)
    ensures Step(fs', out) == CopyFiles(fs, dir, files)
  {
    fs', out := fs, Ok;
    var i := 0;
    while i < |files|
      invariant 0 <= i <= |files|
      invariant out == Ok
      invariant Step(fs', Ok) == CopyFiles(fs, dir, files[..i])
    {
      CopyFilesNext(fs, dir, files, i);
      fs', out := CopyFile(fs', dir, files[i]);
      if out.Raised? {
        CopyFilesStops(fs, dir, files, i + 1);
        return;
      }
      i := i + 1;
    }
    assert files[..i] == files;
  }

  /** The body of the file loop: an existing file or link is skipped,
      otherwise the file is copied into the directory. */
  method CopyFile(fs: FileSystem, dir: Path, f: SourceFile) returns (fs': FileSystem, out: Outcome)
    ensures Step(fs', out) == CopyOne(fs, dir, f)
  {
    fs', out := fs, Ok;
    var target := dir + [f.name];
    if target in fs {
      // an existing file or a symbolic link: skipped
    } else if IsDir(fs, dir) {
      fs' := fs[target := File(f.content)];
    } else {
      out := Raised(OSError(NOT_A_DIRECTORY));
    }
  }

  /** How one more file extends the copy when nothing has failed yet. */
  lemma CopyFilesNext(fs: FileSystem, dir: Path, files: seq<SourceFile>, i: nat)
    requires i < |files| && CopyFiles(fs, dir, files[..i]).out.Ok?
    ensures CopyFiles(fs, dir, files[..i + 1]) == CopyOne(CopyFiles(fs, dir, files[..i]).fs, dir, files[i])
  {
    assert files[..i + 1][..i] == files[..i];
  }

  /** Once copying has failed, the remaining files change nothing. */
  lemma {:induction false} CopyFilesStops(fs: FileSystem, dir: Path, files: seq<SourceFile>, k: nat)
    requires k <= |files|
    requires CopyFiles(fs, dir, files[..k]).out.Raised?
    ensures CopyFiles(fs, dir, files) == CopyFiles(fs, dir, files[..k])
    decreases |files|
  {
    if k == |files| {
      assert files[..k] == files;
    } else {
      var init := files[..|files| - 1];
      assert init[..k] == files[..k];
      CopyFilesStops(fs, dir, init, k);
    }
  }

  /** The copy phase of `merge_repos(source, dest)`. */
  method MergeCopy(fs: FileSystem, source: Path, dest: Path, walk: seq<WalkEntry>)
    returns (fs': FileSystem, repoDirs: seq<Path>, out: Outcome)
    requires Rooted(source, walk)
    ensures Merged(fs', repoDirs, out) == MergeWalk(fs, source, dest, walk)
  {
    fs', repoDirs, out := fs, [], Ok;
    var i := 0;
    RootedPrefix(source, walk, 0);
    while i < |walk|
      invariant 0 <= i <= |walk|
      invariant Rooted(source, walk[..i])
      invariant out == Ok
      invariant Merged(fs', repoDirs, Ok) == MergeWalk(fs, source, dest, walk[..i])
    {
      MergeWalkNext(fs, source, dest, walk, i);
      var e := walk[i];
      fs', repoDirs, out := CopyEntry(fs', repoDirs, DestRoot(source, dest, e.root), e.files);
      if out.Raised? {
        MergeStops(fs, source, dest, walk, i + 1);
        return;
      }
      i := i + 1;
    }
    assert walk[..i] == walk;
  }

  /** One walked directory, as the body of the walk loop handles it. */
  method CopyEntry(fs: FileSystem, repoDirs: seq<Path>, d: Path, files: seq<SourceFile>)
    returns (fs': FileSystem, repoDirs': seq<Path>, out: Outcome)
    ensures Merged(fs', repoDirs', out) == MergeEntry(Merged(fs, repoDirs, Ok), d, files)
  {
    fs', repoDirs', out := fs, repoDirs, Ok;
    if IsRepodata(d) {
      repoDirs' := repoDirs + [Parent(d)];
      return;
    }
    if d !in fs {
      if d == [] || !IsDir(fs, Parent(d)) {
        return fs, repoDirs, Raised(OSError(NO_SUCH_DIRECTORY));
      }
      fs' := fs[d := Dir(MKDIR_MODE)];
    }
    fs', out := CopyFilesLoop(fs', d, files);
  }

  /** Once the copy phase has failed, the rest of the walk changes nothing. */
  lemma {:induction false} MergeStops(fs: FileSystem, source: Path, dest: Path, walk: seq<WalkEntry>, k: nat)
    requires k <= |walk|
    requires Rooted(source, walk)
    ensures Rooted(source, walk[..k])
    ensures MergeWalk(fs, source, dest, walk[..k]).out.Raised? ==>
      MergeWalk(fs, source, dest, walk) == MergeWalk(fs, source, dest, walk[..k])
    decreases |walk| - k
  {
    RootedPrefix(source, walk, k);
    if k < |walk| {
      MergeStops(fs, source, dest, walk, k + 1);
      MergeWalkNext(fs, source, dest, walk, k);
    } else {
      assert walk[..k] == walk;
    }
  }

  /** Every prefix of a rooted walk is rooted. */
  lemma RootedPrefix(source: Path, walk: seq<WalkEntry>, k: nat)
    requires k <= |walk| && Rooted(source, walk)
    ensures Rooted(source, walk[..k])
  {
    assert forall i :: 0 <= i < k ==> walk[..k][i] == walk[i];
  }

  /** How one more walked directory extends the merge: nothing more after
      a failure, otherwise that directory is merged. */
  lemma MergeWalkNext(fs: FileSystem, source: Path, dest: Path, walk: seq<WalkEntry>, i: nat)
    requires i < |walk| && Rooted(source, walk)
    ensures Rooted(source, walk[..i]) && Rooted(source, walk[..i + 1])
    ensures var m := MergeWalk(fs, source, dest, walk[..i]);
            MergeWalk(fs, source, dest, walk[..i + 1])
              == if m.out.Raised? then m else MergeEntry(m, DestRoot(source, dest, walk[i].root), walk[i].files)
  {
    RootedPrefix(source, walk, i);
    RootedPrefix(source, walk, i + 1);
    assert walk[..i + 1][..i] == walk[..i];
  }
}
