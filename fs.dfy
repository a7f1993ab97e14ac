/** The filesystem the promotion pipeline works on: a map from a path, given as
    its list of components, to what sits there. Only what the program observes
    is kept: directories with their permission bits, regular files with their
    content, and symbolic links with their (unresolved) target. */
module Fs {
  import opened Base
  import opened Strings

  /** An absolute path as its components: "/srv/repo" is ["srv", "repo"]. */
  type Path = seq<string>

  datatype Node = Dir(mode: bv16) | File(content: string) | Symlink(target: string)

  type FileSystem = map<Path, Node>

  /** The mode `os.mkdir` and `os.makedirs` ask for (0o777); the process
      umask that narrows it is not modelled. */
  const MKDIR_MODE: bv16 := 0x1FF
  /** The mode `tempfile.mkdtemp` creates its directory with (0o700). */
  const MKDTEMP_MODE: bv16 := 0x1C0

  /** The messages of the failing calls the model distinguishes. */
  const NO_SUCH_DIRECTORY := "No such file or directory"
  const NOT_A_DIRECTORY := "Not a directory"
  const FILE_EXISTS := "File exists"

  /** `os.path.islink`. */
  predicate IsLink(fs: FileSystem, p: Path)
  {
    p in fs && fs[p].Symlink?
  }

  /** `os.path.isdir`, without following links. */
  predicate IsDir(fs: FileSystem, p: Path)
  {
    p in fs && fs[p].Dir?
  }

  /** Nothing exists at `p` or below it. */
  ghost predicate Absent(fs: FileSystem, p: Path)
  {
    forall q :: q in fs ==> !(p <= q)
  }

  /** Neither path lies inside the other. */
  predicate Disjoint(a: Path, b: Path)
  {
    !(a <= b) && !(b <= a)
  }

  predicate Component(n: string)
  {
    n != "" && '/' !in n
  }

  predicate ValidPath(p: Path)
  {
    forall i :: 0 <= i < |p| ==> Component(p[i])
  }

  function Parent(p: Path): Path
    requires p != []
  {
    p[..|p| - 1]
  }

  /** The string form of a path: "/" for the root, "/a/b" otherwise. */
  function Render(p: Path): (r: string)
    ensures StartsWith(r, "/")
    decreases |p|
  {
    if p == [] then "/"
    else if |p| == 1 then "/" + p[0]
    else Render(Parent(p)) + "/" + p[|p| - 1]
  }

  /** `os.path.join(Render(p), n)` is the rendering of the child path. */
  lemma RenderChild(p: Path, n: string)
    requires ValidPath(p) && Component(n)
    ensures PathJoin(Render(p), n) == Render(p + [n])
  {
    assert n[0] != '/' by { assert n[0] in n; }
    assert !StartsWith(n, "/");
    if p != [] {
      var last := p[|p| - 1];
      assert Component(last);
      assert last[|last| - 1] in last;
      var r := Render(p);
      assert r[|r| - 1] == last[|last| - 1];
      assert !EndsWith(r, "/");
      assert Parent(p + [n]) == p;
    }
  }

  /** The part of the tree at and below `p`, keyed by the path relative to `p`. */
  function Tree(fs: FileSystem, p: Path): (t: map<Path, Node>)
    ensures forall rel :: rel in t <==> p + rel in fs
    ensures forall rel :: rel in t ==> t[rel] == fs[p + rel]
  {
    var keys := set q | q in fs && p <= q :: q[|p|..];
    assert forall rel | rel in keys :: p + rel in fs by {
      forall rel | rel in keys ensures p + rel in fs {
        var q :| q in fs && p <= q && q[|p|..] == rel;
        assert q == p + rel;
      }
    }
    assert forall rel | p + rel in fs :: rel in keys by {
      forall rel | p + rel in fs ensures rel in keys {
        assert (p + rel)[|p|..] == rel;
      }
    }
    map rel | rel in keys :: fs[p + rel]
  }

  /** `os.rename(a, b)`: the tree at `a` moves to `b`. */
  function Rename(fs: FileSystem, a: Path, b: Path): (r: FileSystem)
    ensures forall rel :: a + rel in fs ==> b + rel in r && r[b + rel] == fs[a + rel]
    ensures forall q :: q in fs && !(a <= q) && !(b <= q) ==> q in r && r[q] == fs[q]
    ensures forall q :: q in r ==> (q in fs && !(a <= q)) || b <= q
    ensures forall rel :: b + rel in r && !(b + rel in fs && !(a <= b + rel)) ==> a + rel in fs
  {
    var kept := map q | q in fs && !(a <= q) :: fs[q];
    var moved := Moved(fs, a, b);
    kept + moved
  }

  /** The entries under `a`, re-rooted under `b`. */
  function Moved(fs: FileSystem, a: Path, b: Path): (m: FileSystem)
    ensures forall rel :: a + rel in fs ==> b + rel in m && m[b + rel] == fs[a + rel]
    ensures forall q :: q in m ==> b <= q
    ensures forall rel :: b + rel in m ==> a + rel in fs
  {
    var keys := set q | q in fs && a <= q :: b + q[|a|..];
    assert forall q | q in keys :: b <= q && a + q[|b|..] in fs by {
      forall q | q in keys ensures b <= q && a + q[|b|..] in fs {
        var q0 :| q0 in fs && a <= q0 && q == b + q0[|a|..];
        assert q[|b|..] == q0[|a|..];
        assert a + q0[|a|..] == q0;
      }
    }
    var m := map q | q in keys :: fs[a + q[|b|..]];
    assert forall rel | a + rel in fs :: b + rel in m && m[b + rel] == fs[a + rel] by {
      forall rel | a + rel in fs ensures b + rel in m && m[b + rel] == fs[a + rel] {
        assert (b + rel)[|b|..] == rel;
        assert (a + rel)[|a|..] == rel;
      }
    }
    assert forall rel | b + rel in m :: a + rel in fs by {
      forall rel | b + rel in m ensures a + rel in fs {
        assert (b + rel)[|b|..] == rel;
      }
    }
    m
  }

  /** Two prefixes of one path are prefixes of each other. */
  lemma PrefixesNest(x: Path, y: Path, q: Path)
    ensures x <= q && y <= q ==> x <= y || y <= x
  {
    if x <= q && y <= q {
      if |x| <= |y| { assert x == y[..|x|]; } else { assert y == x[..|y|]; }
    }
  }

  /** `shutil.rmtree(p)`: the tree at `p` is gone. */
  function RemoveTree(fs: FileSystem, p: Path): (r: FileSystem)
    ensures Absent(r, p)
    ensures forall q :: q in fs && !(p <= q) ==> q in r && r[q] == fs[q]
    ensures forall q :: q in r ==> q in fs
  {
    map q | q in fs && !(p <= q) :: fs[q]
  }

  /** The tree at `p` replaced by `t`, whose entries are keyed relative to
      `p`: what a program that rewrites a whole directory leaves behind. */
  function Graft(fs: FileSystem, p: Path, t: map<Path, Node>): (r: FileSystem)
    ensures Tree(r, p) == t
    ensures forall q :: q in fs && !(p <= q) ==> q in r && r[q] == fs[q]
    ensures forall q :: q in r ==> q in fs || p <= q
  {
    var r := RemoveTree(fs, p) + Moved(t, [], p);
    forall rel ensures (rel in Tree(r, p) <==> rel in t) && (rel in t ==> Tree(r, p)[rel] == t[rel]) {
      assert [] + rel == rel;
      assert p <= p + rel;
    }
    assert Tree(r, p).Keys == t.Keys;
    r
  }

  /** `cp -a src/. dst`: every entry at and below `src` is copied to the
      same place under `dst`, replacing what was there; the target directory
      itself takes the source directory's node, permission bits included. */
  function CopyInto(fs: FileSystem, src: Path, dst: Path): (r: FileSystem)
    ensures forall rel :: src + rel in fs ==> dst + rel in r && r[dst + rel] == fs[src + rel]
    ensures forall q :: q in fs && !(dst <= q) ==> q in r && r[q] == fs[q]
    ensures forall q :: q in r ==> q in fs || dst <= q
    ensures forall rel :: dst + rel in r && dst + rel !in fs ==> src + rel in fs
  {
    fs + Moved(fs, src, dst)
  }

  /** The tree at `b` after a rename from `a` to a fresh `b` is the old tree at `a`. */
  lemma RenameTarget(fs: FileSystem, a: Path, b: Path)
    requires Disjoint(a, b) && Absent(fs, b)
    ensures Tree(Rename(fs, a, b), b) == Tree(fs, a)
  {
    var t1, t2 := Tree(Rename(fs, a, b), b), Tree(fs, a);
    forall rel
      ensures rel in t1 <==> rel in t2
      ensures rel in t2 ==> t1[rel] == t2[rel]
    {
      RenameTargetAt(fs, a, b, rel);
    }
  }

  lemma RenameTargetAt(fs: FileSystem, a: Path, b: Path, rel: Path)
    requires Disjoint(a, b) && Absent(fs, b)
    ensures rel in Tree(Rename(fs, a, b), b) <==> rel in Tree(fs, a)
    ensures rel in Tree(fs, a) ==> Tree(Rename(fs, a, b), b)[rel] == Tree(fs, a)[rel]
  {
    RenameAt(fs, a, b, rel);
    assert (a + rel)[|a|..] == rel;
    assert (b + rel)[|b|..] == rel;
  }

  lemma RenameAt(fs: FileSystem, a: Path, b: Path, rel: Path)
    requires Disjoint(a, b) && Absent(fs, b)
    ensures b + rel in Rename(fs, a, b) <==> a + rel in fs
    ensures a + rel in fs ==> Rename(fs, a, b)[b + rel] == fs[a + rel]
  {
    var r := Rename(fs, a, b);
    assert (a + rel)[|a|..] == rel;
    assert (b + rel)[|b|..] == rel;
    assert b + rel !in fs;
  }

  /** A rename leaves nothing at its source. */
  lemma RenameSource(fs: FileSystem, a: Path, b: Path)
    requires Disjoint(a, b)
    ensures Absent(Rename(fs, a, b), a)
  {
    var r := Rename(fs, a, b);
    forall q | q in r ensures !(a <= q) {
      PrefixesNest(a, b, q);
    }
  }

  /** A rename leaves the trees that are disjoint from both paths alone. */
  lemma RenameOther(fs: FileSystem, a: Path, b: Path, c: Path)
    requires Disjoint(a, c) && Disjoint(b, c)
    ensures Tree(Rename(fs, a, b), c) == Tree(fs, c)
  {
    var r := Rename(fs, a, b);
    forall rel
      ensures rel in Tree(r, c) <==> rel in Tree(fs, c)
      ensures rel in Tree(fs, c) ==> Tree(r, c)[rel] == Tree(fs, c)[rel]
    {
      PrefixesNest(a, c, c + rel);
      PrefixesNest(b, c, c + rel);
      RenameOtherAt(fs, a, b, c + rel);
    }
  }

  lemma RenameOtherAt(fs: FileSystem, a: Path, b: Path, q: Path)
    requires !(a <= q) && !(b <= q)
    ensures q in Rename(fs, a, b) <==> q in fs
    ensures q in fs ==> Rename(fs, a, b)[q] == fs[q]
  {
  }

  /** Removing a tree leaves the trees that are disjoint from it alone. */
  lemma RemoveOther(fs: FileSystem, p: Path, c: Path)
    requires Disjoint(p, c)
    ensures Tree(RemoveTree(fs, p), c) == Tree(fs, c)
  {
    forall rel
      ensures rel in Tree(RemoveTree(fs, p), c) <==> rel in Tree(fs, c)
    {
      PrefixesNest(p, c, c + rel);
    }
  }

  /** A change confined below `p` leaves a tree none of whose paths lies
      below `p` alone. */
  lemma TreeOutside(fs: FileSystem, r: FileSystem, p: Path, c: Path)
    requires forall rel :: !(p <= c + rel)
    requires forall q :: q in fs && !(p <= q) ==> q in r && r[q] == fs[q]
    requires forall q :: q in r ==> q in fs || p <= q
    ensures Tree(r, c) == Tree(fs, c)
  {
    forall rel
      ensures rel in Tree(r, c) <==> rel in Tree(fs, c)
      ensures rel in Tree(fs, c) ==> Tree(r, c)[rel] == Tree(fs, c)[rel]
    {
      assert !(p <= c + rel);
    }
  }

  lemma AbsentTree(fs: FileSystem, p: Path)
    requires Absent(fs, p)
    ensures Tree(fs, p) == map[]
  {
  }

  /** The error `os.mkdir` or `os.symlink` raises when the parent of `p` is
      missing or is not a directory. */
  function ParentError(fs: FileSystem, p: Path): Error
    requires p != []
  {
    OSError(if Parent(p) in fs then NOT_A_DIRECTORY else NO_SUCH_DIRECTORY)
  }

  /** `os.mkdir(p, mode)`: a new directory inside an existing one. */
  function Mkdir(fs: FileSystem, p: Path, mode: bv16): (r: Result<FileSystem>)
    requires p != []
    ensures r.Success? <==> p !in fs && IsDir(fs, Parent(p))
    ensures r.Success? ==> r.value == fs[p := Dir(mode)]
    ensures r.Failure? ==> r.error.OSError?
  {
    if p in fs then Failure(OSError(FILE_EXISTS))
    else if !IsDir(fs, Parent(p)) then Failure(ParentError(fs, p))
    else Success(fs[p := Dir(mode)])
  }

  /** `os.makedirs(p)`: every missing ancestor of `p` is created, then `p`
      itself, which must not exist yet. The root always exists. */
  function MakeDirs(fs: FileSystem, p: Path): (r: Result<FileSystem>)
    ensures r.Success? ==> IsDir(r.value, p)
    ensures r.Success? ==> forall q :: q in fs ==> q in r.value && r.value[q] == fs[q]
    ensures r.Success? ==> forall q :: q in r.value && q !in fs ==> q <= p && r.value[q] == Dir(MKDIR_MODE)
    ensures r.Success? ==> p !in fs
    ensures r.Failure? ==> r.error.OSError?
    decreases |p|
  {
    if p == [] || p in fs then Failure(OSError(FILE_EXISTS))
    else
      var head := Parent(p);
      var up := if head == [] || head in fs then Success(fs) else MakeDirs(fs, head);
      if up.Failure? then up
      else Mkdir(up.value, p, MKDIR_MODE)
  }

  /** `os.symlink(target, p)`: a new link inside an existing directory. */
  function MakeLink(fs: FileSystem, target: string, p: Path): (r: Result<FileSystem>)
    requires p != []
    ensures r.Success? <==> p !in fs && IsDir(fs, Parent(p))
    ensures r.Success? ==> r.value == fs[p := Symlink(target)]
    ensures r.Failure? ==> r.error.OSError?
  {
    if p in fs then Failure(OSError(FILE_EXISTS))
    else if !IsDir(fs, Parent(p)) then Failure(ParentError(fs, p))
    else Success(fs[p := Symlink(target)])
  }

  /** Adding one entry below `p` adds it to the tree at `p`. */
  lemma TreeUpdate(fs: FileSystem, p: Path, rel: Path, n: Node)
    ensures Tree(fs[p + rel := n], p) == Tree(fs, p)[rel := n]
  {
    var t1, t2 := Tree(fs[p + rel := n], p), Tree(fs, p)[rel := n];
    forall r
      ensures r in t1 <==> r in t2
      ensures r in t1 ==> t1[r] == t2[r]
    {
      AppendInjective(p, r, rel);
    }
  }

  lemma AppendInjective(p: Path, a: Path, b: Path)
    ensures p + a == p + b ==> a == b
  {
    if p + a == p + b {
      assert a == (p + a)[|p|..];
      assert b == (p + b)[|p|..];
    }
  }

  /** Copying into a directory that holds nothing but itself gives it the
      copied tree, the top node included. */
  lemma CopyIntoTree(fs: FileSystem, src: Path, dst: Path)
    requires src in fs && dst in fs && forall q :: q in fs && dst <= q ==> q == dst
    ensures Tree(CopyInto(fs, src, dst), dst) == Tree(fs, src)
  {
    var a, b := Tree(CopyInto(fs, src, dst), dst), Tree(fs, src);
    forall rel ensures (rel in a <==> rel in b) && (rel in b ==> a[rel] == b[rel]) {
      CopyIntoAt(fs, src, dst, rel);
    }
    assert a.Keys == b.Keys;
  }

  lemma CopyIntoAt(fs: FileSystem, src: Path, dst: Path, rel: Path)
    requires src in fs && dst in fs && forall q :: q in fs && dst <= q ==> q == dst
    ensures rel in Tree(CopyInto(fs, src, dst), dst) <==> rel in Tree(fs, src)
    ensures rel in Tree(fs, src) ==> Tree(CopyInto(fs, src, dst), dst)[rel] == Tree(fs, src)[rel]
  {
    var r := CopyInto(fs, src, dst);
    assert (dst + rel)[|dst|..] == rel;
    assert (src + rel)[|src|..] == rel;
    if rel == [] {
      assert dst + rel == dst && src + rel == src;
    } else {
      assert dst + rel !in fs by { assert dst <= dst + rel; }
    }
  }
}
