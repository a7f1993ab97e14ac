/** `replace_repo` (arado/aradoutil.py): a staged repository takes the place
    of the published one, which is moved aside first and deleted last. */
module Replace {
  import opened Base
  import opened Strings
  import opened Fs

  const INVALID_ARGUMENT := "Invalid argument"

  /** Where the old repository is parked: the destination's name with
      "-temp" appended, next to it. */
  function TempPath(dest: Path): (t: Path)
    ensures |t| == if dest == [] then 1 else |dest|
  {
    if dest == [] then ["-temp"] else Parent(dest) + [dest[|dest| - 1] + "-temp"]
  }

  /** The parking place is named by appending "-temp" to the destination's
      string form, as the program does. */
  lemma TempRender(dest: Path)
    ensures Render(TempPath(dest)) == Render(dest) + "-temp"
  {
    if |dest| > 1 {
      assert Parent(TempPath(dest)) == Parent(dest);
    }
  }

  /** The parking place is a sibling of the destination. */
  lemma TempDisjoint(dest: Path)
    requires dest != []
    ensures Disjoint(dest, TempPath(dest))
  {
    var t := TempPath(dest);
    var n := |dest|;
    assert |dest[n - 1] + "-temp"| > |dest[n - 1]|;
    assert t[n - 1] != dest[n - 1];
  }

  /** `os.rename(a, b)`: it succeeds when `a` exists, nothing is at `b`, the
      parent of `b` is a directory and `b` does not lie inside `a`. Renaming
      onto an existing entry is treated as an error. */
  function RenameChecked(fs: FileSystem, a: Path, b: Path): (r: Result<FileSystem>)
    ensures r.Success? <==> a in fs && b !in fs && b != [] && IsDir(fs, Parent(b)) && !(a <= b)
    ensures r.Success? ==> r.value == Rename(fs, a, b)
    ensures r.Failure? ==> r.error.OSError?
  {
    if a !in fs then Failure(OSError(NO_SUCH_DIRECTORY))
    else if b in fs then Failure(OSError(FILE_EXISTS))
    else if b == [] || !IsDir(fs, Parent(b)) then Failure(OSError(if b == [] then FILE_EXISTS else ParentError(fs, b).message))
    else if a <= b then Failure(OSError(INVALID_ARGUMENT))
    else Success(Rename(fs, a, b))
  }

  /** `shutil.rmtree(p)`: only a directory can be removed this way. */
  function RemoveChecked(fs: FileSystem, p: Path): (r: Result<FileSystem>)
    ensures r.Success? <==> IsDir(fs, p)
    ensures r.Success? ==> r.value == RemoveTree(fs, p)
    ensures r.Failure? ==> r.error.OSError?
  {
    if IsDir(fs, p) then Success(RemoveTree(fs, p))
    else Failure(OSError(if p in fs then NOT_A_DIRECTORY else NO_SUCH_DIRECTORY))
  }

  /** The filesystem after a replacement and how it ended. */
  datatype Swap = Swap(fs: FileSystem, out: Outcome)

  /** `replace_repo(source, dest)`: an existing destination is renamed to its
      parking place, the source is moved to the destination, and whatever is
      then parked is removed; the first failing step ends it. */
  function Replaced(fs: FileSystem, source: Path, dest: Path): (r: Swap)
    ensures r.out.Raised? ==> r.out.error.OSError?
    ensures dest in fs && RenameChecked(fs, dest, TempPath(dest)).Failure? ==> r == Swap(fs, r.out)
  {
    var temp := TempPath(dest);
    var aside := if dest in fs then RenameChecked(fs, dest, temp) else Success(fs);
    if aside.Failure? then Swap(fs, Raised(aside.error))
    else
      var moved := RenameChecked(aside.value, source, dest);
      if moved.Failure? then Swap(aside.value, Raised(moved.error))
      else if temp !in moved.value then Swap(moved.value, Ok)
      else
        var cleared := RemoveChecked(moved.value, temp);
        if cleared.Failure? then Swap(moved.value, Raised(cleared.error))
        else Swap(cleared.value, Ok)
  }

  /** The conditions under which replacing succeeds: the source exists and
      is disjoint from the destination and its parking place, the parking
      place is free, the destination's parent is a directory, and the
      destination is either a directory or not there at all. */
  ghost predicate CanReplace(fs: FileSystem, source: Path, dest: Path)
  {
    source in fs && dest != [] && IsDir(fs, Parent(dest))
    && Disjoint(source, dest) && Disjoint(source, TempPath(dest))
    && Absent(fs, TempPath(dest))
    && (dest in fs ==> IsDir(fs, dest))
    && (dest !in fs ==> Absent(fs, dest))
  }

  /** A replacement under those conditions succeeds: the destination then
      holds exactly the tree the source held, the source and the parking
      place are gone, and every tree apart from the three is unchanged. */
  lemma ReplaceSwaps(fs: FileSystem, source: Path, dest: Path)
    requires CanReplace(fs, source, dest)
    ensures var r := Replaced(fs, source, dest);
            r.out == Ok
            && Tree(r.fs, dest) == Tree(fs, source)
            && Absent(r.fs, source) && Absent(r.fs, TempPath(dest))
    ensures var r := Replaced(fs, source, dest);
            forall c :: (Disjoint(c, source) && Disjoint(c, dest) && Disjoint(c, TempPath(dest)))
                          ==> Tree(r.fs, c) == Tree(fs, c)
  {
    var temp := TempPath(dest);
    TempDisjoint(dest);
    var fs1 := if dest in fs then Rename(fs, dest, temp) else fs;
    if dest in fs {
      AsideStep(fs, source, dest);
    }
    var fs2 := Rename(fs1, source, dest);
    MoveStep(fs1, source, dest, temp);
    var r := Replaced(fs, source, dest);
    if dest in fs {
      assert r.fs == RemoveTree(fs2, temp);
      RemoveOther(fs2, temp, dest);
      RenameOther(fs, dest, temp, source);
      assert Tree(r.fs, dest) == Tree(fs2, dest) == Tree(fs1, source) == Tree(fs, source);
    } else {
      assert r.fs == fs2;
    }
    forall c | Disjoint(c, source) && Disjoint(c, dest) && Disjoint(c, temp)
      ensures Tree(r.fs, c) == Tree(fs, c)
    {
      if dest in fs {
        RenameOther(fs, dest, temp, c);
        RenameOther(fs1, source, dest, c);
        RemoveOther(fs2, temp, c);
      } else {
        RenameOther(fs1, source, dest, c);
      }
    }
  }

  /** Moving an existing destination aside succeeds and leaves a directory
      in the parking place, the source where it was, and the destination free. */
  lemma AsideStep(fs: FileSystem, source: Path, dest: Path)
    requires CanReplace(fs, source, dest) && dest in fs
    ensures var fs1 := Rename(fs, dest, TempPath(dest));
            RenameChecked(fs, dest, TempPath(dest)) == Success(fs1)
            && IsDir(fs1, TempPath(dest)) && Absent(fs1, dest)
            && IsDir(fs1, Parent(dest)) && source in fs1
  {
    var temp := TempPath(dest);
    TempDisjoint(dest);
    assert Parent(temp) == Parent(dest);
    ParentKept(fs, source, dest);
    RenameSource(fs, dest, temp);
    RenameAt(fs, dest, temp, []);
    assert dest + [] == dest && temp + [] == temp;
    PrefixesNest(dest, source, source);
    PrefixesNest(temp, source, source);
    RenameOtherAt(fs, dest, temp, source);
  }

  /** Moving the source onto a free destination succeeds, carries the
      source's tree there, and leaves the parking place as it was. */
  lemma MoveStep(fs1: FileSystem, source: Path, dest: Path, temp: Path)
    requires source in fs1 && dest != [] && Absent(fs1, dest) && IsDir(fs1, Parent(dest))
    requires Disjoint(source, dest) && Disjoint(source, temp) && Disjoint(dest, temp)
    ensures var fs2 := Rename(fs1, source, dest);
            RenameChecked(fs1, source, dest) == Success(fs2)
            && Tree(fs2, dest) == Tree(fs1, source)
            && Absent(fs2, source)
            && (temp in fs2 <==> temp in fs1)
            && (temp in fs1 ==> fs2[temp] == fs1[temp])
            && (Absent(fs1, temp) ==> Absent(fs2, temp))
  {
    RenameTarget(fs1, source, dest);
    RenameSource(fs1, source, dest);
    MoveKeepsTemp(fs1, source, dest, temp);
  }

  /** Moving the source to the destination does not touch a path apart
      from both. */
  lemma MoveKeepsTemp(fs1: FileSystem, source: Path, dest: Path, temp: Path)
    requires Disjoint(source, temp) && Disjoint(dest, temp)
    ensures var fs2 := Rename(fs1, source, dest);
            (temp in fs2 <==> temp in fs1)
            && (temp in fs1 ==> fs2[temp] == fs1[temp])
            && (Absent(fs1, temp) ==> Absent(fs2, temp))
  {
    var fs2 := Rename(fs1, source, dest);
    RenameOtherAt(fs1, source, dest, temp);
    if Absent(fs1, temp) {
      forall q | q in fs2 ensures !(temp <= q) {
        PrefixesNest(dest, temp, q);
      }
    }
  }

  /** The destination's parent survives moving the old tree aside. */
  lemma ParentKept(fs: FileSystem, source: Path, dest: Path)
    requires CanReplace(fs, source, dest)
    ensures dest in fs ==> IsDir(Rename(fs, dest, TempPath(dest)), Parent(dest))
  {
    var p := Parent(dest);
    assert |p| < |dest| && |p| < |TempPath(dest)|;
    if dest in fs {
      RenameOtherAt(fs, dest, TempPath(dest), p);
    }
  }

  /** When the staged tree cannot be moved into place, the published tree
      is not lost: it sits in the parking place, unchanged. */
  lemma ReplaceKeepsOld(fs: FileSystem, source: Path, dest: Path)
    requires dest != [] && dest in fs && Absent(fs, TempPath(dest))
    requires RenameChecked(fs, dest, TempPath(dest)).Success?
    requires RenameChecked(Rename(fs, dest, TempPath(dest)), source, dest).Failure?
    ensures var r := Replaced(fs, source, dest);
            r.out.Raised? && Tree(r.fs, TempPath(dest)) == Tree(fs, dest)
  {
    TempDisjoint(dest);
    RenameTarget(fs, dest, TempPath(dest));
  }

  /** `replace_repo`, step by step. */
  method ReplaceRepo(fs: FileSystem, source: Path, dest: Path) returns (fs': FileSystem, out: Outcome)
    ensures Swap(fs', out) == Replaced(fs, source, dest)
  {
    var temp := TempPath(dest);
    fs' := fs;
    if dest in fs' {
      var aside := RenameChecked(fs', dest, temp);
      if aside.Failure? {
        return fs', Raised(aside.error);
      }
      fs' := aside.value;
    }
    var moved := RenameChecked(fs', source, dest);
    if moved.Failure? {
      return fs', Raised(moved.error);
    }
    fs' := moved.value;
    if temp in fs' {
      var cleared := RemoveChecked(fs', temp);
      if cleared.Failure? {
        return fs', Raised(cleared.error);
      }
      fs' := cleared.value;
    }
    out := Ok;
  }
}
