/** Building the repository-release RPM (arado/package.py): the builder's
    options over their defaults, the template files whose rendering refuses
    unset options, the rpmbuild directory tree, and the steps of `build`.
    The template engine, `gpg --export` and the random names `tempfile`
    picks are parameters. */
module Package {
  import opened Base
  import opened Strings
  import opened Fs

  /** An option value: None, a boolean, or a string. */
  datatype Value = NoneV | BoolV(b: bool) | StrV(s: string)

  type Opts = map<string, Value>

  /** The builder's defaults: five options that must be given, the platform
      suffix, and four file options that start out False. */
  const DEFAULT_OPTS: Opts := map[
    "url" := NoneV,
    "key_name" := NoneV,
    "package_name" := NoneV,
    "package_version" := NoneV,
    "release_version" := NoneV,
    "platform" := StrV(".el6"),
    "pubkey" := BoolV(false),
    "repofile" := BoolV(false),
    "cert" := BoolV(false),
    "key" := BoolV(false)
  ]

  /** The options without a usable default. */
  const REQUIRED: set<string> := {"url", "key_name", "package_name", "package_version", "release_version"}

  /** `dict(DEFAULT_OPTS, **opts)`: every option the caller passes replaces
      its default; the others keep theirs. */
  function WithDefaults(opts: Opts): (r: Opts)
    ensures r.Keys == DEFAULT_OPTS.Keys + opts.Keys
    ensures forall k :: k in opts ==> r[k] == opts[k]
    ensures forall k :: k in DEFAULT_OPTS && k !in opts ==> r[k] == DEFAULT_OPTS[k]
  {
    DEFAULT_OPTS + opts
  }

  /** Filling in the defaults a second time changes nothing. */
  lemma WithDefaultsIdempotent(opts: Opts)
    ensures WithDefaults(WithDefaults(opts)) == WithDefaults(opts)
  {
    var once := WithDefaults(opts);
    assert WithDefaults(once).Keys == once.Keys;
  }

  /** A template, where the engine looks for it, and the options it is
      rendered with. */
  datatype TemplateFile = TemplateFile(template: string, path: string, opts: Opts)

  const SPEC_TEMPLATE := "spec.tmpl"
  const REPO_TEMPLATE := "repo.tmpl"

  /** The spec file template of the package. */
  function SpecFile(path: string, opts: Opts): (t: TemplateFile)
    ensures t.template == SPEC_TEMPLATE && t.path == path && t.opts == opts
  {
    TemplateFile(SPEC_TEMPLATE, path, opts)
  }

  /** The yum repository file template of the package. */
  function RepoFile(path: string, opts: Opts): (t: TemplateFile)
    ensures t.template == REPO_TEMPLATE && t.path == path && t.opts == opts
  {
    TemplateFile(REPO_TEMPLATE, path, opts)
  }

  /** `order` lists each option name once and nothing else: the order in
      which the dictionary hands out its entries. */
  ghost predicate IterationOrder(keys: set<string>, order: seq<string>)
  {
    (forall k :: k in keys <==> k in order)
    && forall i, j :: 0 <= i < j < |order| ==> order[i] != order[j]
  }

  /** The first option, in iteration order, whose value is None. */
  function UnsetKey(opts: Opts, order: seq<string>): (r: Option<string>)
    ensures r.Some? ==> r.value in order && r.value in opts && opts[r.value] == NoneV
    ensures r.Some? ==> exists k :: 0 <= k < |order| && order[k] == r.value
                          && forall j :: 0 <= j < k && order[j] in opts ==> opts[order[j]] != NoneV
    ensures r.None? ==> forall i :: 0 <= i < |order| && order[i] in opts ==> opts[order[i]] != NoneV
    decreases |order|
  {
    if order == [] then None
    else if order[0] in opts && opts[order[0]] == NoneV then Some(order[0])
    else UnsetKey(opts, order[1..])
  }

  /** The message of the ValueError for an unset option. */
  function Unset(key: string): string
  {
    "Required key '" + key + "' is not set"
  }

  /** `str(template)`: an option set to None raises ValueError naming the
      first such option met; False values are allowed. Otherwise the engine
      `render` gives the text. */
  function Str(t: TemplateFile, order: seq<string>, render: (string, string, Opts) -> string): (r: Result<string>)
    requires IterationOrder(t.opts.Keys, order)
    ensures r.Failure? <==> exists k :: k in t.opts && t.opts[k] == NoneV
    ensures r.Failure? ==> exists k :: k in t.opts && t.opts[k] == NoneV && r.error == ValueError(Unset(k))
    ensures r.Success? ==> r.value == render(t.path, t.template, t.opts)
  {
    var unset := UnsetKey(t.opts, order);
    if unset.Some? then Failure(ValueError(Unset(unset.value)))
    else
      assert forall k :: k in t.opts ==> t.opts[k] != NoneV by {
        forall k | k in t.opts ensures t.opts[k] != NoneV {
          var i :| 0 <= i < |order| && order[i] == k;
        }
      }
      Success(render(t.path, t.template, t.opts))
  }

  /** A builder whose caller left out one of the required options cannot
      render any of its templates: the default None is still there. With
      no options at all, this is every required option. */
  lemma MissingRequiredFails(template: string, path: string, given: Opts, k: string, order: seq<string>,
                             render: (string, string, Opts) -> string)
    requires k in REQUIRED && k !in given
    requires IterationOrder(WithDefaults(given).Keys, order)
    ensures Str(TemplateFile(template, path, WithDefaults(given)), order, render).Failure?
  {
    RequiredUnset(k);
    var o := WithDefaults(given);
    assert k in o && o[k] == NoneV;
  }

  /** Every required option defaults to None. */
  lemma RequiredUnset(k: string)
    requires k in REQUIRED
    ensures k in DEFAULT_OPTS && DEFAULT_OPTS[k] == NoneV
  {
  }

  // ---- the rpmbuild tree ----

  /** The directories rpmbuild expects, in the order they are made. */
  const RPM_SUBDIRS: seq<string> := ["RPMS", "SPECS", "SOURCES", "BUILD"]

  /** `fs` with a directory for each of `names` made inside `dir`. */
  function WithSubdirs(fs: FileSystem, dir: Path, names: seq<string>): FileSystem
    decreases |names|
  {
    if names == [] then fs
    else WithSubdirs(fs, dir, names[..|names| - 1])[dir + [names[|names| - 1]] := Dir(MKDIR_MODE)]
  }

  /** The entries WithSubdirs adds are exactly the named children. */
  lemma {:induction false} WithSubdirsEntries(fs: FileSystem, dir: Path, names: seq<string>, q: Path)
    ensures q in WithSubdirs(fs, dir, names) <==> q in fs || (exists n :: n in names && q == dir + [n])
    ensures q in WithSubdirs(fs, dir, names) ==>
              WithSubdirs(fs, dir, names)[q] == (if exists n :: n in names && q == dir + [n] then Dir(MKDIR_MODE) else fs[q])
    decreases |names|
  {
    if names != [] {
      var init, last := names[..|names| - 1], names[|names| - 1];
      WithSubdirsEntries(fs, dir, init, q);
      assert forall n :: n in names <==> n in init || n == last by {
        assert names == init + [last];
      }
    }
  }

  /** The tree `create_rpm_dir` leaves: the fresh directory and its four
      subdirectories. */
  function RpmDir(fs: FileSystem, tmp: Path): FileSystem
  {
    WithSubdirs(fs[tmp := Dir(MKDTEMP_MODE)], tmp, RPM_SUBDIRS)
  }

  /** Below the fresh directory there is exactly RPMS, SPECS, SOURCES and
      BUILD, each a directory, and nothing outside it changes. */
  lemma RpmDirLayout(fs: FileSystem, tmp: Path, rel: Path)
    requires Absent(fs, tmp)
    ensures tmp + rel in RpmDir(fs, tmp) <==> rel == [] || (|rel| == 1 && rel[0] in RPM_SUBDIRS)
    ensures tmp + rel in RpmDir(fs, tmp) ==> RpmDir(fs, tmp)[tmp + rel].Dir?
  {
    var fs0 := fs[tmp := Dir(MKDTEMP_MODE)];
    WithSubdirsEntries(fs0, tmp, RPM_SUBDIRS, tmp + rel);
    assert tmp + rel !in fs by {
      assert tmp <= tmp + rel;
    }
    if tmp + rel in RpmDir(fs, tmp) && rel != [] {
      assert tmp + rel != tmp;
      var n :| n in RPM_SUBDIRS && tmp + rel == tmp + [n];
      assert rel == (tmp + rel)[|tmp|..] == (tmp + [n])[|tmp|..] == [n];
    }
    if rel == [] {
      assert tmp + rel == tmp;
    }
    if |rel| == 1 && rel[0] in RPM_SUBDIRS {
      assert tmp + rel == tmp + [rel[0]];
    }
  }

  /** What lies outside the fresh directory is untouched. */
  lemma RpmDirKeeps(fs: FileSystem, tmp: Path, q: Path)
    requires !(tmp <= q)
    ensures q in RpmDir(fs, tmp) <==> q in fs
    ensures q in fs ==> RpmDir(fs, tmp)[q] == fs[q]
  {
    WithSubdirsEntries(fs[tmp := Dir(MKDTEMP_MODE)], tmp, RPM_SUBDIRS, q);
  }

  /** `create_rpm_dir`, where the fresh directory is `name` inside the
      temporary directory `tempRoot`: `tempfile.mkdtemp` makes it, then
      `os.makedirs` makes each subdirectory in turn. A missing temporary
      directory makes mkdtemp raise. */
  method CreateRpmDir(fs: FileSystem, tempRoot: Path, name: string) returns (fs': FileSystem, rpmdir: Result<Path>)
    requires Component(name) && Absent(fs, tempRoot + [name])
    ensures !IsDir(fs, tempRoot) ==> fs' == fs && rpmdir == Failure(ParentError(fs, tempRoot + [name]))
    ensures IsDir(fs, tempRoot) ==> rpmdir == Success(tempRoot + [name]) && fs' == RpmDir(fs, tempRoot + [name])
  {
    var tmp := tempRoot + [name];
    if !IsDir(fs, tempRoot) {
      return fs, Failure(ParentError(fs, tmp));
    }
    assert Parent(tmp) == tempRoot;
    fs' := fs[tmp := Dir(MKDTEMP_MODE)];
    for i := 0 to |RPM_SUBDIRS|
      invariant fs' == WithSubdirs(fs[tmp := Dir(MKDTEMP_MODE)], tmp, RPM_SUBDIRS[..i])
    {
      var sub := tmp + [RPM_SUBDIRS[i]];
      assert Parent(sub) == tmp;
      WithSubdirsEntries(fs[tmp := Dir(MKDTEMP_MODE)], tmp, RPM_SUBDIRS[..i], tmp);
      WithSubdirsEntries(fs[tmp := Dir(MKDTEMP_MODE)], tmp, RPM_SUBDIRS[..i], sub);
      assert sub !in fs by {
        assert tmp <= sub;
      }
      forall n | n in RPM_SUBDIRS[..i] ensures sub != tmp + [n] {
        assert RPM_SUBDIRS[i] !in RPM_SUBDIRS[..i];
        assert (tmp + [n])[|tmp|] == n;
      }
      var made := MakeDirs(fs', sub);
      assert made == Success(fs'[sub := Dir(MKDIR_MODE)]);
      fs' := made.value;
      assert RPM_SUBDIRS[..i + 1][..i] == RPM_SUBDIRS[..i];
    }
    assert RPM_SUBDIRS[..|RPM_SUBDIRS|] == RPM_SUBDIRS;
    return fs', Success(tmp);
  }

  // ---- build ----

  /** The random part of each name `tempfile` picks: the rpmbuild tree,
      the public key, the repository file and the spec file. */
  datatype Names = Names(dir: string, pubkey: string, repofile: string, spec: string)

  /** `tempfile.mktemp(suffix)`: "tmp", the random part, then the suffix. */
  function MktempName(random: string, suffix: string): (r: string)
    ensures StartsWith(r, "tmp") && EndsWith(r, suffix)
  {
    "tmp" + random + suffix
  }

  /** Where `build` puts the public key, the repository file and the spec
      file inside the rpmbuild tree `tmp`. */
  function PubkeyPath(tmp: Path, names: Names): Path
  {
    tmp + ["SOURCES", MktempName(names.pubkey, ".pub")]
  }

  function RepofilePath(tmp: Path, names: Names): Path
  {
    tmp + ["SOURCES", MktempName(names.repofile, ".repo")]
  }

  function SpecPath(tmp: Path, names: Names): Path
  {
    tmp + ["SPECS", MktempName(names.spec, ".spec")]
  }

  /** The builder's state after `build`, and how `build` ended. */
  datatype Built = Built(fs: FileSystem, opts: Opts, repofile: Option<TemplateFile>,
                         specfile: Option<TemplateFile>, out: Outcome)

  /** The option names once `build` has recorded its paths. */
  function BuildKeys(opts: Opts): set<string>
  {
    opts.Keys + {"rpmdir", "pubkey", "repofile"}
  }

  /** The options with the rpmbuild tree and the public key recorded. */
  function Recorded(opts: Opts, tmp: Path, names: Names): (r: Opts)
    ensures r.Keys == opts.Keys + {"rpmdir", "pubkey"}
  {
    opts["rpmdir" := StrV(Render(tmp))]["pubkey" := StrV(Render(PubkeyPath(tmp, names)))]
  }

  /** The options with the repository file recorded as well. */
  function RecordedAll(opts: Opts, tmp: Path, names: Names): (r: Opts)
    ensures r.Keys == BuildKeys(opts)
  {
    Recorded(opts, tmp, names)["repofile" := StrV(Render(RepofilePath(tmp, names)))]
  }

  /** What `build` does to the options `opts`, its templates and the
      filesystem. It records the rpmbuild tree and the public key's name in
      the options, opens the key file and writes the export of `key_name`
      into it (`gpg` gives the export; a key name that is not a string makes
      the export raise TypeError); records the repository file's name, opens
      it and writes the rendered repository template; then opens the spec
      file and fails on the undefined name `write` before rendering the spec.
      Opening a file for writing leaves it empty until it is written. */
  function Building(fs: FileSystem, opts: Opts, path: string, repofile: Option<TemplateFile>,
                    specfile: Option<TemplateFile>, tempRoot: Path, names: Names, gpg: string -> string,
                    render: (string, string, Opts) -> string, order: seq<string>): (r: Built)
    requires Component(names.dir) && Absent(fs, tempRoot + [names.dir])
    requires "key_name" in opts
    requires IterationOrder(BuildKeys(opts), order)
    ensures r.out.Raised?
    ensures r.out == Raised(NameError("write")) <==>
              IsDir(fs, tempRoot) && opts["key_name"].StrV?
              && forall k :: k in RecordedAll(opts, tempRoot + [names.dir], names) ==>
                               RecordedAll(opts, tempRoot + [names.dir], names)[k] != NoneV
  {
    var tmp := tempRoot + [names.dir];
    if !IsDir(fs, tempRoot) then Built(fs, opts, repofile, specfile, Raised(ParentError(fs, tmp)))
    else Exporting(RpmDir(fs, tmp), opts, path, repofile, specfile, tmp, names, gpg, render, order)
  }

  /** `build` once the rpmbuild tree `tmp` is made: the paths are recorded
      and the public key exported. */
  function Exporting(fs: FileSystem, opts: Opts, path: string, repofile: Option<TemplateFile>,
                     specfile: Option<TemplateFile>, tmp: Path, names: Names, gpg: string -> string,
                     render: (string, string, Opts) -> string, order: seq<string>): (r: Built)
    requires "key_name" in opts
    requires IterationOrder(BuildKeys(opts), order)
    ensures r.out.Raised?
    ensures r.out == Raised(NameError("write")) <==>
              opts["key_name"].StrV? && forall k :: k in RecordedAll(opts, tmp, names) ==> RecordedAll(opts, tmp, names)[k] != NoneV
    ensures !opts["key_name"].StrV? ==>
              r == Built(fs[PubkeyPath(tmp, names) := File("")], Recorded(opts, tmp, names), repofile, specfile, Raised(TypeError))
    ensures opts["key_name"].StrV? ==>
              r == Rendering(fs[PubkeyPath(tmp, names) := File(gpg(opts["key_name"].s))], RecordedAll(opts, tmp, names),
                             path, specfile, tmp, names, render, order)
  {
    var pub := PubkeyPath(tmp, names);
    var keyName := opts["key_name"];
    if !keyName.StrV? then Built(fs[pub := File("")], Recorded(opts, tmp, names), repofile, specfile, Raised(TypeError))
    else Rendering(fs[pub := File(gpg(keyName.s))], RecordedAll(opts, tmp, names), path, specfile, tmp, names, render, order)
  }

  /** `build` once the key is exported: the repository file is opened and
      rendered, then the spec file is opened. */
  function Rendering(fs: FileSystem, opts: Opts, path: string, specfile: Option<TemplateFile>, tmp: Path,
                     names: Names, render: (string, string, Opts) -> string, order: seq<string>): (r: Built)
    requires IterationOrder(opts.Keys, order)
    ensures r.out.Raised? && r.opts == opts && r.repofile == Some(RepoFile(path, opts))
    ensures r.out == Raised(NameError("write")) <==> forall k :: k in opts ==> opts[k] != NoneV
    ensures r.out != Raised(NameError("write")) ==> r.out.error.ValueError? && r.specfile == specfile
  {
    var repo := RepoFile(path, opts);
    var text := Str(repo, order, render);
    var repoPath := RepofilePath(tmp, names);
    if text.Failure? then Built(fs[repoPath := File("")], opts, Some(repo), specfile, Raised(text.error))
    else
      Built(fs[repoPath := File(text.value)][SpecPath(tmp, names) := File("")], opts, Some(repo),
            Some(SpecFile(path, opts)), Raised(NameError("write")))
  }

  /** Whenever the rpmbuild tree is made, its directory and the public key's
      name are in the options before anything is rendered, the key file
      lies in SOURCES holding the export or nothing, and the repository
      template is rendered from the options with its own name recorded. */
  lemma BuildRecordsPaths(fs: FileSystem, opts: Opts, path: string, repofile: Option<TemplateFile>,
                          specfile: Option<TemplateFile>, tempRoot: Path, names: Names, gpg: string -> string,
                          render: (string, string, Opts) -> string, order: seq<string>)
    requires Component(names.dir) && Absent(fs, tempRoot + [names.dir])
    requires "key_name" in opts
    requires IterationOrder(BuildKeys(opts), order)
    requires IsDir(fs, tempRoot)
    ensures var r := Building(fs, opts, path, repofile, specfile, tempRoot, names, gpg, render, order);
            var tmp := tempRoot + [names.dir];
            r.opts["rpmdir"] == StrV(Render(tmp))
            && r.opts["pubkey"] == StrV(Render(PubkeyPath(tmp, names)))
            && PubkeyPath(tmp, names) in r.fs
            && r.fs[PubkeyPath(tmp, names)] in {File(""), File(gpg(Show(KeyName(opts))))}
            && (opts["key_name"].StrV? ==>
                  r.repofile == Some(RepoFile(path, r.opts))
                  && r.opts["repofile"] == StrV(Render(RepofilePath(tmp, names))))
  {
    var tmp := tempRoot + [names.dir];
    var r := Building(fs, opts, path, repofile, specfile, tempRoot, names, gpg, render, order);
    assert r == Exporting(RpmDir(fs, tmp), opts, path, repofile, specfile, tmp, names, gpg, render, order);
    ExportingRecords(RpmDir(fs, tmp), opts, path, repofile, specfile, tmp, names, gpg, render, order);
  }

  /** The part of BuildRecordsPaths that happens once the tree is made. */
  lemma ExportingRecords(fs: FileSystem, opts: Opts, path: string, repofile: Option<TemplateFile>,
                         specfile: Option<TemplateFile>, tmp: Path, names: Names, gpg: string -> string,
                         render: (string, string, Opts) -> string, order: seq<string>)
    requires "key_name" in opts
    requires IterationOrder(BuildKeys(opts), order)
    ensures var r := Exporting(fs, opts, path, repofile, specfile, tmp, names, gpg, render, order);
            r.opts["rpmdir"] == StrV(Render(tmp))
            && r.opts["pubkey"] == StrV(Render(PubkeyPath(tmp, names)))
            && PubkeyPath(tmp, names) in r.fs
            && r.fs[PubkeyPath(tmp, names)] in {File(""), File(gpg(Show(KeyName(opts))))}
            && (opts["key_name"].StrV? ==>
                  r.repofile == Some(RepoFile(path, r.opts))
                  && r.opts["repofile"] == StrV(Render(RepofilePath(tmp, names))))
  {
    var pub := PubkeyPath(tmp, names);
    if opts["key_name"].StrV? {
      var fs2 := fs[pub := File(gpg(opts["key_name"].s))];
      PathsApart(tmp, names);
      RenderingKeeps(fs2, RecordedAll(opts, tmp, names), path, specfile, tmp, names, render, order, pub);
    }
  }

  /** Rendering writes only the repository file and the spec file. */
  lemma RenderingKeeps(fs: FileSystem, opts: Opts, path: string, specfile: Option<TemplateFile>, tmp: Path,
                       names: Names, render: (string, string, Opts) -> string, order: seq<string>, q: Path)
    requires IterationOrder(opts.Keys, order)
    requires q in fs && q != RepofilePath(tmp, names) && q != SpecPath(tmp, names)
    ensures var r := Rendering(fs, opts, path, specfile, tmp, names, render, order);
            q in r.fs && r.fs[q] == fs[q]
  {
  }

  /** The three names `build` picks are distinct: the suffixes of the key
      and repository files differ, and the spec lies in SPECS. */
  lemma PathsApart(tmp: Path, names: Names)
    ensures RepofilePath(tmp, names) != PubkeyPath(tmp, names)
    ensures SpecPath(tmp, names) != PubkeyPath(tmp, names)
  {
    assert MktempName(names.repofile, ".repo")[|MktempName(names.repofile, ".repo")| - 1] == 'o';
    assert MktempName(names.pubkey, ".pub")[|MktempName(names.pubkey, ".pub")| - 1] == 'b';
    assert RepofilePath(tmp, names)[|tmp| + 1] == MktempName(names.repofile, ".repo");
    assert PubkeyPath(tmp, names)[|tmp| + 1] == MktempName(names.pubkey, ".pub");
    assert SpecPath(tmp, names)[|tmp|] == "SPECS";
    assert PubkeyPath(tmp, names)[|tmp|] == "SOURCES";
  }

  /** The key name as a string, when it is one. */
  function KeyName(opts: Opts): (r: Option<string>)
    ensures r.Some? <==> "key_name" in opts && opts["key_name"].StrV?
  {
    if "key_name" in opts && opts["key_name"].StrV? then Some(opts["key_name"].s) else None
  }

  /** A builder left with its default key name never reaches the templates:
      the key export raises TypeError on None, and the rpmbuild tree is left
      behind with an empty key file. */
  lemma DefaultKeyStops(fs: FileSystem, given: Opts, path: string, tempRoot: Path, names: Names,
                        gpg: string -> string, render: (string, string, Opts) -> string, order: seq<string>)
    requires "key_name" !in given
    requires Component(names.dir) && Absent(fs, tempRoot + [names.dir])
    requires IterationOrder(BuildKeys(WithDefaults(given)), order)
    requires IsDir(fs, tempRoot)
    ensures var r := Building(fs, WithDefaults(given), path, None, None, tempRoot, names, gpg, render, order);
            var tmp := tempRoot + [names.dir];
            r.out == Raised(TypeError) && r.repofile.None?
            && r.fs == RpmDir(fs, tmp)[PubkeyPath(tmp, names) := File("")]
  {
    assert WithDefaults(given)["key_name"] == NoneV;
  }

  /** A builder of the package: its options and the directory of its
      templates, and the template files the last build made. */
  class PackageBuilder {
    var opts: Opts
    const path: string
    var repofile: Option<TemplateFile>
    var specfile: Option<TemplateFile>

    /** Every default option is present. */
    predicate Valid()
      reads this
    {
      DEFAULT_OPTS.Keys <= opts.Keys
    }

    constructor (opts: Opts, templatePath: string)
      ensures this.opts == WithDefaults(opts) && path == templatePath
      ensures repofile.None? && specfile.None?
      ensures Valid()
    {
      this.opts := WithDefaults(opts);
      path := templatePath;
      repofile := None;
      specfile := None;
    }

    /** `build`, step by step; `order` is the order in which the options,
        with "rpmdir" added, are handed out. */
    method Build(fs: FileSystem, tempRoot: Path, names: Names, gpg: string -> string,
                 render: (string, string, Opts) -> string, order: seq<string>)
      returns (fs': FileSystem, out: Outcome)
      requires Valid()
      requires Component(names.dir) && Absent(fs, tempRoot + [names.dir])
      requires IterationOrder(BuildKeys(opts), order)
      modifies this
      ensures Valid()
      ensures Built(fs', opts, repofile, specfile, out)
              == Building(fs, old(opts), path, old(repofile), old(specfile), tempRoot, names, gpg, render, order)
    {
      var rpmdir;
      fs', rpmdir := CreateRpmDir(fs, tempRoot, names.dir);
      if rpmdir.Failure? {
        return fs', Raised(rpmdir.error);
      }
      fs', out := Export(fs', rpmdir.value, names, gpg, render, order);
    }

    /** The steps of `build` after the rpmbuild tree `tmp` is made: the
        paths are recorded and the public key exported. */
    method Export(fs: FileSystem, tmp: Path, names: Names, gpg: string -> string,
                  render: (string, string, Opts) -> string, order: seq<string>)
      returns (fs': FileSystem, out: Outcome)
      requires Valid()
      requires IterationOrder(BuildKeys(opts), order)
      modifies this
      ensures Valid()
      ensures Built(fs', opts, repofile, specfile, out)
              == Exporting(fs, old(opts), path, old(repofile), old(specfile), tmp, names, gpg, render, order)
    {
      RecordTree(tmp, names);
      var pub := PubkeyPath(tmp, names);
      // The key file is opened before the key is exported.
      fs' := fs[pub := File("")];
      var keyName := opts["key_name"];
      if !keyName.StrV? {
        return fs', Raised(TypeError);
      }
      fs' := fs'[pub := File(gpg(keyName.s))];
      assert fs' == fs[pub := File(gpg(keyName.s))];
      opts := opts["repofile" := StrV(Render(RepofilePath(tmp, names)))];
      assert opts == RecordedAll(old(opts), tmp, names);
      fs', out := RenderFiles(fs', tmp, names, render, order);
    }

    /** The rpmbuild tree and the public key's file name are recorded in
        the options. */
    method RecordTree(tmp: Path, names: Names)
      requires Valid()
      modifies this
      ensures Valid()
      ensures opts == Recorded(old(opts), tmp, names)
      ensures repofile == old(repofile) && specfile == old(specfile)
    {
      opts := opts["rpmdir" := StrV(Render(tmp))];
      opts := opts["pubkey" := StrV(Render(PubkeyPath(tmp, names)))];
    }

    /** The steps of `build` after the key is exported: the repository file
        is opened and rendered, then the spec file is opened and `write`,
        which is not defined, is called before the spec is rendered. */
    method RenderFiles(fs: FileSystem, tmp: Path, names: Names,
                       render: (string, string, Opts) -> string, order: seq<string>)
      returns (fs': FileSystem, out: Outcome)
      requires IterationOrder(opts.Keys, order)
      modifies this
      ensures opts == old(opts)
      ensures Built(fs', opts, repofile, specfile, out)
              == Rendering(fs, old(opts), path, old(specfile), tmp, names, render, order)
    {
      var repoPath := RepofilePath(tmp, names);
      repofile := Some(RepoFile(path, opts));
      fs' := fs[repoPath := File("")];
      var text := Str(repofile.value, order, render);
      if text.Failure? {
        return fs', Raised(text.error);
      }
      fs' := fs[repoPath := File(text.value)];
      specfile := Some(SpecFile(path, opts));
      fs' := fs'[SpecPath(tmp, names) := File("")];
      return fs', Raised(NameError("write"));
    }
  }
}
