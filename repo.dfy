/** The older client of the repository-generating service (arado/repo.py):
    fixed source and destination roots, project tables built into the code,
    and the same caching wrapper. The service is a parameter, as in Api, and
    so is the HTML parser that lists the links of a directory page. */
module Repo {
  import opened Base
  import opened Strings
  import Api

  // ---- PathBuilder ----

  const SRC_PATH := "/srv/build-repo/repository/release"
  const DEST_PATH := "/srv/software/releases"

  /** Where each known project's releases live. */
  const PATH_MAP: map<string, string> := map[
    "eucalyptus" := "eucalyptus",
    "enterprise" := "enterprise",
    "eucadw" := "eucalyptus",
    "eucalyptus-console" := "eucalyptus"
  ]

  /** `project_path`: the project's release directory, or None for a project
      the table does not know (the KeyError is caught). */
  function ProjectPath(project: string): (r: Option<string>)
    ensures r.Some? <==> project in {"eucalyptus", "enterprise", "eucadw", "eucalyptus-console"}
    ensures r.Some? ==> r.value in {"eucalyptus", "enterprise"}
    ensures r == Some("enterprise") <==> project == "enterprise"
  {
    if project in PATH_MAP then Some(PATH_MAP[project]) else None
  }

  /** The two pieces `source_path` deletes from the repository URL. */
  const API_SERVER := "packages.release.eucalyptus-systems.com"
  const SERVER_PREFIX := "http://" + API_SERVER + "/"
  const TAIL := "/centos/6/x86_64"

  /** `source_path`, given what reading `repository` gave: every occurrence
      of the server prefix and of TAIL is deleted from the URL, and what is
      left is joined onto SRC_PATH. */
  function SourcePath(repository: Result<string>): (r: Result<string>)
    ensures r.Success? <==> repository.Success?
    ensures r.Failure? ==> r == Failure(repository.error)
    ensures r.Success? ==> EndsWith(r.value, ReplaceAll(ReplaceAll(repository.value, SERVER_PREFIX, ""), TAIL, ""))
  {
    if repository.Failure? then Failure(repository.error)
    else Success(PathJoin(SRC_PATH, ReplaceAll(ReplaceAll(repository.value, SERVER_PREFIX, ""), TAIL, "")))
  }

  /** For a URL the service hands out, the server prefix, a middle part and
      TAIL, the source path is SRC_PATH joined with the middle part. The
      middle part holds no ':' (so no second server prefix) and TAIL occurs
      in it only at its end. */
  lemma SourcePathOfRepository(g: string)
    requires ':' !in g
    requires forall i :: 0 <= i < |g| ==> !OccursAt(g + TAIL, TAIL, i)
    ensures SourcePath(Success(SERVER_PREFIX + g + TAIL)) == Success(PathJoin(SRC_PATH, g))
  {
    var s := SERVER_PREFIX + g + TAIL;
    var once := ReplaceAll(s, SERVER_PREFIX, "");
    assert once == g + TAIL by {
      ReplaceHead(SERVER_PREFIX, g + TAIL, "");
      assert s == SERVER_PREFIX + (g + TAIL);
      NoPrefixIn(g);
      ReplaceAbsent(g + TAIL, SERVER_PREFIX, "");
    }
    assert ReplaceAll(once, TAIL, "") == g by {
      TailOnlyAtEnd(g);
    }
  }

  /** Text that starts with the pattern loses that occurrence first. */
  lemma ReplaceHead(pat: string, rest: string, rep: string)
    requires pat != ""
    ensures ReplaceAll(pat + rest, pat, rep) == rep + ReplaceAll(rest, pat, rep)
  {
    assert (pat + rest)[..|pat|] == pat;
    assert (pat + rest)[|pat|..] == rest;
  }

  /** Deleting TAIL from a text where it occurs only at the end leaves the
      part before it. */
  lemma TailOnlyAtEnd(g: string)
    requires forall i :: 0 <= i < |g| ==> !OccursAt(g + TAIL, TAIL, i)
    ensures ReplaceAll(g + TAIL, TAIL, "") == g
  {
    ReplaceSkips(g + TAIL, TAIL, "", |g|);
    assert (g + TAIL)[..|g|] == g;
    assert (g + TAIL)[|g|..] == TAIL;
    ReplaceHead(TAIL, [], "");
    assert TAIL + [] == TAIL;
  }

  /** The server prefix holds a ':' at position 4, and nothing after a
      colon-free part supplies one. */
  lemma NoPrefixIn(g: string)
    requires ':' !in g
    ensures forall i :: 0 <= i <= |g + TAIL| ==> !OccursAt(g + TAIL, SERVER_PREFIX, i)
  {
    var t := g + TAIL;
    forall i | 0 <= i <= |t| ensures !OccursAt(t, SERVER_PREFIX, i) {
      if i + |SERVER_PREFIX| <= |t| {
        assert t[i..i + |SERVER_PREFIX|][4] == t[i + 4];
        if i + 4 < |g| {
          assert t[i + 4] == g[i + 4];
        }
      }
    }
  }

  /** The destination: DEST_PATH, the project path, the build type when
      `typed`, and the release, joined by `os.path.join`. A None segment
      makes it raise AttributeError. */
  function DestJoin(project: string, typed: bool, buildtype: Option<string>, release: Option<string>)
    : (r: Result<string>)
    ensures r.Success? <==> ProjectPath(project).Some? && release.Some? && (typed ==> buildtype.Some?)
    ensures r.Failure? ==> r.error == AttributeError
  {
    var parts := if typed then [ProjectPath(project), buildtype, release] else [ProjectPath(project), release];
    var r := JoinAll(Some(DEST_PATH), parts);
    assert r.Success? ==> parts[0].Some? && parts[|parts| - 1].Some? && (typed ==> parts[1].Some?);
    r
  }

  /** `dest_path` as written: the build type gets its own segment when it
      is truthy and `buildtype is not "release"` holds. That is an identity
      test; `identical` says whether the build type is the very string
      object of the literal, which only an interned "release" can be. */
  function DestPathAsWritten(project: string, buildtype: Option<string>, release: Option<string>, identical: bool)
    : (r: Result<string>)
    requires identical ==> buildtype == Some("release")
    ensures r.Success? <==> ProjectPath(project).Some? && release.Some?
  {
    DestJoin(project, Truthy(buildtype) && !identical, buildtype, release)
  }

  /** `dest_path` with the comparison by value that is meant: the build type
      gets a segment exactly when it is neither empty nor "release". */
  function DestPath(project: string, buildtype: Option<string>, release: Option<string>): (r: Result<string>)
    ensures r.Success? <==> ProjectPath(project).Some? && release.Some?
    ensures r.Failure? ==> r.error == AttributeError
  {
    DestJoin(project, Api.TypedBuild(buildtype), buildtype, release)
  }

  /** A "release" build type read from the command line is a string equal
      to the literal but not the same object, and then gets a segment of
      its own; compared by value it gets none. */
  lemma ReleaseSegmentKept()
    ensures DestPathAsWritten("eucalyptus", Some("release"), Some("3.2"), false)
            == Success("/srv/software/releases/eucalyptus/release/3.2")
  {
    ReleaseSegmentPlain();
    DestJoinPlain("eucalyptus", true, Some("release"), Some("3.2"));
    KeptText();
    assert DestPathAsWritten("eucalyptus", Some("release"), Some("3.2"), false)
           == DestJoin("eucalyptus", true, Some("release"), Some("3.2"));
  }

  lemma KeptText()
    ensures DEST_PATH + "/" + "eucalyptus" + ("/" + "release") + "/" + "3.2"
            == "/srv/software/releases/eucalyptus/release/3.2"
  {
    assert DEST_PATH + "/" + "eucalyptus" == "/srv/software/releases/eucalyptus";
    assert "/srv/software/releases/eucalyptus" + ("/" + "release") == "/srv/software/releases/eucalyptus/release";
    assert "/srv/software/releases/eucalyptus/release" + "/" + "3.2" == "/srv/software/releases/eucalyptus/release/3.2";
  }

  /** The same build type compared by value gets no segment. */
  lemma ReleaseSegmentDropped()
    ensures DestPath("eucalyptus", Some("release"), Some("3.2"))
            == Success("/srv/software/releases/eucalyptus/3.2")
  {
    ReleaseSegmentPlain();
    assert !Api.TypedBuild(Some("release"));
    DestJoinPlain("eucalyptus", false, Some("release"), Some("3.2"));
    DroppedText();
    assert DestPath("eucalyptus", Some("release"), Some("3.2"))
           == DestJoin("eucalyptus", false, Some("release"), Some("3.2"));
  }

  lemma DroppedText()
    ensures DEST_PATH + "/" + "eucalyptus" + "" + "/" + "3.2" == "/srv/software/releases/eucalyptus/3.2"
  {
    assert DEST_PATH + "/" + "eucalyptus" == "/srv/software/releases/eucalyptus";
    assert "/srv/software/releases/eucalyptus" + "" + "/" + "3.2" == "/srv/software/releases/eucalyptus/3.2";
  }

  /** The segments of the example are plain. */
  lemma ReleaseSegmentPlain()
    ensures ProjectPath("eucalyptus") == Some("eucalyptus")
    ensures Api.Plain("release") && Api.Plain("3.2") && Truthy(Some("release"))
  {
  }

  /** With plain segments, the destination is DEST_PATH, the project path,
      the build type when it is given a segment, and the release, separated
      by single slashes. */
  lemma DestJoinPlain(project: string, typed: bool, buildtype: Option<string>, release: Option<string>)
    requires ProjectPath(project).Some? && release.Some? && Api.Plain(release.value)
    requires typed ==> buildtype.Some? && Api.Plain(buildtype.value)
    ensures DestJoin(project, typed, buildtype, release)
            == Success(DEST_PATH + "/" + ProjectPath(project).value
                       + (if typed then "/" + buildtype.value else "")
                       + "/" + release.value)
  {
    var m, rel := ProjectPath(project).value, release.value;
    Api.PlainJoin(DEST_PATH, m);
    var dm := DEST_PATH + "/" + m;
    if typed {
      var bt := buildtype.value;
      Api.PlainJoin(dm, bt);
      Api.PlainJoin(dm + "/" + bt, rel);
      assert [Some(m), Some(bt), Some(rel)][1..] == [Some(bt), Some(rel)];
      assert [Some(bt), Some(rel)][1..] == [Some(rel)];
      assert JoinAll(Some(dm + "/" + bt), [Some(rel)]) == Success(dm + "/" + bt + "/" + rel);
      assert JoinAll(Some(dm), [Some(bt), Some(rel)]) == JoinAll(Some(dm + "/" + bt), [Some(rel)]);
      assert JoinAll(Some(DEST_PATH), [Some(m), Some(bt), Some(rel)]) == JoinAll(Some(dm), [Some(bt), Some(rel)]);
      assert DEST_PATH + "/" + m + ("/" + bt) + "/" + rel == dm + "/" + bt + "/" + rel;
    } else {
      Api.PlainJoin(dm, rel);
      assert [Some(m), Some(rel)][1..] == [Some(rel)];
      assert JoinAll(Some(dm), [Some(rel)]) == Success(dm + "/" + rel);
      assert JoinAll(Some(DEST_PATH), [Some(m), Some(rel)]) == JoinAll(Some(dm), [Some(rel)]);
      assert DEST_PATH + "/" + m + "" + "/" + rel == dm + "/" + rel;
    }
  }

  /** The identity test and the value test disagree only on a "release"
      build type that is not the interned literal. */
  lemma DestPathAgrees(project: string, buildtype: Option<string>, release: Option<string>, identical: bool)
    requires identical ==> buildtype == Some("release")
    ensures DestPathAsWritten(project, buildtype, release, identical) != DestPath(project, buildtype, release)
            ==> buildtype == Some("release") && !identical
  {
  }

  // ---- APIWrapper ----

  /** Where each known project's source lives. */
  const REPO_MAP: map<string, string> := map[
    "eucalyptus" := "repo-euca@git.eucalyptus-systems.com:eucalyptus",
    "enterprise" := "repo-euca@git.eucalyptus-systems.com:internal",
    "eucadw" := "https://github.com/eucalyptus/bodega.git",
    "eucalyptus-console" := "https://github.com/eucalyptus/eucalyptus-ui.git"
  ]

  /** `url`: the project's source repository, or None. */
  function Url(project: string): (r: Option<string>)
    ensures r.Some? <==> ProjectPath(project).Some?
  {
    if project in REPO_MAP then Some(REPO_MAP[project]) else None
  }

  /** The request for a repository: API_TEMPL formatted with `%`, the server
      name, the project's URL ("None" when unknown) and the commit. */
  function RepositoryRequest(url: Option<string>, commit: string): (r: string)
    ensures StartsWith(r, SERVER_PREFIX)
  {
    SERVER_PREFIX + ("api/1/genrepo?distro=centos&releasever=6&arch=x86_64&url=" + Show(url)
                     + "&ref=" + commit + "&allow-old=true")
  }

  /** The query that lists a repository's packages. */
  const PACKAGE_QUERY := "?F=0&P=*.rpm"

  class APIWrapper {
    const project: string
    const commit: string
    const release: Option<string>
    /** The package list kept between calls of `packages`; None at first. */
    var cachedPackages: Option<seq<string>>

    constructor (project: string, commit: string, release: Option<string>)
      ensures this.project == project && this.commit == commit && this.release == release
      ensures cachedPackages == None
    {
      this.project := project;
      this.commit := commit;
      this.release := release;
      cachedPackages := None;
    }

    /** `repository`: one request to the package server; a 200 answer gives
        its body without trailing whitespace, any other status raises
        PromotionError with the body. */
    function Repository(http: string -> Option<Api.Response>): (r: Result<string>)
      ensures r.Success? <==> http(RepositoryRequest(Url(project), commit)).Some?
                              && http(RepositoryRequest(Url(project), commit)).value.status == 200
      ensures r.Success? ==> r.value == RStrip(http(RepositoryRequest(Url(project), commit)).value.text)
      ensures var resp := http(RepositoryRequest(Url(project), commit));
              resp.Some? && resp.value.status != 200 ==> r == Failure(PromotionError(resp.value.text))
      ensures http(RepositoryRequest(Url(project), commit)).None? ==> r == Failure(RequestFailed)
    {
      Api.Fetch(RepositoryRequest(Url(project), commit), http)
    }

    /** `packages`, where `links` gives the link texts of a directory page.
        A non-empty cached list is returned without a request. Otherwise the
        repository and then its listing are requested, and the links but
        the first (the parent directory) become the cache and the answer.
        Any failure on the way is caught: the answer is then the empty list
        and the cache is left as it was. */
    method Packages(http: string -> Option<Api.Response>, links: string -> seq<string>)
      returns (pkgs: seq<string>, requests: seq<string>)
      modifies this
      ensures Api.Cached(old(cachedPackages)) ==>
                pkgs == old(cachedPackages).value && requests == [] && cachedPackages == old(cachedPackages)
      ensures !Api.Cached(old(cachedPackages)) ==>
                requests == [RepositoryRequest(Url(project), commit)]
                            + (if Repository(http).Success? then [Repository(http).value + PACKAGE_QUERY] else [])
      ensures !Api.Cached(old(cachedPackages)) && Repository(http).Failure? ==>
                pkgs == [] && cachedPackages == old(cachedPackages)
      ensures !Api.Cached(old(cachedPackages)) && Repository(http).Success? ==>
                var listing := Repository(http).value + PACKAGE_QUERY;
                if Api.Fetch(listing, http).Success? then
                  var ls := links(http(listing).value.text);
                  pkgs == (if ls == [] then [] else ls[1..]) && cachedPackages == Some(pkgs)
                else
                  pkgs == [] && cachedPackages == old(cachedPackages)
    {
      if Api.Cached(cachedPackages) {
        return cachedPackages.value, [];
      }
      requests := [RepositoryRequest(Url(project), commit)];
      var repo := Repository(http);
      if repo.Failure? {
        return [], requests;
      }
      var listing := repo.value + PACKAGE_QUERY;
      requests := requests + [listing];
      var resp := http(listing);
      if resp.None? || resp.value.status != 200 {
        return [], requests;
      }
      var ls := links(resp.value.text);
      pkgs := if ls == [] then [] else ls[1..];
      cachedPackages := Some(pkgs);
    }
  }

  /** Asking twice: once the first answer holds a package, the second is the
      same list and sends no request. */
  method PackagesTwice(w: APIWrapper, http: string -> Option<Api.Response>, links: string -> seq<string>)
    returns (first: seq<string>, second: seq<string>, requests: seq<string>)
    modifies w
    ensures first != [] ==> second == first && requests == []
  {
    var sent;
    first, sent := w.Packages(http, links);
    second, requests := w.Packages(http, links);
  }
}
