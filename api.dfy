/** The client of the repository-generating web service (arado/api.py): the
    paths a promotion reads from and writes to, and the wrapper around the
    service. The configuration is a parameter, and so is the service: for
    each requested URL, the response it gives, or `None` when the request
    itself fails. */
module Api {
  import opened Base
  import opened Strings
  import Config

  /** What the service answers: a status code and a body. */
  datatype Response = Response(status: int, text: string)

  // ---- PathBuilder ----

  /** The literal pieces of SOURCE_RE, `http://[\w\-\.]+/(.*)/centos/6/x86_64`. */
  const SCHEME := "http://"
  const TAIL := "/centos/6/x86_64"

  /** The class `[\w\-\.]` of the host name. */
  predicate IsHostChar(c: char)
  {
    IsWordChar(c) || c == '-' || c == '.'
  }

  /** The end of the run of host characters starting at `j`. */
  function HostEnd(s: string, j: nat): (k: nat)
    requires j <= |s|
    ensures j <= k <= |s|
    ensures forall m :: j <= m < k ==> IsHostChar(s[m])
    ensures k == |s| || !IsHostChar(s[k])
    decreases |s| - j
  {
    if j == |s| || !IsHostChar(s[j]) then j else HostEnd(s, j + 1)
  }

  /** The end of the line that `j` lies on: what `.` can match from `j` on. */
  function LineEnd(s: string, j: nat): (k: nat)
    requires j <= |s|
    ensures j <= k <= |s|
    ensures forall m :: j <= m < k ==> s[m] != '\n'
    ensures k == |s| || s[k] == '\n'
    decreases |s| - j
  {
    if j == |s| || s[j] == '\n' then j else LineEnd(s, j + 1)
  }

  /** The last position in `[lo, hi]` where TAIL starts. */
  function LastTail(s: string, lo: nat, hi: nat): (r: Option<nat>)
    requires lo <= hi
    ensures r.Some? ==> lo <= r.value <= hi && OccursAt(s, TAIL, r.value)
                        && forall j :: r.value < j <= hi ==> !OccursAt(s, TAIL, j)
    ensures r.None? ==> forall j :: lo <= j <= hi ==> !OccursAt(s, TAIL, j)
    decreases hi - lo
  {
    if OccursAt(s, TAIL, hi) then Some(hi)
    else if hi == lo then None
    else LastTail(s, lo, hi - 1)
  }

  /** A way for SOURCE_RE to match at the start of `s` with `g` as its
      group: the scheme, a non-empty host name, a slash, the group (which
      cannot hold a newline, as `.` does not match one), then TAIL. */
  ghost predicate Splits(s: string, host: string, g: string)
  {
    var hs := |SCHEME|;
    var gs := hs + |host| + 1;
    var ge := gs + |g|;
    |host| > 0 && (forall c :: c in host ==> IsHostChar(c)) && '\n' !in g
    && ge + |TAIL| <= |s| && s[..hs] == SCHEME && s[hs..gs - 1] == host && s[gs - 1] == '/'
    && s[gs..ge] == g && s[ge..ge + |TAIL|] == TAIL
  }

  /** `SOURCE_RE.match(s).groups()[0]`, or `None` when it does not match. The
      match is anchored at the start only, and the greedy group reaches the
      last TAIL on the line. */
  function SourceGroup(s: string): (r: Option<string>)
    ensures r.Some? ==> exists host :: Splits(s, host, r.value)
    ensures r.Some? ==> forall host, g :: Splits(s, host, g) ==> |g| <= |r.value|
    ensures r.None? ==> forall host, g :: !Splits(s, host, g)
  {
    if !StartsWith(s, SCHEME) then
      NoSchemeNoSplits(s);
      None
    else
      var h := HostEnd(s, |SCHEME|);
      if h == |SCHEME| || h == |s| || s[h] != '/' then
        NoHostNoSplits(s);
        None
      else
        var start := h + 1;
        var k := LastTail(s, start, LineEnd(s, start));
        if k.None? then
          NoTailNoSplits(s, h);
          None
        else
          var g := s[start..k.value];
          SplitsOf(s, h, k.value);
          SplitsGreedy(s, h, k.value);
          Some(g)
  }

  /** Without the scheme nothing matches. */
  lemma NoSchemeNoSplits(s: string)
    requires !StartsWith(s, SCHEME)
    ensures forall host, g :: !Splits(s, host, g)
  {
    forall host, g | Splits(s, host, g) ensures false {
      SplitsHost(s, host, g);
    }
  }

  /** Without a host name followed by "/" nothing matches. */
  lemma NoHostNoSplits(s: string)
    requires StartsWith(s, SCHEME)
    requires var h := HostEnd(s, |SCHEME|); h == |SCHEME| || h == |s| || s[h] != '/'
    ensures forall host, g :: !Splits(s, host, g)
  {
    forall host, g | Splits(s, host, g) ensures false {
      SplitsHost(s, host, g);
    }
  }

  /** Without TAIL on the group's line nothing matches. */
  lemma NoTailNoSplits(s: string, h: nat)
    requires StartsWith(s, SCHEME)
    requires h == HostEnd(s, |SCHEME|) && |SCHEME| < h < |s| && s[h] == '/'
    requires LastTail(s, h + 1, LineEnd(s, h + 1)).None?
    ensures forall host, g :: !Splits(s, host, g)
  {
    forall host, g | Splits(s, host, g) ensures false {
      SplitsHost(s, host, g);
      SplitsTail(s, host, g);
    }
  }

  /** No match has a longer group than the one ending at the last TAIL. */
  lemma SplitsGreedy(s: string, h: nat, k: nat)
    requires StartsWith(s, SCHEME)
    requires h == HostEnd(s, |SCHEME|) && |SCHEME| < h < |s| && s[h] == '/'
    requires LastTail(s, h + 1, LineEnd(s, h + 1)) == Some(k)
    ensures forall host, g :: Splits(s, host, g) ==> |g| <= k - (h + 1)
  {
    forall host, g | Splits(s, host, g) ensures |g| <= k - (h + 1) {
      SplitsHost(s, host, g);
      SplitsTail(s, host, g);
    }
  }

  /** In any match the host name is the whole run of host characters after
      the scheme, and a slash follows it. */
  lemma SplitsHost(s: string, host: string, g: string)
    requires Splits(s, host, g)
    ensures StartsWith(s, SCHEME)
    ensures HostEnd(s, |SCHEME|) == |SCHEME| + |host| < |s| && s[|SCHEME| + |host|] == '/'
  {
    HostChars(s, host, g);
    HostRun(s, |SCHEME|, |SCHEME| + |host|);
  }

  /** In any match the characters after the scheme, as many as the host
      has, are host characters, and a slash follows them. */
  lemma HostChars(s: string, host: string, g: string)
    requires Splits(s, host, g)
    ensures StartsWith(s, SCHEME) && |SCHEME| + |host| < |s| && s[|SCHEME| + |host|] == '/'
    ensures forall m :: |SCHEME| <= m < |SCHEME| + |host| ==> IsHostChar(s[m])
  {
    var n := |SCHEME|;
    forall m | n <= m < n + |host| ensures IsHostChar(s[m]) {
      assert s[n..n + |host|][m - n] == s[m];
      assert host[m - n] in host;
    }
  }

  /** A run of host characters ended by a non-host character is the run
      HostEnd finds. */
  lemma HostRun(s: string, j: nat, k: nat)
    requires j <= k < |s|
    requires forall m :: j <= m < k ==> IsHostChar(s[m])
    requires !IsHostChar(s[k])
    ensures HostEnd(s, j) == k
    decreases k - j
  {
    if j < k {
      HostRun(s, j + 1, k);
    }
  }

  /** In any match TAIL starts right after the group, on the group's line. */
  lemma SplitsTail(s: string, host: string, g: string)
    requires Splits(s, host, g)
    ensures var start := |SCHEME| + |host| + 1;
            start + |g| <= LineEnd(s, start) && OccursAt(s, TAIL, start + |g|)
  {
    var start := |SCHEME| + |host| + 1;
    assert forall m :: start <= m < start + |g| ==> s[m] == g[m - start];
  }

  /** The pieces the matcher finds make a match. */
  lemma SplitsOf(s: string, h: nat, k: nat)
    requires StartsWith(s, SCHEME)
    requires h == HostEnd(s, |SCHEME|) && |SCHEME| < h < |s| && s[h] == '/'
    requires h + 1 <= k <= LineEnd(s, h + 1) && OccursAt(s, TAIL, k)
    ensures Splits(s, s[|SCHEME|..h], s[h + 1..k])
  {
    var host, g := s[|SCHEME|..h], s[h + 1..k];
    SplitsOfChars(s, h, k);
    assert |SCHEME| + |host| + 1 == h + 1 && h + 1 + |g| == k;
    assert s[h + 1..k] == g && s[k..k + |TAIL|] == TAIL;
  }

  /** The host the matcher finds is made of host characters and the group
      holds no line break. */
  lemma SplitsOfChars(s: string, h: nat, k: nat)
    requires |SCHEME| <= h < k <= |s|
    requires h == HostEnd(s, |SCHEME|) && k <= LineEnd(s, h + 1)
    ensures forall c :: c in s[|SCHEME|..h] ==> IsHostChar(c)
    ensures '\n' !in s[h + 1..k]
  {
    var host, g := s[|SCHEME|..h], s[h + 1..k];
    forall c | c in host ensures IsHostChar(c) {
      var m :| 0 <= m < |host| && host[m] == c;
      assert host[m] == s[|SCHEME| + m];
    }
    forall m | 0 <= m < |g| ensures g[m] != '\n' {
      assert g[m] == s[h + 1 + m];
    }
  }

  /** A path builder: the project of the service wrapper it was given (None
      without one), the build type and the release, defaulting to None, and
      the configuration. */
  datatype PathBuilder = PathBuilder(project: Option<string>, buildtype: Option<string>,
                                     release: Option<string>, config: Config.Config)

  /** The value of an option of a configuration category, or None when the
      category cannot be read or lacks the option. */
  function Lookup(c: Config.Config, category: string, option: string): (r: Option<string>)
    ensures r.Some? <==> category in Config.CATEGORIES && category in c.sections && option in c.sections[category]
    ensures r.Some? ==> r.value == c.sections[category][option]
  {
    var section := Config.Call(Config.Accessor(c, category));
    if section.Failure? || option !in section.value then None else Some(section.value[option])
  }

  /** `mapping`: the project's entry under "mappings", or None whenever the
      lookup raises or finds nothing. */
  function Mapping(pb: PathBuilder): (r: Option<string>)
    ensures r.Some? <==> pb.project.Some? && "mappings" in pb.config.sections
                         && pb.project.value in pb.config.sections["mappings"]
    ensures r.Some? ==> r.value == pb.config.sections["mappings"][pb.project.value]
  {
    if pb.project.None? then None else Lookup(pb.config, "mappings", pb.project.value)
  }

  /** The "paths" category, whose failure to load is not caught. */
  function Paths(c: Config.Config): (r: Result<Config.Section>)
    ensures r.Success? <==> "paths" in c.sections
    ensures r.Failure? ==> r.error == NoSectionError("paths")
  {
    Config.Call(Config.Accessor(c, "paths"))
  }

  /** `source_path`, given what reading the wrapper's `repository` gave: the
      configured source directory joined with the group SOURCE_RE finds in
      the repository URL. A URL it does not match raises AttributeError, as
      `groups` is then looked up on None. */
  function SourcePath(pb: PathBuilder, repository: Result<string>): (r: Result<string>)
    ensures r.Success? <==> repository.Success? && SourceGroup(repository.value).Some?
                            && "paths" in pb.config.sections
                            && ("source" in pb.config.sections["paths"]
                                || StartsWith(SourceGroup(repository.value).value, "/"))
    ensures r.Success? && "source" in pb.config.sections["paths"] ==>
      r.value == PathJoin(pb.config.sections["paths"]["source"], SourceGroup(repository.value).value)
    ensures repository.Success? && SourceGroup(repository.value).None? ==> r == Failure(AttributeError)
  {
    if repository.Failure? then Failure(repository.error)
    else
      var g := SourceGroup(repository.value);
      if g.None? then Failure(AttributeError)
      else
        var paths := Paths(pb.config);
        if paths.Failure? then Failure(paths.error)
        else
          var source := if "source" in paths.value then Some(paths.value["source"]) else None;
          JoinAll(source, [Some(g.value)])
  }

  /** Whether the build type gets a path segment of its own. */
  predicate TypedBuild(buildtype: Option<string>)
  {
    Truthy(buildtype) && buildtype.value != "release"
  }

  /** `dest_path`: the configured destination, the mapping, the build type
      unless it is empty or "release", and the release, joined. */
  function DestPath(pb: PathBuilder): (r: Result<string>)
    ensures r.Success? ==> "paths" in pb.config.sections && Mapping(pb).Some? && pb.release.Some?
    ensures r.Failure? ==> r.error in {NoSectionError("paths"), AttributeError}
  {
    var paths := Paths(pb.config);
    if paths.Failure? then Failure(paths.error)
    else
      var dest := if "destination" in paths.value then Some(paths.value["destination"]) else None;
      var parts := if TypedBuild(pb.buildtype) then [Mapping(pb), pb.buildtype, pb.release]
                   else [Mapping(pb), pb.release];
      var r := JoinAll(dest, parts);
      assert r.Success? ==> parts[0].Some? && parts[|parts| - 1].Some?;
      r
  }

  /** A path segment that joins without surprises: non-empty, neither
      starting nor ending with "/". */
  predicate Plain(x: string)
  {
    x != "" && x[0] != '/' && x[|x| - 1] != '/'
  }

  /** With plain segments, the destination path is the destination, the
      mapping, the build type exactly when it is neither empty nor "release",
      and the release, separated by single slashes. */
  lemma DestPathSegments(pb: PathBuilder)
    requires "paths" in pb.config.sections && "destination" in pb.config.sections["paths"]
    requires Mapping(pb).Some? && pb.release.Some?
    requires Plain(pb.config.sections["paths"]["destination"]) && Plain(Mapping(pb).value) && Plain(pb.release.value)
    requires Truthy(pb.buildtype) ==> Plain(pb.buildtype.value)
    ensures DestPath(pb) == Success(pb.config.sections["paths"]["destination"] + "/" + Mapping(pb).value
                                    + (if TypedBuild(pb.buildtype) then "/" + pb.buildtype.value else "")
                                    + "/" + pb.release.value)
  {
    var d, m, rel := pb.config.sections["paths"]["destination"], Mapping(pb).value, pb.release.value;
    PlainJoin(d, m);
    var dm := d + "/" + m;
    if TypedBuild(pb.buildtype) {
      var bt := pb.buildtype.value;
      PlainJoin(dm, bt);
      PlainJoin(dm + "/" + bt, rel);
      assert [Some(m), Some(bt), Some(rel)][1..] == [Some(bt), Some(rel)];
      assert [Some(bt), Some(rel)][1..] == [Some(rel)];
      var paths := Paths(pb.config);
      assert paths.Success? && "destination" in paths.value && paths.value["destination"] == d;
      assert JoinAll(Some(dm + "/" + bt), [Some(rel)]) == Success(dm + "/" + bt + "/" + rel);
      assert JoinAll(Some(dm), [Some(bt), Some(rel)]) == JoinAll(Some(dm + "/" + bt), [Some(rel)]);
      assert JoinAll(Some(d), [Some(m), Some(bt), Some(rel)]) == JoinAll(Some(dm), [Some(bt), Some(rel)]);
      assert DestPath(pb) == JoinAll(Some(d), [Mapping(pb), pb.buildtype, pb.release]);
      assert d + "/" + m + ("/" + bt) + "/" + rel == dm + "/" + bt + "/" + rel;
    } else {
      PlainJoin(dm, rel);
      var paths := Paths(pb.config);
      assert paths.Success? && "destination" in paths.value && paths.value["destination"] == d;
      assert [Some(m), Some(rel)][1..] == [Some(rel)];
      assert JoinAll(Some(dm), [Some(rel)]) == Success(dm + "/" + rel);
      assert JoinAll(Some(d), [Some(m), Some(rel)]) == JoinAll(Some(dm), [Some(rel)]);
      assert DestPath(pb) == JoinAll(Some(d), [Mapping(pb), pb.release]);
      assert d + "/" + m + "" + "/" + rel == dm + "/" + rel;
    }
  }

  /** Joining a plain segment onto a path that does not end in "/" inserts
      one "/" and gives a path that again does not end in "/". */
  lemma PlainJoin(a: string, b: string)
    requires a != "" && a[|a| - 1] != '/' && Plain(b)
    ensures PathJoin(a, b) == a + "/" + b
    ensures var r := a + "/" + b; r != "" && r[|r| - 1] != '/'
  {
  }

  // ---- APIWrapper ----

  /** The request the wrapper sends for its repository: API_TEMPL formatted
      with the service address, the project's URL and the commit, where a
      missing value prints as "None". */
  function RepositoryRequest(api: Option<string>, url: Option<string>, commit: string): string
  {
    Show(api) + "?distro=centos&releasever=6&arch=x86_64&url=" + Show(url) + "&ref=" + commit + "&allow-old=true"
  }

  /** The query that lists a repository's packages. */
  const PACKAGE_QUERY := "?F=0&P=*.rpm"

  /** A non-empty list: Python's truthiness of an optional list. */
  predicate Cached(cache: Option<seq<string>>)
  {
    cache.Some? && cache.value != []
  }

  /** `repository` for a request and the service: a 200 answer gives its body
      without trailing whitespace, any other status raises PromotionError
      with the body, and a failed request raises. */
  function Fetch(request: string, http: string -> Option<Response>): (r: Result<string>)
    ensures r.Success? <==> http(request).Some? && http(request).value.status == 200
    ensures r.Success? ==> r.value == RStrip(http(request).value.text)
    ensures http(request).Some? && http(request).value.status != 200 ==>
      r == Failure(PromotionError(http(request).value.text))
    ensures http(request).None? ==> r == Failure(RequestFailed)
  {
    match http(request)
    case None => Failure(RequestFailed)
    case Some(resp) =>
      if resp.status != 200 then Failure(PromotionError(resp.text)) else Success(RStrip(resp.text))
  }

  class APIWrapper {
    const project: string
    const commit: string
    const config: Config.Config
    /** The package list kept between calls of `packages`; None at first. */
    var cachedPackages: Option<seq<string>>

    constructor (project: string, commit: string, config: Config.Config)
      ensures this.project == project && this.commit == commit && this.config == config
      ensures cachedPackages == None
    {
      this.project := project;
      this.commit := commit;
      this.config := config;
      cachedPackages := None;
    }

    /** `url`: the project's entry under "projects", or None. */
    function Url(): (r: Option<string>)
      ensures r.Some? <==> "projects" in config.sections && project in config.sections["projects"]
    {
      Lookup(config, "projects", project)
    }

    /** `api`: the "api-url" entry under "general", or None. */
    function ApiUrl(): (r: Option<string>)
      ensures r.Some? <==> "general" in config.sections && "api-url" in config.sections["general"]
    {
      Lookup(config, "general", "api-url")
    }

    /** `repository`: one request to the service. */
    function Repository(http: string -> Option<Response>): (r: Result<string>)
      ensures r == Fetch(RepositoryRequest(ApiUrl(), Url(), commit), http)
    {
      Fetch(RepositoryRequest(ApiUrl(), Url(), commit), http)
    }

    /** `packages`: a non-empty cached list is returned without a request.
        Otherwise the repository and then its package listing are requested;
        the links read from the listing come back as a generator, which
        cannot be sliced, so storing them always raises. Every exception is
        caught: the cache is never written and the answer is the empty list. */
    method Packages(http: string -> Option<Response>) returns (pkgs: seq<string>, requests: seq<string>)
      modifies this
      ensures cachedPackages == old(cachedPackages)
      ensures Cached(cachedPackages) ==> pkgs == cachedPackages.value && requests == []
      ensures !Cached(cachedPackages) ==> pkgs == []
      ensures !Cached(cachedPackages) ==>
        requests == [RepositoryRequest(ApiUrl(), Url(), commit)]
                    + (if Repository(http).Success? then [Repository(http).value + PACKAGE_QUERY] else [])
    {
      if Cached(cachedPackages) {
        return cachedPackages.value, [];
      }
      requests := [RepositoryRequest(ApiUrl(), Url(), commit)];
      var repo := Repository(http);
      if repo.Failure? {
        return [], requests;
      }
      var listing := repo.value + PACKAGE_QUERY;
      requests := requests + [listing];
      var resp := http(listing);
      if resp.None? || resp.value.status != 200 {
        return [], requests;
      }
      // Slicing the generator of links raises TypeError, caught below.
      return [], requests;
    }
  }

  /** A fresh wrapper answers `packages` with the empty list, and keeps doing
      so however often it is asked. */
  method FreshPackagesEmpty(project: string, commit: string, config: Config.Config,
                            http: string -> Option<Response>, calls: nat)
    returns (answers: seq<seq<string>>)
    ensures |answers| == calls && forall i :: 0 <= i < calls ==> answers[i] == []
  {
    var w := new APIWrapper(project, commit, config);
    answers := [];
    while |answers| < calls
      invariant |answers| <= calls
      invariant w.cachedPackages == None
      invariant forall i :: 0 <= i < |answers| ==> answers[i] == []
    {
      var pkgs, _ := w.Packages(http);
      answers := answers + [pkgs];
    }
  }
}
