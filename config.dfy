/** The program's configuration (arado/config.py): an INI file, already parsed
    into sections, whose four known categories are read as dictionaries, and
    the search for that file. Which files exist and what they hold are
    parameters. */
module Config {
  import opened Base
  import opened Strings

  /** One section: option names and their values. */
  type Section = map<string, string>

  /** The categories the configuration answers for. */
  const CATEGORIES: seq<string> := ["general", "paths", "projects", "mappings"]

  const UNKNOWN_CATEGORY := "unknown category '"
  const NOT_FOUND := "no config file found!"
  const SYSTEM_FILE := "/etc/arado.conf"
  const LOCAL_NAME := "arado.conf"
  const USER_NAME := "/.arado.conf"

  /** A loaded configuration: the file named to the constructor and the
      sections read from it. */
  datatype Config = Config(file: string, sections: map<string, Section>)

  /** What looking up an attribute `name` on a configuration returns: a
      callable bound to the name. The lookup itself never fails; the name is
      checked when the callable is called. */
  datatype Accessor = Accessor(config: Config, name: string)

  /** Calling an accessor: an unknown category raises ConfigError naming it;
      a known one gives the section as a dictionary of exactly its options
      and their values, or ConfigParser's NoSectionError when the file has no
      such section. */
  function Call(a: Accessor): (r: Result<Section>)
    ensures r.Success? <==> a.name in CATEGORIES && a.name in a.config.sections
    ensures r.Success? ==> r.value.Keys == a.config.sections[a.name].Keys
                           && forall k :: k in r.value ==> r.value[k] == a.config.sections[a.name][k]
    ensures a.name !in CATEGORIES ==> r == Failure(ConfigError(UNKNOWN_CATEGORY + a.name + "'"))
    ensures a.name in CATEGORIES && a.name !in a.config.sections ==> r == Failure(NoSectionError(a.name))
  {
    if a.name !in CATEGORIES then Failure(ConfigError(UNKNOWN_CATEGORY + a.name + "'"))
    else if a.name !in a.config.sections then Failure(NoSectionError(a.name))
    else
      var s := a.config.sections[a.name];
      Success(map key | key in s :: s[key])
  }

  /** `config.filename`. */
  function Filename(c: Config): string
  {
    c.file
  }

  /** `repr(config)`: the file name between "<config: " and ">". */
  function Repr(c: Config): (r: string)
    ensures StartsWith(r, "<config: ") && EndsWith(r, ">")
  {
    "<config: " + c.file + ">"
  }

  /** The file name can be read back from the representation, so two
      configurations print alike exactly when they name the same file. */
  lemma ReprFilename(a: Config, b: Config)
    ensures Repr(a) == Repr(b) <==> Filename(a) == Filename(b)
  {
    if Repr(a) == Repr(b) {
      var n := |"<config: "|;
      assert Repr(a)[n..|Repr(a)| - 1] == a.file;
      assert Repr(b)[n..|Repr(b)| - 1] == b.file;
    }
  }

  /** `os.path.expanduser("~/.arado.conf")` for a home directory `home`:
      trailing slashes of the home directory are dropped. */
  function UserFile(home: string): (r: string)
    ensures EndsWith(r, USER_NAME)
    ensures var h := r[..|r| - |USER_NAME|];
            h <= home && (h == [] || h[|h| - 1] != '/')
            && forall i :: |h| <= i < |home| ==> home[i] == '/'
  {
    TrimSlashes(home) + USER_NAME
  }

  /** `s.rstrip("/")`. */
  function TrimSlashes(s: string): (r: string)
    ensures r <= s && (r == [] || r[|r| - 1] != '/')
    ensures forall i :: |r| <= i < |s| ==> s[i] == '/'
  {
    if s == [] || s[|s| - 1] != '/' then s else TrimSlashes(s[..|s| - 1])
  }

  /** The files `get_config` tries, in order. */
  function Candidates(cwd: string, home: string): (r: seq<string>)
    ensures |r| == 3 && r[0] == SYSTEM_FILE
    ensures r[1] == PathJoin(cwd, LOCAL_NAME) && r[2] == UserFile(home)
  {
    [SYSTEM_FILE, PathJoin(cwd, LOCAL_NAME), UserFile(home)]
  }

  /** `get_config()`, where `isFile` says which paths are regular files and
      `read` gives the sections parsed from a file: the first candidate that
      is a file is loaded; when none is, a bare Exception is raised. */
  function GetConfig(isFile: string -> bool, read: string -> map<string, Section>, cwd: string, home: string)
    : (r: Result<Config>)
    ensures var cs := Candidates(cwd, home);
            (r.Success? <==> exists i :: 0 <= i < |cs| && isFile(cs[i]))
            && (r.Success? ==> exists i :: 0 <= i < |cs| && isFile(cs[i])
                                 && (forall j :: 0 <= j < i ==> !isFile(cs[j]))
                                 && r.value == Config(cs[i], read(cs[i])))
            && (r.Failure? ==> r.error == GenericError(NOT_FOUND))
  {
    var cs := Candidates(cwd, home);
    FirstFile(isFile, read, cs)
  }

  /** The first of three candidates that is a file, loaded. */
  function FirstFile(isFile: string -> bool, read: string -> map<string, Section>, cs: seq<string>)
    : (r: Result<Config>)
    requires |cs| == 3
    ensures (r.Success? <==> exists i :: 0 <= i < |cs| && isFile(cs[i]))
            && (r.Success? ==> exists i :: 0 <= i < |cs| && isFile(cs[i])
                                 && (forall j :: 0 <= j < i ==> !isFile(cs[j]))
                                 && r.value == Config(cs[i], read(cs[i])))
            && (r.Failure? ==> r.error == GenericError(NOT_FOUND))
  {
    if isFile(cs[0]) then Success(Config(cs[0], read(cs[0])))
    else if isFile(cs[1]) then Success(Config(cs[1], read(cs[1])))
    else if isFile(cs[2]) then Success(Config(cs[2], read(cs[2])))
    else Failure(GenericError(NOT_FOUND))
  }
}
