/** The fixed layout of a repository tree (NEW_REPO_TEMPL in
    arado/aradoutil.py) and the other constants of the promotion pipeline. */
module Layout {
  import opened Fs

  /** The directories a new repository holds: "rhel/6". */
  const TEMPLATE_DIRS: seq<Path> := [["rhel", "6"]]

  /** A symbolic link of the template: its target text and where it sits. */
  datatype Link = Link(target: string, name: Path)

  /** "centos" points at "rhel"; "rhel/6Server" and "rhel/6Workstation" at "6". */
  const TEMPLATE_LINKS: seq<Link> := [
    Link("rhel", ["centos"]),
    Link("6", ["rhel", "6Server"]),
    Link("6", ["rhel", "6Workstation"])
  ]

  /** The architectures `rebuild_all_repos` looks for, in order. */
  const ARCHES: seq<string> := ["i386", "x86_64"]

  /** Where staging directories are created: "/srv/software/.repotmp". */
  const REPOTMP: Path := ["srv", "software", ".repotmp"]

  const S_IRWXU: bv16 := 0x1C0
  const S_IRWXG: bv16 := 0x38
  const S_IROTH: bv16 := 0x4
  const S_IXOTH: bv16 := 0x1
  const S_ISGID: bv16 := 0x400

  /** The mode a staging directory is given. */
  const STAGING_MODE: bv16 := S_IRWXU | S_IRWXG | S_IROTH | S_IXOTH | S_ISGID

  /** The staging mode is 02775: rwx for owner and group, r-x for others,
      and set-group-ID. */
  lemma StagingModeIs02775()
    ensures STAGING_MODE == 0x5FD
  {
  }
}
