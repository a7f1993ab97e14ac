/** The command environment of arado/utils.py: commands optionally run inside
    a chroot, with the source directory bind-mounted into it for the duration
    of a `with` block. The shell is a parameter; what is sent to it is logged. */
module Environment {
  import opened Base
  import opened Strings

  /** Where `src` is mounted inside the chroot when no destination is given. */
  const DEFAULT_DEST := "/mnt"

  /** A command as the callers pass it: one string, or a list of words. */
  datatype Command = Line(text: string) | Words(words: seq<string>)

  /** The command text before prefixing: a list is joined with single spaces. */
  function CommandText(cmd: Command): string
  {
    match cmd
    case Line(text) => text
    case Words(words) => JoinWith(" ", words)
  }

  /** Joining a list of space-free words loses nothing: splitting the text on
      spaces gives the words back. */
  lemma CommandWords(words: seq<string>)
    requires words != []
    requires forall i :: 0 <= i < |words| ==> ' ' !in words[i]
    ensures Split(CommandText(Words(words)), ' ') == words
  {
    SplitJoin(words, ' ');
  }

  /** The prefix that runs a command inside `chroot`; only a missing chroot
      gives none (an empty chroot path still gives a prefix). */
  function Prefix(chroot: Option<string>): (r: string)
    ensures r == "" <==> chroot.None?
    ensures chroot.Some? ==> StartsWith(r, CHROOT_BIN + " ") && EndsWith(r, chroot.value + " ")
  {
    if chroot.None? then "" else CHROOT_BIN + " " + chroot.value + " "
  }

  /** The line a command runs as: the prefix, then the command text. */
  function CommandLine(chroot: Option<string>, cmd: Command): (r: string)
    ensures StartsWith(r, Prefix(chroot))
    ensures r[|Prefix(chroot)|..] == CommandText(cmd)
  {
    Prefix(chroot) + CommandText(cmd)
  }

  /** The lines a sequence of commands runs as, in order. */
  function CommandLines(chroot: Option<string>, cmds: seq<Command>): (r: seq<string>)
    ensures |r| == |cmds|
  {
    if cmds == [] then [] else CommandLines(chroot, cmds[..|cmds| - 1]) + [CommandLine(chroot, cmds[|cmds| - 1])]
  }

  /** Each command runs as its own line, in the position of the command. */
  lemma {:induction false} CommandLinesAt(chroot: Option<string>, cmds: seq<Command>, i: nat)
    requires i < |cmds|
    ensures CommandLines(chroot, cmds)[i] == CommandLine(chroot, cmds[i])
    decreases |cmds|
  {
    if i < |cmds| - 1 {
      CommandLinesAt(chroot, cmds[..|cmds| - 1], i);
    }
  }

  /** One more command adds its line at the end. */
  lemma CommandLinesNext(chroot: Option<string>, cmds: seq<Command>, i: nat)
    requires i < |cmds|
    ensures CommandLines(chroot, cmds[..i + 1]) == CommandLines(chroot, cmds[..i]) + [CommandLine(chroot, cmds[i])]
  {
    assert cmds[..i + 1][..i] == cmds[..i];
  }

  /** The exit statuses of a sequence of commands, in order. */
  function Exits(chroot: Option<string>, cmds: seq<Command>, shell: string -> int): (r: seq<int>)
    ensures |r| == |cmds|
  {
    if cmds == [] then [] else Exits(chroot, cmds[..|cmds| - 1], shell) + [shell(CommandLine(chroot, cmds[|cmds| - 1]))]
  }

  /** Each command's status sits in the position of the command. */
  lemma {:induction false} ExitsAt(chroot: Option<string>, cmds: seq<Command>, i: nat, shell: string -> int)
    requires i < |cmds|
    ensures Exits(chroot, cmds, shell)[i] == shell(CommandLine(chroot, cmds[i]))
    decreases |cmds|
  {
    if i < |cmds| - 1 {
      ExitsAt(chroot, cmds[..|cmds| - 1], i, shell);
    }
  }

  /** One more command adds its status at the end. */
  lemma ExitsNext(chroot: Option<string>, cmds: seq<Command>, i: nat, shell: string -> int)
    requires i < |cmds|
    ensures Exits(chroot, cmds[..i + 1], shell) == Exits(chroot, cmds[..i], shell) + [shell(CommandLine(chroot, cmds[i]))]
  {
    assert cmds[..i + 1][..i] == cmds[..i];
  }

  function MountLine(src: Option<string>, dst: Option<string>): string
  {
    "mount --bind " + Show(src) + " " + Show(dst)
  }

  function UmountLine(dst: Option<string>): string
  {
    "umount " + Show(dst)
  }

  class CommandEnvironment {
    var src: Option<string>
    var dst: Option<string>
    var chroot: Option<string>
    /** Whether the bind mount is currently in place. */
    var mounted: bool
    /** Whether entering the environment mounts `src` onto `dst`. */
    var doMount: bool
    /** The lines handed to `os.system`, oldest first. */
    var log: seq<string>

    /** What the constructor establishes and every method keeps: a mount is
        planned exactly when both a chroot and a source are given, it then has
        a destination, and without it the destination is the source. */
    predicate Valid()
      reads this
    {
      (doMount <==> chroot.Some? && src.Some?)
      && (doMount ==> dst.Some?)
      && (!doMount ==> dst == src)
    }

    constructor (chroot: Option<string>, src: Option<string>, dst: Option<string>)
      ensures Valid()
      ensures this.chroot == chroot && this.src == src
      ensures doMount ==> this.dst == (if dst.None? then Some(DEFAULT_DEST) else dst)
      ensures !mounted && log == []
    {
      this.src := src;
      this.dst := dst;
      this.chroot := chroot;
      this.mounted := false;
      this.doMount := false;
      this.log := [];
      new;
      if chroot.Some? && src.Some? {
        doMount := true;
        if dst.None? {
          this.dst := Some(DEFAULT_DEST);
        }
      } else {
        this.dst := this.src;
      }
    }

    /** `chroot_prefix`. */
    function ChrootPrefix(): (r: string)
      reads this
      ensures r == Prefix(chroot)
    {
      Prefix(chroot)
    }

    /** `_get_cmd`. */
    function GetCmd(cmd: Command): (r: string)
      reads this
      ensures r == CommandLine(chroot, cmd)
    {
      ChrootPrefix() + CommandText(cmd)
    }

    /** `exec_with_exitcode`: run the command through the shell and return its
        exit status. */
    method ExecWithExitcode(cmd: Command, shell: string -> int) returns (status: int)
      modifies this
      ensures status == shell(CommandLine(chroot, cmd))
      ensures log == old(log) + [CommandLine(chroot, cmd)]
      ensures src == old(src) && dst == old(dst) && chroot == old(chroot)
      ensures mounted == old(mounted) && doMount == old(doMount)
    {
      var line := GetCmd(cmd);
      log := log + [line];
      status := shell(line);
    }

    method Mount()
      requires Valid()
      modifies this
      ensures Valid() && mounted
      ensures log == old(log) + [MountLine(src, dst)]
      ensures src == old(src) && dst == old(dst) && chroot == old(chroot) && doMount == old(doMount)
    {
      log := log + [MountLine(src, dst)];
      mounted := true;
    }

    method Unmount()
      requires Valid()
      modifies this
      ensures Valid() && !mounted
      ensures log == old(log) + [UmountLine(dst)]
      ensures src == old(src) && dst == old(dst) && chroot == old(chroot) && doMount == old(doMount)
    {
      log := log + [UmountLine(dst)];
      mounted := false;
    }

    /** `__enter__`: mount when a mount is planned, otherwise nothing. */
    method Enter()
      requires Valid()
      modifies this
      ensures Valid()
      ensures doMount ==> mounted && log == old(log) + [MountLine(src, dst)]
      ensures !doMount ==> mounted == old(mounted) && log == old(log)
      ensures src == old(src) && dst == old(dst) && chroot == old(chroot) && doMount == old(doMount)
    {
      if doMount {
        Mount();
      }
    }

    /** `__exit__`: unmount when a mount is planned, otherwise nothing. */
    method Exit()
      requires Valid()
      modifies this
      ensures Valid()
      ensures doMount ==> !mounted && log == old(log) + [UmountLine(dst)]
      ensures !doMount ==> mounted == old(mounted) && log == old(log)
      ensures src == old(src) && dst == old(dst) && chroot == old(chroot) && doMount == old(doMount)
    {
      if doMount {
        Unmount();
      }
    }

    /** A `with` block around the commands `cmds`: the bind mount, when
        planned, is in place while they run and released afterwards, the
        umount naming the same destination the mount did. */
    method RunScoped(cmds: seq<Command>, shell: string -> int) returns (statuses: seq<int>)
      requires Valid()
      modifies this
      ensures Valid()
      ensures doMount ==> !mounted
      ensures !doMount ==> mounted == old(mounted)
      ensures |statuses| == |cmds|
      ensures log == old(log) + (if doMount then [MountLine(src, dst)] else [])
        + CommandLines(chroot, cmds) + (if doMount then [UmountLine(dst)] else [])
      ensures forall i :: 0 <= i < |cmds| ==> statuses[i] == shell(CommandLine(chroot, cmds[i]))
    {
      Enter();
      ghost var entered := log;
      assert entered == old(log) + (if doMount then [MountLine(src, dst)] else []);
      statuses := ExecAll(cmds, shell);
      ghost var ran := log;
      assert ran == entered + CommandLines(chroot, cmds);
      Exit();
      assert log == ran + (if doMount then [UmountLine(dst)] else []);
    }

    /** One pass of ExecAll's loop: the next command runs and its line is
        logged after those of the commands before it. */
    method ExecNext(cmds: seq<Command>, i: nat, shell: string -> int, ghost start: seq<string>)
      returns (status: int)
      requires i < |cmds|
      requires log == start + CommandLines(chroot, cmds[..i])
      modifies this
      ensures src == old(src) && dst == old(dst) && chroot == old(chroot)
      ensures mounted == old(mounted) && doMount == old(doMount)
      ensures log == start + CommandLines(chroot, cmds[..i + 1])
      ensures status == shell(CommandLine(chroot, cmds[i]))
    {
      ghost var lines := CommandLines(chroot, cmds[..i]);
      status := ExecWithExitcode(cmds[i], shell);
      CommandLinesNext(chroot, cmds, i);
      assert log == start + (lines + [CommandLine(chroot, cmds[i])]);
    }

    /** The body of the `with` block: each command in turn, through the
        shell, collecting the exit statuses. */
    method ExecAll(cmds: seq<Command>, shell: string -> int) returns (statuses: seq<int>)
      requires Valid()
      modifies this
      ensures Valid()
      ensures src == old(src) && dst == old(dst) && chroot == old(chroot)
      ensures mounted == old(mounted) && doMount == old(doMount)
      ensures |statuses| == |cmds|
      ensures log == old(log) + CommandLines(chroot, cmds)
      ensures forall i :: 0 <= i < |cmds| ==> statuses[i] == shell(CommandLine(chroot, cmds[i]))
    {
      var start, c := log, chroot;
      ghost var lines: seq<string> := [];
      statuses := [];
      for i := 0 to |cmds|
        invariant src == old(src) && dst == old(dst) && chroot == c
        invariant mounted == old(mounted) && doMount == old(doMount)
        invariant lines == CommandLines(c, cmds[..i])
        invariant log == start + lines
        invariant statuses == Exits(c, cmds[..i], shell)
      {
        var status := ExecNext(cmds, i, shell, start);
        ExitsNext(c, cmds, i, shell);
        lines := CommandLines(c, cmds[..i + 1]);
        statuses := statuses + [status];
      }
      assert cmds[..|cmds|] == cmds;
      forall j | 0 <= j < |cmds| ensures statuses[j] == shell(CommandLine(chroot, cmds[j])) {
        ExitsAt(chroot, cmds, j, shell);
      }
    }

  }
}
