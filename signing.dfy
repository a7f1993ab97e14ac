/** Package signing (arado/signing.py): building the `rpmsign` command line,
    answering its pass-phrase prompt, and reading the secret keys that `gpg -K`
    lists. The spawned process and the `gpg` output are parameters. */
module Signing {
  import opened Base
  import opened Strings

  const PASS_PROMPT := "Enter pass phrase: "
  const SIGN_TIMEOUT: nat := 120
  const NO_PACKAGES := "No packages supplied"
  const SIGN_FAILED := "Failed to sign RPM packages"

  /* The pieces of RPMSIGN_CMD between its conversions. The source continues the
     literal over four lines with backslash-newline, so the indentation of the
     continuation lines stays in the string: five spaces before "gpg", nine
     before "--passphrase-fd" and thirteen before "-sbo". */
  const HEAD := "rpmsign --define \"_gpg_name "
  const MID := "\" --define \"__gpg_sign_cmd "
  const GPG_CALL := "{__gpg}     gpg --force-v3-sigs "
  const GPG_DIGEST := "--digest-algo=sha1 --batch "
  const GPG_QUIET := "--no-verbose --no-armor         "
  const GPG_PASS := "--passphrase-fd 3 --no-secmem-warning "
  const GPG_USER := "-u \""
  const GPG := GPG_CALL + GPG_DIGEST + GPG_QUIET + GPG_PASS + GPG_USER
  const GPG_NAME := "{_gpg_name}\"             -sbo "
  const SIGNATURE := "{__signature_filename} "
  const PLAINTEXT := "{__plaintext_filename}\" --addsign "

  /** The command template: "%s" takes the key name, then the package list;
      each "%%" stands for one "%" of an rpm macro. */
  const RPMSIGN_CMD := HEAD + ("%s" + (MID + ("%%" + (GPG + ("%%" + (GPG_NAME
    + ("%%" + (SIGNATURE + ("%%" + (PLAINTEXT + "%s"))))))))))

  /** The command the template stands for, with the key and package list in place. */
  function SignCommand(key: string, packageList: string): string
  {
    HEAD + (key + (MID + ("%" + (GPG + ("%" + (GPG_NAME
      + ("%" + (SIGNATURE + ("%" + (PLAINTEXT + packageList))))))))))
  }

  /** Formatting the template with a key and a package list never fails and
      yields the command with both in place, whatever characters they hold. */
  lemma FormatTemplate(key: string, packageList: string)
    ensures Format(RPMSIGN_CMD, [key, packageList]) == Some(SignCommand(key, packageList))
  {
    LiteralPieces();
    var last := [packageList];
    assert [key, packageList] == [key] + last;
    assert last == [packageList] + [];
    assert "%s" + "" == "%s";
    FormatArg("", packageList, []);
    assert packageList + "" == packageList;
    var t0, v0 := "%s", packageList;
    assert Format(t0, last) == Some(v0);
    var t1, v1 := PLAINTEXT + t0, PLAINTEXT + v0;
    FormatLiteral(PLAINTEXT, t0, last);
    var t2, v2 := "%%" + t1, "%" + v1;
    FormatPercent(t1, last);
    var t3, v3 := SIGNATURE + t2, SIGNATURE + v2;
    FormatLiteral(SIGNATURE, t2, last);
    var t4, v4 := "%%" + t3, "%" + v3;
    FormatPercent(t3, last);
    var t5, v5 := GPG_NAME + t4, GPG_NAME + v4;
    FormatLiteral(GPG_NAME, t4, last);
    var t6, v6 := "%%" + t5, "%" + v5;
    FormatPercent(t5, last);
    var t7, v7 := GPG + t6, GPG + v6;
    FormatLiteral(GPG, t6, last);
    var t8, v8 := "%%" + t7, "%" + v7;
    FormatPercent(t7, last);
    var t9, v9 := MID + t8, MID + v8;
    FormatLiteral(MID, t8, last);
    assert Format(t9, last) == Some(v9);
    var t10, v10 := "%s" + t9, key + v9;
    FormatArg(t9, key, last);
    assert Format(t10, [key, packageList]) == Some(v10);
    FormatLiteral(HEAD, t10, [key, packageList]);
    assert RPMSIGN_CMD == HEAD + t10;
  }

  /** None of the literal pieces of the template holds a "%". */
  lemma LiteralPieces()
    ensures '%' !in HEAD && '%' !in MID && '%' !in GPG
    ensures '%' !in GPG_NAME && '%' !in SIGNATURE && '%' !in PLAINTEXT
  {
    NoPercentHead();
    NoPercentMid();
    NoPercentGpgCall();
    NoPercentGpgDigest();
    NoPercentGpgQuiet();
    NoPercentGpgPass();
    NoPercentGpgUser();
    NoPercentGpgName();
    NoPercentSignature();
    NoPercentPlaintext();
  }

  lemma NoPercentHead()
    ensures '%' !in HEAD
  {
  }

  lemma NoPercentMid()
    ensures '%' !in MID
  {
  }

  lemma NoPercentGpgCall()
    ensures '%' !in GPG_CALL
  {
  }

  lemma NoPercentGpgDigest()
    ensures '%' !in GPG_DIGEST
  {
  }

  lemma NoPercentGpgQuiet()
    ensures '%' !in GPG_QUIET
  {
  }

  lemma NoPercentGpgPass()
    ensures '%' !in GPG_PASS
  {
  }

  lemma NoPercentGpgUser()
    ensures '%' !in GPG_USER
  {
  }

  lemma NoPercentGpgName()
    ensures '%' !in GPG_NAME
  {
  }

  lemma NoPercentSignature()
    ensures '%' !in SIGNATURE
  {
  }

  lemma NoPercentPlaintext()
    ensures '%' !in PLAINTEXT
  {
  }

  /** The command prefix that runs the signer inside a chroot. */
  function ChrootPrefix(chroot: Option<string>): (r: string)
    ensures !Truthy(chroot) ==> r == ""
    ensures Truthy(chroot) ==> StartsWith(r, CHROOT_BIN + " ") && EndsWith(r, chroot.value + " ")
  {
    if Truthy(chroot) then CHROOT_BIN + " " + chroot.value + " " else ""
  }

  /** The directory the signer sees the packages in. */
  function PackageDir(path: string, chroot: Option<string>): string
  {
    if Truthy(chroot) then MOUNT_POINT else path
  }

  /** Every package joined onto the directory, in the order given. */
  function PackagePaths(dir: string, packages: seq<string>): (r: seq<string>)
    ensures |r| == |packages|
    ensures forall i :: 0 <= i < |r| ==> r[i] == PathJoin(dir, packages[i])
  {
    seq(|packages|, i requires 0 <= i < |packages| => PathJoin(dir, packages[i]))
  }

  /** The package list passed to `rpmsign`: the paths separated by single spaces. */
  function PackageList(dir: string, packages: seq<string>): string
  {
    JoinWith(" ", PackagePaths(dir, packages))
  }

  /** When no path holds a space, the package list splits back into exactly the
      package paths, in order. */
  lemma PackageListSplits(dir: string, packages: seq<string>)
    requires packages != []
    requires forall i :: 0 <= i < |packages| ==> ' ' !in PathJoin(dir, packages[i])
    ensures Split(PackageList(dir, packages), ' ') == PackagePaths(dir, packages)
  {
    SplitJoin(PackagePaths(dir, packages), ' ');
  }

  /** The line handed to `pexpect.spawn`: the prefix followed by the template,
      formatted as one string; `None` when Python's `%` would raise. */
  function SignLine(packages: seq<string>, key: string, path: string, chroot: Option<string>): Option<string>
  {
    Format(ChrootPrefix(chroot) + RPMSIGN_CMD, [key, PackageList(PackageDir(path, chroot), packages)])
  }

  /** Unless the chroot path itself holds a "%", the spawned line is the chroot
      prefix followed by the signing command for the key and the package paths. */
  lemma SignLineExpands(packages: seq<string>, key: string, path: string, chroot: Option<string>)
    requires Truthy(chroot) ==> '%' !in chroot.value
    ensures SignLine(packages, key, path, chroot)
         == Some(ChrootPrefix(chroot) + SignCommand(key, PackageList(PackageDir(path, chroot), packages)))
  {
    var list := PackageList(PackageDir(path, chroot), packages);
    FormatTemplate(key, list);
    var prefix := ChrootPrefix(chroot);
    if Truthy(chroot) {
      assert '%' !in CHROOT_BIN + " ";
      assert '%' !in prefix;
    }
    FormatLiteral(prefix, RPMSIGN_CMD, [key, list]);
  }

  function MountCommand(path: string, chroot: string): string
  {
    "mount --bind " + path + " " + PathJoin(chroot, "mnt")
  }

  function UmountCommand(path: string): string
  {
    "umount " + path
  }

  /** What `expect` observes from the signer, one piece of output at a time:
      the pass-phrase prompt, the end of its output, or the 120-second timeout. */
  datatype Event = PromptSeen | EofSeen | TimedOut

  /** The spawned signer: what it prints, in order, and the exit status
      `close` reports (`None` when a signal ended it). */
  datatype Signer = Signer(events: seq<Event>, exitStatus: Option<int>)

  /** Where the conversation with the signer stands. */
  datatype Phase = AwaitingPrompt | AwaitingEof | Closed | Failed(error: Error)

  predicate Waiting(ph: Phase)
  {
    ph.AwaitingPrompt? || ph.AwaitingEof?
  }

  /** One observation: the prompt is answered, the end of output closes the
      process, anything else makes `expect` raise. Output seen while waiting
      for the end (a second prompt) is consumed. */
  function Step(ph: Phase, ev: Event): (r: Phase)
    requires Waiting(ph)
    ensures ph.AwaitingPrompt? ==> (r.AwaitingEof? <==> ev == PromptSeen)
    ensures r.Closed? <==> ph.AwaitingEof? && ev == EofSeen
    ensures ev == TimedOut ==> r == Failed(ExpectTimeout)
    ensures r.Failed? ==> r.error == ExpectEof || r.error == ExpectTimeout
  {
    match (ph, ev)
    case (AwaitingPrompt, PromptSeen) => AwaitingEof
    case (AwaitingPrompt, EofSeen) => Failed(ExpectEof)
    case (AwaitingEof, EofSeen) => Closed
    case (AwaitingEof, PromptSeen) => AwaitingEof
    case (_, TimedOut) => Failed(ExpectTimeout)
  }

  /** The phase the conversation ends in; output that stops without ending
      leaves `expect` waiting until its timeout fires. */
  function Drive(ph: Phase, events: seq<Event>): (r: Phase)
    ensures !Waiting(r)
    ensures Waiting(ph) && r.Failed? ==> r.error == ExpectEof || r.error == ExpectTimeout
    decreases |events|
  {
    if !Waiting(ph) then ph
    else if events == [] then Failed(ExpectTimeout)
    else Drive(Step(ph, events[0]), events[1..])
  }

  /** The end of output arrives before any timeout, with only prompts before it. */
  predicate EndsCleanly(events: seq<Event>)
  {
    exists j :: 0 <= j < |events| && events[j] == EofSeen && forall k :: 0 <= k < j ==> events[k] == PromptSeen
  }

  lemma {:induction false} DriveAwaitingEof(events: seq<Event>)
    ensures Drive(AwaitingEof, events).Closed? <==> EndsCleanly(events)
  {
    if events != [] {
      DriveAwaitingEof(events[1..]);
      if events[0] == PromptSeen {
        if EndsCleanly(events[1..]) {
          var j :| 0 <= j < |events[1..]| && events[1..][j] == EofSeen
            && forall k :: 0 <= k < j ==> events[1..][k] == PromptSeen;
          assert forall k :: 0 <= k < j + 1 ==> events[k] == PromptSeen || k == 0;
          assert events[j + 1] == EofSeen;
        }
        if EndsCleanly(events) {
          var j :| 0 <= j < |events| && events[j] == EofSeen && forall k :: 0 <= k < j ==> events[k] == PromptSeen;
          assert j > 0;
          assert events[1..][j - 1] == EofSeen;
          assert forall k :: 0 <= k < j - 1 ==> events[1..][k] == events[k + 1];
        }
      } else if events[0] == TimedOut {
        assert !EndsCleanly(events) by {
          forall j | 0 <= j < |events| && events[j] == EofSeen
            ensures !(forall k :: 0 <= k < j ==> events[k] == PromptSeen)
          {
            assert j > 0;
          }
        }
      } else {
        assert events[0] == EofSeen;
      }
    }
  }

  /** The signer is closed exactly when its first output is the prompt and its
      output then ends cleanly; otherwise `expect` raises. */
  lemma SessionCloses(events: seq<Event>)
    ensures Drive(AwaitingPrompt, events).Closed?
        <==> events != [] && events[0] == PromptSeen && EndsCleanly(events[1..])
  {
    if events != [] && events[0] == PromptSeen {
      DriveAwaitingEof(events[1..]);
    }
  }

  /** The conversation `sign_packages` holds with the spawned signer: expect the
      prompt, send an empty pass phrase, expect the end of output, close. */
  method Converse(events: seq<Event>) returns (ph: Phase, actions: seq<Action>)
    ensures ph == Drive(AwaitingPrompt, events)
    ensures actions == Transcript(events)
  {
    ph := AwaitingPrompt;
    actions := [Expect(PASS_PROMPT)];
    var answered := false;
    var i := 0;
    while i < |events| && Waiting(ph)
      invariant 0 <= i <= |events|
      invariant Drive(ph, events[i..]) == Drive(AwaitingPrompt, events)
      invariant i == 0 <==> ph == AwaitingPrompt
      invariant ph.AwaitingEof? || ph.Closed? ==> answered
      invariant answered <==> i > 0 && events[0] == PromptSeen
      invariant actions == [Expect(PASS_PROMPT)]
        + (if answered then [Send("\n"), ExpectEnd] else [])
        + (if ph.Closed? then [Close] else [])
    {
      assert events[i..][1..] == events[i + 1..];
      var next := Step(ph, events[i]);
      if ph.AwaitingPrompt? && next.AwaitingEof? {
        actions := actions + [Send("\n"), ExpectEnd];
        answered := true;
      }
      if next.Closed? {
        actions := actions + [Close];
      }
      ph := next;
      i := i + 1;
    }
    if Waiting(ph) {
      ph := Failed(ExpectTimeout);
    }
  }

  /** What was asked of the system, in order, and how it ended. */
  datatype Attempt = Attempt(actions: seq<Action>, out: Outcome)

  /** The conversation with a signer whose output is `events`: the prompt is
      awaited, answered when it comes first, and the process is closed once its
      output ends. */
  function Transcript(events: seq<Event>): seq<Action>
  {
    [Expect(PASS_PROMPT)]
      + (if events != [] && events[0] == PromptSeen then [Send("\n"), ExpectEnd] else [])
      + (if Drive(AwaitingPrompt, events).Closed? then [Close] else [])
  }

  /** How signing ends for a (possibly unformattable) command line: it succeeds
      exactly when the line formats, the signer's conversation closes and it
      exits with status 0; every failure is one of the four errors below. */
  predicate Signed(line: Option<string>, signer: string -> Signer, out: Outcome)
  {
    (out.Ok? <==> line.Some? && Drive(AwaitingPrompt, signer(line.value).events).Closed?
                  && signer(line.value).exitStatus == Some(0))
    && (out.Raised? ==> out.error in {FormatError, ExpectEof, ExpectTimeout, SigningError(SIGN_FAILED)})
  }

  /** What `sign_packages` does for non-empty input once the mount is in place. */
  function Session(line: Option<string>, signer: string -> Signer, chrooted: bool, path: string): (r: Attempt)
    ensures Signed(line, signer, r.out)
    ensures line.None? <==> r.actions == []
    ensures line.Some? ==> r.actions[0] == Spawn(line.value, SIGN_TIMEOUT)
    ensures chrooted ==> (System(UmountCommand(path)) in r.actions <==> Close in r.actions)
    ensures !chrooted ==> forall a :: a in r.actions ==> !a.System?
  {
    if line.None? then Attempt([], Raised(FormatError))
    else
      var proc := signer(line.value);
      var ph := Drive(AwaitingPrompt, proc.events);
      var talk := [Spawn(line.value, SIGN_TIMEOUT)] + Transcript(proc.events);
      if ph.Failed? then Attempt(talk, Raised(ph.error))
      else
        var done := talk + (if chrooted then [System(UmountCommand(path))] else []);
        if proc.exitStatus != Some(0) then Attempt(done, Raised(SigningError(SIGN_FAILED)))
        else Attempt(done, Ok)
  }

  /** `sign_packages(packages, key, path, chroot)`, where `signer` says how the
      process spawned for a command line behaves. An empty list is refused
      before anything runs; a chroot is bind-mounted first and released only
      once the signer was closed; and no key-existence check is made. */
  function SignAttempt(packages: seq<string>, key: string, path: string, chroot: Option<string>,
                       signer: string -> Signer): (r: Attempt)
    ensures packages == [] <==> r == Attempt([], Raised(SigningError(NO_PACKAGES)))
    ensures packages != [] ==> Signed(SignLine(packages, key, path, chroot), signer, r.out)
    ensures packages != [] && SignLine(packages, key, path, chroot).Some? ==>
      (Spawn(SignLine(packages, key, path, chroot).value, SIGN_TIMEOUT) in r.actions)
    ensures packages != [] && Truthy(chroot) ==>
      (r.actions != [] && r.actions[0] == System(MountCommand(path, chroot.value))
       && (System(UmountCommand(path)) in r.actions <==> Close in r.actions))
    ensures !Truthy(chroot) ==> forall a :: a in r.actions ==> !a.System?
  {
    if packages == [] then Attempt([], Raised(SigningError(NO_PACKAGES)))
    else
      var mount := if Truthy(chroot) then [System(MountCommand(path, chroot.value))] else [];
      var session := Session(SignLine(packages, key, path, chroot), signer, Truthy(chroot), path);
      Attempt(mount + session.actions, session.out)
  }

  method SignPackages(packages: seq<string>, key: string, path: string, chroot: Option<string>,
                      signer: string -> Signer)
    returns (actions: seq<Action>, out: Outcome)
    ensures Attempt(actions, out) == SignAttempt(packages, key, path, chroot, signer)
  {
    if packages == [] {
      return [], Raised(SigningError(NO_PACKAGES));
    }
    var mount := [];
    if Truthy(chroot) {
      mount := [System(MountCommand(path, chroot.value))];
    }
    var line := SignLine(packages, key, path, chroot);
    var session;
    session, out := RunSession(line, signer, Truthy(chroot), path);
    actions := mount + session;
  }

  /** The part of `sign_packages` after the mount: spawn, converse, release
      the mount, check the exit status. */
  method RunSession(line: Option<string>, signer: string -> Signer, chrooted: bool, path: string)
    returns (actions: seq<Action>, out: Outcome)
    ensures Attempt(actions, out) == Session(line, signer, chrooted, path)
  {
    if line.None? {
      return [], Raised(FormatError);
    }
    var proc := signer(line.value);
    var ph, talk := Converse(proc.events);
    actions := [Spawn(line.value, SIGN_TIMEOUT)] + talk;
    if ph.Failed? {
      return actions, Raised(ph.error);
    }
    if chrooted {
      actions := actions + [System(UmountCommand(path))];
    }
    if proc.exitStatus != Some(0) {
      return actions, Raised(SigningError(SIGN_FAILED));
    }
    out := Ok;
  }

  // ---- get_keys ----

  /** The class `[\w\s]` of KEY_RE's group. */
  predicate InKeyClass(c: char)
  {
    IsWordChar(c) || IsSpace(c)
  }

  /** The end of the longest run of class characters starting at `j`. */
  function RunEnd(s: string, j: nat): (k: nat)
    requires j <= |s|
    ensures j <= k <= |s|
    ensures forall m :: j <= m < k ==> InKeyClass(s[m])
    ensures k < |s| ==> !InKeyClass(s[k])
    decreases |s| - j
  {
    if j == |s| || !InKeyClass(s[j]) then j else RunEnd(s, j + 1)
  }

  /** KEY_RE's group can start after the "(" at `i`: a non-empty run of class
      characters follows it and is closed by ")". */
  predicate GroupOpensAt(s: string, i: nat)
  {
    i < |s| && s[i] == '(' && i + 1 < RunEnd(s, i + 1) < |s| && s[RunEnd(s, i + 1)] == ')'
  }

  /** The last position below `hi` where the group can start: the greedy `^.*`
      of KEY_RE backtracks from the right, so the match uses the last one. */
  function LastGroup(s: string, hi: nat): (r: Option<nat>)
    requires hi <= |s|
    ensures r.Some? ==> r.value < hi && GroupOpensAt(s, r.value)
    ensures r.Some? ==> forall j :: r.value < j < hi ==> !GroupOpensAt(s, j)
    ensures r.None? ==> forall j :: 0 <= j < hi ==> !GroupOpensAt(s, j)
  {
    if hi == 0 then None
    else if GroupOpensAt(s, hi - 1) then Some(hi - 1)
    else LastGroup(s, hi - 1)
  }

  /** `re.match(KEY_RE, line).groups(0)[0]` on a line without a newline, or
      `None` when KEY_RE does not match. */
  function KeyGroup(line: string): (r: Option<string>)
    requires '\n' !in line
    ensures r.None? <==> forall i :: 0 <= i < |line| ==> !GroupOpensAt(line, i)
    ensures r.Some? ==> r.value != [] && (forall c :: c in r.value ==> InKeyClass(c))
    ensures r.Some? ==> exists i: nat :: GroupOpensAt(line, i) && OccursAt(line, "(" + r.value + ")", i)
                                    && forall j :: i < j < |line| ==> !GroupOpensAt(line, j)
  {
    match LastGroup(line, |line|)
    case None => None
    case Some(i) =>
      var g := line[i + 1..RunEnd(line, i + 1)];
      assert line[i..i + |g| + 2] == "(" + g + ")";
      Some(g)
  }

  /** The key a `gpg -K` line names: for a "uid" line that KEY_RE matches, the
      group up to its first space. */
  function KeyOfLine(line: string): (r: Option<string>)
    requires '\n' !in line
    ensures r.Some? <==> StartsWith(line, "uid") && KeyGroup(line).Some?
    ensures r.Some? ==> ' ' !in r.value && (forall c :: c in r.value ==> InKeyClass(c))
    ensures r.Some? ==> r.value <= KeyGroup(line).value
  {
    if !StartsWith(line, "uid") then None
    else match KeyGroup(line)
      case None => None
      case Some(g) => Some(FirstWord(g))
  }

  /** `g.split(" ")[0]`: what comes before the first space. */
  function FirstWord(g: string): (r: string)
    ensures r <= g && ' ' !in r
    ensures |r| < |g| ==> g[|r|] == ' '
  {
    if g == [] || g[0] == ' ' then "" else [g[0]] + FirstWord(g[1..])
  }

  lemma FirstWordIsSplit(g: string)
    ensures FirstWord(g) == Split(g, ' ')[0]
  {
  }

  /** The keys named by a sequence of lines, in line order. */
  function KeysOf(lines: seq<string>): seq<string>
    requires forall i :: 0 <= i < |lines| ==> '\n' !in lines[i]
  {
    if lines == [] then []
    else
      var last := lines[|lines| - 1];
      KeysOf(lines[..|lines| - 1]) + (match KeyOfLine(last) case Some(k) => [k] case None => [])
  }

  /** The keys of two blocks of lines are the keys of the first, then those of the second. */
  lemma {:induction false} KeysOfAppend(a: seq<string>, b: seq<string>)
    requires forall i :: 0 <= i < |a| ==> '\n' !in a[i]
    requires forall i :: 0 <= i < |b| ==> '\n' !in b[i]
    ensures forall i :: 0 <= i < |a + b| ==> '\n' !in (a + b)[i]
    ensures KeysOf(a + b) == KeysOf(a) + KeysOf(b)
    decreases |b|
  {
    if b != [] {
      var b' := b[..|b| - 1];
      assert (a + b)[..|a + b| - 1] == a + b';
      KeysOfAppend(a, b');
    } else {
      assert a + b == a;
    }
  }

  /** A key is listed exactly when some line names it. */
  lemma KeysOfNamed(lines: seq<string>, k: string)
    requires forall i :: 0 <= i < |lines| ==> '\n' !in lines[i]
    ensures k in KeysOf(lines) <==> exists i :: 0 <= i < |lines| && KeyOfLine(lines[i]) == Some(k)
  {
    if k in KeysOf(lines) {
      KeysOfFrom(lines, k);
    }
    forall i | 0 <= i < |lines| && KeyOfLine(lines[i]) == Some(k) ensures k in KeysOf(lines) {
      KeysOfHas(lines, i, k);
    }
  }

  /** Every listed key comes from some line. */
  lemma {:induction false} KeysOfFrom(lines: seq<string>, k: string)
    requires forall i :: 0 <= i < |lines| ==> '\n' !in lines[i]
    requires k in KeysOf(lines)
    ensures exists i :: 0 <= i < |lines| && KeyOfLine(lines[i]) == Some(k)
  {
    var n := |lines| - 1;
    var init := lines[..n];
    KeysOfSnoc(lines, k);
    if k in KeysOf(init) {
      KeysOfFrom(init, k);
      var i :| 0 <= i < |init| && KeyOfLine(init[i]) == Some(k);
      assert lines[i] == init[i];
    } else {
      assert KeyOfLine(lines[n]) == Some(k);
    }
  }

  /** The key of every line that names one is listed. */
  lemma {:induction false} KeysOfHas(lines: seq<string>, i: nat, k: string)
    requires forall j :: 0 <= j < |lines| ==> '\n' !in lines[j]
    requires i < |lines| && KeyOfLine(lines[i]) == Some(k)
    ensures k in KeysOf(lines)
  {
    KeysOfSnoc(lines, k);
    if i < |lines| - 1 {
      var init := lines[..|lines| - 1];
      assert init[i] == lines[i];
      KeysOfHas(init, i, k);
    }
  }

  /** A key is listed for some lines exactly when it is listed for all but
      the last, or the last names it. */
  lemma KeysOfSnoc(lines: seq<string>, k: string)
    requires lines != []
    requires forall i :: 0 <= i < |lines| ==> '\n' !in lines[i]
    ensures k in KeysOf(lines) <==> k in KeysOf(lines[..|lines| - 1]) || KeyOfLine(lines[|lines| - 1]) == Some(k)
  {
  }

  /** `get_keys`, given the output of `gpg -K`. */
  method GetKeys(output: string) returns (keys: seq<string>)
    ensures keys == KeysOf(Split(output, '\n'))
    ensures forall k :: k in keys ==> ' ' !in k
  {
    var lines := Split(output, '\n');
    keys := [];
    var i := 0;
    while i < |lines|
      invariant 0 <= i <= |lines|
      invariant keys == KeysOf(lines[..i])
    {
      assert lines[..i + 1][..i] == lines[..i];
      var key := KeyOfLine(lines[i]);
      if key.Some? {
        keys := keys + [key.value];
      }
      i := i + 1;
    }
    assert lines[..i] == lines;
    forall k | k in keys ensures ' ' !in k {
      KeysOfNamed(lines, k);
    }
  }
}
