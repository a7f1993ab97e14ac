# arado: a Dafny model of the release-promotion core

arado promotes Eucalyptus package repositories. It merges a source repository
tree into a destination, re-signs the RPMs with rpmsign and rebuilds yum
metadata with createrepo. It lays out new staging repositories, swaps a
finished staging tree into place, and lists gpg secret keys. It also holds
the smaller pieces these operations use:

- path builders and clients of the repository-generating web service, in
  two variants: `arado/api.py` and the older `arado/repo.py`;
- the INI configuration with its category gate and file search order;
- the bind-mount command environment for chrooted tools;
- the option bookkeeping of the RPM package builder.

This project models that core in Dafny and proves what the code promises.

**The filesystem** is a value. `Fs.FileSystem` maps an absolute path (a
sequence of components) to a node: a directory with its mode, a file with its
content, or a symbolic link with its target text. On it the model defines:

- a rename, used for both `os.rename` and `shutil.move`;
- `shutil.rmtree`, `os.mkdir`, `os.makedirs` and `os.symlink`;
- `cp -a src/. dst`;
- grafting a tree below a path, which is how createrepo's new metadata
  directory enters the filesystem.

Each comes with lemmas about the subtree it moves, removes, writes or leaves
alone.

**The outside world** enters as parameters:

- the result of `os.walk`;
- the exit code of cp, and the exit code and metadata tree of createrepo;
- the responses of the web service;
- the HTML link parser;
- the matches of `glob.glob` (the comps file lookup of rebuild_repo), which are not tied to the filesystem;
- gpg's output;
- the template renderer;
- how the rpmsign session behaves;
- the random names of temporary files;
- Python 2's dict iteration order.

Commands the code hands to the shell, to `subprocess` or to `pexpect` are
recorded as `Base.Action`s, in the order they are issued. The contracts speak
about those actions.

**How the model is built.** Code that loops and updates becomes a method whose
`ensures` ties its outputs to a specification function. Properties of that
function are then proved as lemmas. Examples of such methods:

- `Merge.MergeCopy`;
- `Promotion.SignRepo`;
- `Rebuild.RebuildAllRepos`;
- `Signing.GetKeys`.

Objects whose methods update their fields become classes:

- `Environment.CommandEnvironment`;
- the two `APIWrapper`s with their package cache;
- `Package.PackageBuilder` with its options dictionary.

Exceptions are the `Base.Error` values carried by `Outcome` or `Result`.

**Code that cannot run as written** is modelled as it behaves, not as its
comments hope:

- `APIWrapper.packages` in `arado/api.py` always answers `[]`, because slicing
  the generator `links_from_html` returns raises inside its `try`
  (`Api.APIWrapper.Packages`, `Api.FreshPackagesEmpty`).
- `PackageBuilder.build` always ends in an exception. At best it reaches the
  undefined `write` (NameError), and when `key_name` is None it fails earlier,
  in gpg's argument list (TypeError).

The one exception is `CommandEnvironment`, which is modelled as intended (see
"## Left out").

## Model

| member | source | states |
|---|---|---|
| Staging.TemplateBuildsSkeleton | arado/aradoutil.py:47-56 | On an empty staging directory the template succeeds. It then holds exactly rhel/6 and the links centos→rhel, rhel/6Server→6 and rhel/6Workstation→6. Nothing outside the staging directory changes. |
| Staging.Laid | arado/aradoutil.py:129-133 | The laid-out template is the successful result of the directory and link loops. Its subtree is the skeleton, and it only adds entries under the staging directory. |
| Staging.MakeTemplate | arado/aradoutil.py:129-133 | The makedirs and symlink loops succeed exactly when the template function does, and then yield its filesystem. Otherwise they raise its error. |
| Staging.MakeTemplateDirs | arado/aradoutil.py:130-131 | The makedirs loop equals the template-directory fold. |
| Staging.MakeTemplateLinks | arado/aradoutil.py:132-133 | The symlink loop equals the template-link fold. |
| Staging.TemplateDirsStops | arado/aradoutil.py:130-131 | Once one makedirs fails, the later directories do not change the result. |
| Staging.TemplateLinksStops | arado/aradoutil.py:132-133 | Once one symlink fails, the later links do not change the result. |
| Staging.Stage | arado/aradoutil.py:118-134 | The staging directory is the mkdtemp name under /srv/software/.repotmp. Without that parent the call raises. With an existing path and merge on, `cp -a` is the only action, and a positive exit code raises PromotionError. Otherwise no action runs and the call succeeds. |
| Staging.StageSkeleton | arado/aradoutil.py:122-133 | Without merge, or without an existing path, the new directory (mode 02775) holds exactly the template skeleton. Every existing entry is kept. |
| Staging.StageCopy | arado/aradoutil.py:122-127 | A merge whose copy succeeds gives the staging directory exactly the path's tree, the path's own directory node included: `cp -a` replaces the 02775 mode by the repository directory's mode. Every existing entry is kept, and nothing is added outside the staging directory. |
| Staging.CreateStagingRepo | arado/aradoutil.py:118-134 | The method's new filesystem, actions, directory and outcome are those of the staging function. |
| Merge.DestRoot | arado/aradoutil.py:92 | A walked directory under the source is re-rooted under the destination, with the same path below the root. |
| Merge.CopyOne | arado/aradoutil.py:103-111 | Copying one file never changes an existing entry, so a duplicate or a symlink at the target survives. It adds only the target. On success the target exists, and it holds the source content when it was missing. |
| Merge.CopyFiles | arado/aradoutil.py:103-111 | A directory's files are copied without changing existing entries and without adding anything but their targets. On success every target exists. Errors are OSErrors. |
| Merge.MergeEntry | arado/aradoutil.py:92-111 | One walk entry: a repodata directory only records its parent. Any other directory is created when missing and then gets its files, with existing entries never changed. |
| Merge.MergeWalk | arado/aradoutil.py:91-111 | The whole walk only adds entries (existing ones keep their node) and only at re-rooted paths. On success every re-rooted path exists. The recorded repository directories are the repodata parents, in walk order. |
| Merge.MergeIdempotent | arado/aradoutil.py:99-111 | Merging the same source again into the result changes nothing and records the same repository directories. |
| Merge.MergeSaturated | arado/aradoutil.py:99-111 | When every re-rooted path already exists, the merge copies nothing. |
| Merge.CopyFilesContent | arado/aradoutil.py:108-111 | Within one directory, a file whose target was missing ends up holding its source content. |
| Merge.MergeCopiesMissing | arado/aradoutil.py:103-111 | In a successful merge, every source file whose re-rooted target was missing, outside repodata, ends up holding its source content. |
| Merge.CopyFilesLoop | arado/aradoutil.py:103-111 | The copy loop equals the specification fold CopyFiles. |
| Merge.CopyFile | arado/aradoutil.py:104-111 | One pass of the copy loop equals CopyOne. |
| Merge.CopyEntry | arado/aradoutil.py:92-111 | One pass of the walk loop equals MergeEntry. |
| Merge.MergeCopy | arado/aradoutil.py:91-111 | The copying phase of merge_repos equals MergeWalk. |
| Promotion.Packages | arado/aradoutil.py:140-143 | The package list has exactly the names ending in ".rpm" that are not symlinks. |
| Promotion.PackageLoop | arado/aradoutil.py:140-143 | The filtering loop equals Packages. |
| Promotion.SignOne | arado/aradoutil.py:139-146 | One walked directory issues exactly the actions of signing its packages. A SigningError, including the one for an empty list, is swallowed. Only pexpect's EOF or timeout escape. No mount is issued. |
| Promotion.SignWalk | arado/aradoutil.py:138-146 | Signing a repository raises only pexpect's EOF or timeout, and never issues a shell command. |
| Promotion.SignWalkOk | arado/aradoutil.py:138-146 | The walk completes exactly when every directory's signing succeeded or raised a SigningError. |
| Promotion.SignWalkSkips | arado/aradoutil.py:141-146 | A directory without unlinked RPMs adds nothing to the walk. |
| Promotion.SignWalkSigns | arado/aradoutil.py:141-144 | In a completed walk, every directory with packages spawned rpmsign for exactly its packages, rooted at the directory. |
| Promotion.SignWalkStops | arado/aradoutil.py:138-146 | Once a directory raises, the later directories change nothing. |
| Promotion.SignDirectory | arado/aradoutil.py:139-146 | One pass of sign_repo's walk equals SignOne. |
| Promotion.SignRepo | arado/aradoutil.py:137-146 | sign_repo's loop equals SignWalk. |
| Promotion.SignStep | arado/aradoutil.py:114-115 | A repository is signed only when the signing key is truthy, and then by walking it. |
| Promotion.RebuildStep | arado/aradoutil.py:116 | A recorded directory that exists runs exactly one createrepo, and its repodata becomes the tree that run leaves; a failed run raises PromotionError. A missing one raises OSError and changes nothing. Nothing outside its repodata directory changes or is added. |
| Promotion.RepoStep | arado/aradoutil.py:113-116 | One recorded directory is signed (only with a key) and then rebuilt: on success the actions are exactly the signing actions followed by the createrepo run, and the repodata is the run's new tree. Nothing outside its repodata directory changes. The errors are the signing and rebuild ones. |
| Promotion.PostMerge | arado/aradoutil.py:113-116 | After the copy, no rpmsign is spawned without a key, no shell command is issued, and only the four listed errors escape. |
| Promotion.PostMergeRuns | arado/aradoutil.py:113-116 | When the post-merge loop completes, createrepo ran on every recorded repository directory. |
| Promotion.PostMergeLast | arado/aradoutil.py:113-116 | A completed loop ends with the createrepo run of the last recorded directory. |
| Promotion.PostMergeUnfold | arado/aradoutil.py:113-116 | A completed phase over one more directory is the phase over the others, then that directory's signing actions, then its createrepo run. |
| Promotion.PostMergeOrder | arado/aradoutil.py:113-116 | A completed phase issued, for each recorded directory in order, its signing actions followed by its createrepo run, and nothing else. |
| Promotion.PostMergeKeeps | arado/aradoutil.py:113-116 | The phase changes nothing and adds nothing outside the repodata directories of the recorded directories. |
| Promotion.PostMergeNext | arado/aradoutil.py:113-116 | After a prefix that went well, one more directory adds exactly its RepoStep. |
| Promotion.PostMergePrefix | arado/aradoutil.py:113-116 | Processing more directories only extends the actions, and success implies success on every prefix. |
| Promotion.PostMergeStops | arado/aradoutil.py:113-116 | Once a directory raises, the later directories change nothing. |
| Promotion.ProcessRepo | arado/aradoutil.py:114-116 | One pass of the post-merge loop equals RepoStep. |
| Promotion.PostMergeLoop | arado/aradoutil.py:113-116 | The post-merge loop equals PostMerge. |
| Promotion.Promoted | arado/aradoutil.py:87-116 | merge_repos: a failed copy phase raises before anything is signed or rebuilt. A completed merge_repos ran createrepo on every repodata parent it recorded. |
| Promotion.MergeRepos | arado/aradoutil.py:87-116 | merge_repos equals Promoted. |
| Rebuild.CompsFile | arado/aradoutil.py:174-183 | A comps file exists exactly when the glob matched. It is the first match, or lies under /mnt when chrooted. |
| Rebuild.CompsUnderMount | arado/aradoutil.py:176-178 | Under a chroot the comps file is "/mnt/" plus the basename of the first match. |
| Rebuild.CreaterepoArgv | arado/aradoutil.py:159-194 | The argv is the optional chroot prefix, /usr/bin/createrepo, the optional -g comps, the five fixed flags, then /mnt or ".". |
| Rebuild.ArgvDetermines | arado/aradoutil.py:159-194 | The argv determines whether a chroot was used, which one, and the comps file. |
| Rebuild.ClearRepodata | arado/aradoutil.py:163 | repodata is removed when it is a directory and otherwise ignored. Nothing outside it changes. |
| Rebuild.CreaterepoRun | arado/aradoutil.py:196-198 | createrepo runs with the repository as its working directory. |
| Rebuild.Rebuild | arado/aradoutil.py:156-204 | rebuild_repo replaces the repodata directory by the tree createrepo writes, and nothing outside it changes or is added. Under a chroot it mounts, runs and unmounts the path. It fails with PromotionError exactly when the exit code is positive. |
| Rebuild.RebuildRepo | arado/aradoutil.py:156-204 | The method equals Rebuild. |
| Rebuild.RunCreaterepo | arado/aradoutil.py:165-201 | The commands are the bind mount (in a chroot), the createrepo run in the repository directory, then the unmount; the output is that run's. |
| Rebuild.RebuildUnfold | arado/aradoutil.py:163-198 | The rebuilt filesystem is the cleared one with createrepo's tree grafted at the repodata path. |
| Rebuild.CreaterepoCommand | arado/aradoutil.py:159-194 | The argv-building steps equal CreaterepoArgv of CompsFile. |
| Rebuild.ArchDirs | arado/aradoutil.py:149-151 | The visited directories are the template dirs × (i386, x86_64), in that order. |
| Rebuild.ArchDirsDisjoint | arado/aradoutil.py:149-151 | None of those directories lies inside another. |
| Rebuild.RebuildEach | arado/aradoutil.py:148-153 | Rebuilding the existing directories in turn fails only with PromotionError. |
| Rebuild.RebuildEachNext | arado/aradoutil.py:151-153 | A directory that is missing is skipped. An existing one adds exactly its rebuild. |
| Rebuild.RebuildStops | arado/aradoutil.py:148-153 | Once a rebuild raises, the later directories change nothing. |
| Rebuild.RebuildEachRuns | arado/aradoutil.py:148-153 | A completed pass ran createrepo exactly on the existing directories, in order. |
| Rebuild.RebuildEachKeeps | arado/aradoutil.py:148-153 | Nothing outside the repodata directories of the list changes, and nothing is added outside them. |
| Rebuild.RebuildEachRegenerates | arado/aradoutil.py:148-153 | After a completed pass over directories none of which lies inside another, every directory that existed holds as its repodata exactly the tree its createrepo run wrote. |
| Rebuild.RebuildOther | arado/aradoutil.py:163-198 | Rebuilding one directory leaves the repodata of a directory apart from it unchanged. |
| Rebuild.RebuildIfDir | arado/aradoutil.py:152-153 | A directory is rebuilt when it exists and left alone otherwise. |
| Rebuild.RebuildAllRepos | arado/aradoutil.py:148-153 | rebuild_all_repos equals RebuildEach over ArchDirs. |
| Replace.TempRender | arado/aradoutil.py:208 | The aside path is the destination path with "-temp" appended. |
| Replace.TempDisjoint | arado/aradoutil.py:208 | The aside path is neither inside nor above the destination. |
| Replace.RenameChecked | arado/aradoutil.py:210-211 | A rename succeeds exactly when the source exists, the target is absent with an existing parent, and the target is not inside the source. The result is the moved filesystem; failures are OSErrors. |
| Replace.RemoveChecked | arado/aradoutil.py:213 | rmtree succeeds exactly on a directory and removes its subtree. |
| Replace.Replaced | arado/aradoutil.py:207-213 | replace_repo raises only OSErrors. When setting the old destination aside fails, nothing has changed. |
| Replace.ReplaceSwaps | arado/aradoutil.py:207-213 | When the move can succeed, the destination holds exactly the former source tree, and neither the source nor the aside path remains. Every unrelated subtree is unchanged. |
| Replace.ReplaceKeepsOld | arado/aradoutil.py:210-211 | When the move fails after the rename, the old tree survives at the aside path. It is deleted only after the move. |
| Replace.ReplaceRepo | arado/aradoutil.py:207-213 | The method equals Replaced. |
| Fs.Rename | arado/aradoutil.py:210 | A rename puts every entry of the source subtree under the target, keeps entries outside both, and adds nothing else. |
| Fs.RenameTarget | arado/aradoutil.py:211 | After a rename onto an absent path, the target's tree is the source's tree. |
| Fs.RenameSource | arado/aradoutil.py:211 | After a rename, nothing remains under the source. |
| Fs.RenameOther | arado/aradoutil.py:210 | A rename leaves a subtree apart from both paths unchanged. |
| Fs.RemoveTree | arado/aradoutil.py:213 | rmtree leaves nothing under the path and keeps everything else. |
| Fs.RemoveOther | arado/aradoutil.py:213 | rmtree leaves a subtree apart from the path unchanged. |
| Fs.Mkdir | arado/aradoutil.py:101 | mkdir succeeds exactly when the path is absent and its parent is a directory. It then adds one directory; failures are OSErrors. |
| Fs.MakeDirs | arado/aradoutil.py:131 | A successful makedirs ends with the path a directory (it must have been absent), keeps every entry, and adds only directories on the path. |
| Fs.MakeLink | arado/aradoutil.py:133 | symlink succeeds exactly when the path is absent and its parent is a directory, and adds one link. |
| Fs.CopyInto | arado/aradoutil.py:123 | `cp -a src/. dst` puts every entry of the source's subtree, the source directory itself included, at the same place below the target. Entries outside the target are kept, and nothing is added outside it. |
| Fs.CopyIntoTree | arado/aradoutil.py:123 | Copied into an empty directory, the target's tree is exactly the source's tree, its root node included. |
| Fs.Graft | arado/aradoutil.py:196-198 | Writing a tree below a path: the path's tree is exactly that tree, and nothing outside the path changes or is added. |
| Strings.PathJoin | arado/aradoutil.py:104 | os.path.join ends with its second argument, which replaces the first when absolute. |
| Strings.BasenameOfJoin | arado/aradoutil.py:178 | The basename of a join with a slash-free name is that name. |
| Strings.JoinAll | arado/repo.py:70-74 | Joining fails only with AttributeError. It succeeds exactly when every segment is present and, when the first path is None, the first segment is absolute. |
| Strings.SplitJoin | arado/signing.py:66 | Splitting a space-joined list of space-free words gives the words back. |
| Strings.JoinSplit | arado/signing.py:104 | Joining the pieces of a split with the separator gives the text back. |
| Strings.RStrip | arado/api.py:112 | rstrip on the unicode body keeps a prefix and removes exactly its trailing unicode whitespace (the characters Python 2.7's `unicode.isspace` accepts). |
| Strings.ReplaceSkips | arado/repo.py:64-65 | A replace leaves the text before the first occurrence unchanged. |
| Strings.FormatLiteral | arado/signing.py:43-46 | `%` formatting copies literal text verbatim. |
| Signing.FormatTemplate | arado/signing.py:43-46 | Formatting RPMSIGN_CMD with the key and the package list succeeds and gives the rpmsign command with "%%" turned into "%". |
| Signing.ChrootPrefix | arado/signing.py:58-59 | There is no prefix without a truthy chroot. Otherwise the prefix is "/usr/sbin/chroot <chroot> ". |
| Signing.PackagePaths | arado/signing.py:66 | Each package is joined to the package directory, in input order. |
| Signing.PackageListSplits | arado/signing.py:66 | The package list is those paths separated by single spaces. |
| Signing.SignLineExpands | arado/signing.py:56-67 | The spawned line is the chroot prefix plus the formatted rpmsign command for the package list. |
| Signing.Step | arado/signing.py:69-71 | The session waits for the pass-phrase prompt, then for EOF, and closes only after EOF. A timeout fails with ExpectTimeout. |
| Signing.DriveAwaitingEof | arado/signing.py:71-72 | After the prompt, the session closes exactly when the events end cleanly. |
| Signing.SessionCloses | arado/signing.py:69-72 | The session closes exactly when the prompt comes first and the rest ends cleanly. |
| Signing.Converse | arado/signing.py:69-72 | The expect, send, expect-EOF and close steps reach the phase of Drive and issue the Transcript. |
| Signing.Session | arado/signing.py:67-78 | A spawned session starts with the spawn of the line. A chrooted session unmounts exactly when it closes. An unchrooted one issues no shell command. |
| Signing.SignAttempt | arado/signing.py:50-78 | An empty list raises SigningError("No packages supplied") before any action. Under a chroot the mount comes first. The spawned command is the formatted line with a 120 s timeout. |
| Signing.SignPackages | arado/signing.py:50-78 | The method equals SignAttempt. |
| Signing.RunSession | arado/signing.py:67-78 | The method equals Session. |
| Signing.KeyGroup | arado/signing.py:48 | KEY_RE's group is the last parenthesised non-empty run of word and space characters, or absent when there is none. |
| Signing.KeyOfLine | arado/signing.py:105-108 | A line yields a key exactly when it starts with "uid" and the group matches. The key is a space-free prefix of the group. |
| Signing.FirstWordIsSplit | arado/signing.py:108 | That prefix is the first piece of splitting the group on spaces. |
| Signing.KeysOfAppend | arado/signing.py:104-111 | The keys of concatenated outputs are the keys of each, in line order. |
| Signing.KeysOfNamed | arado/signing.py:104-112 | A key is listed exactly when some line yields it. |
| Signing.GetKeys | arado/signing.py:99-112 | get_keys's loop equals KeysOf over the lines, and every key is space-free. |
| Environment.CommandWords | arado/utils.py:72-73 | A list command is joined with single spaces, so its words can be read back. |
| Environment.Prefix | arado/utils.py:61-66 | The prefix is empty exactly when there is no chroot, else "/usr/sbin/chroot <chroot> ". |
| Environment.CommandLine | arado/utils.py:68-69 | The command line is the prefix followed by the command text. |
| Environment.CommandLinesAt | arado/utils.py:71-74 | The i-th command runs as its own command line. |
| Environment.ExitsAt | arado/utils.py:71-74 | Each command's exit status sits at the command's position. |
| Environment.CommandEnvironment.constructor | arado/utils.py:45-59 | A mount is planned exactly when both chroot and src are given, with dst defaulting to /mnt. Without a mount, dst is src. Nothing is mounted yet. |
| Environment.CommandEnvironment.ChrootPrefix | arado/utils.py:61-66 | chroot_prefix is the prefix of the environment's chroot. |
| Environment.CommandEnvironment.GetCmd | arado/utils.py:68-69 | _get_cmd is the prefixed command line. |
| Environment.CommandEnvironment.ExecWithExitcode | arado/utils.py:71-74 | It runs exactly that line through the shell and returns its status. Nothing else changes. |
| Environment.CommandEnvironment.ExecNext | arado/utils.py:71-74 | Running the next command appends its line to the log and returns its status. Nothing else changes. |
| Environment.CommandEnvironment.Mount | arado/utils.py:93-96 | mount issues "mount --bind src dst" and sets the mounted flag. |
| Environment.CommandEnvironment.Unmount | arado/utils.py:98-100 | unmount issues "umount dst" and clears the flag. |
| Environment.CommandEnvironment.Enter | arado/utils.py:102-104 | __enter__ mounts exactly when a mount is planned. |
| Environment.CommandEnvironment.Exit | arado/utils.py:106-108 | __exit__ unmounts exactly when a mount is planned. |
| Environment.CommandEnvironment.RunScoped | arado/utils.py:102-108 | A with-block issues the mount (if planned), each command line in order, then the umount of the same dst. Afterwards no mount is left in place. |
| Environment.CommandEnvironment.ExecAll | arado/utils.py:71-74 | Running several commands logs their lines in order, returns their statuses, and keeps the mount state. |
| Api.SourceGroup | arado/api.py:48 | SOURCE_RE's group exists exactly when the URL matches, and it is the longest group any match gives, so it runs up to the last "/centos/6/x86_64". |
| Api.SplitsGreedy | arado/api.py:48 | No match has a group longer than the one ending at the last tail on the line. |
| Api.Lookup | arado/api.py:93-105 | A config lookup yields None unless the category is known and present and holds the option. |
| Api.Mapping | arado/api.py:62-67 | mapping is the project's entry in [mappings], or None. |
| Api.Paths | arado/api.py:69-72 | paths() fails with NoSectionError exactly when the file has no [paths] section. |
| Api.SourcePath | arado/api.py:69-72 | source_path succeeds exactly when the repository URL matches and [paths] exists (with a source, or an absolute group). The result is the source joined with the group. A non-matching URL raises AttributeError. |
| Api.DestPath | arado/api.py:74-81 | dest_path needs [paths], a mapping and a release. Its only errors are NoSectionError and AttributeError. |
| Api.DestPathSegments | arado/api.py:74-81 | With plain segments the path is destination/mapping/[buildtype/]release. The build type appears exactly when it is truthy and not "release". |
| Api.Fetch | arado/api.py:107-112 | A request succeeds exactly on status 200, with the body stripped of trailing unicode whitespace. Another status raises PromotionError(body), and a failed request raises. |
| Api.APIWrapper.constructor | arado/api.py:87-91 | The wrapper keeps project, commit and config, and the cache starts empty. |
| Api.APIWrapper.Url | arado/api.py:93-98 | url is present exactly when [projects] names the project. |
| Api.APIWrapper.ApiUrl | arado/api.py:100-105 | api is present exactly when [general] has api-url. |
| Api.APIWrapper.Repository | arado/api.py:107-112 | repository fetches API_TEMPL formatted with api, url and commit, under Fetch's status rule. |
| Api.APIWrapper.Packages | arado/api.py:114-127 | packages never changes the cache. It answers a non-empty cache without requesting, and otherwise requests the repository and, when found, its listing, and answers []. |
| Api.FreshPackagesEmpty | arado/api.py:114-127 | A fresh wrapper answers [] on every call. |
| Repo.ProjectPath | arado/repo.py:54-59 | project_path is defined exactly for the four known projects. eucadw and eucalyptus-console map to eucalyptus. |
| Repo.SourcePath | arado/repo.py:61-65 | source_path ends in the repository URL with every server prefix and tail removed. A failed repository fails it. |
| Repo.SourcePathOfRepository | arado/repo.py:61-65 | For a URL that is server prefix, group and tail, the source path is SRC_PATH joined with the group. |
| Repo.DestJoin | arado/repo.py:70-74 | The destination join succeeds exactly when every segment is present, and fails with AttributeError otherwise. |
| Repo.DestPathAsWritten | arado/repo.py:67-74 | dest_path with the identity test succeeds exactly for a known project with a release. |
| Repo.DestPath | arado/repo.py:67-74 | dest_path compared by value succeeds exactly for a known project with a release, else raises AttributeError. |
| Repo.DestJoinPlain | arado/repo.py:70-74 | With plain segments the path is DEST_PATH/project/[buildtype/]release. |
| Repo.ReleaseSegmentKept | arado/repo.py:69 | A "release" build type that is not the interned literal yields ".../eucalyptus/release/3.2". |
| Repo.ReleaseSegmentDropped | arado/repo.py:69-74 | Compared by value, it yields ".../eucalyptus/3.2". |
| Repo.DestPathAgrees | arado/repo.py:69 | The two versions differ only for a "release" build type that is not the interned literal. |
| Repo.Url | arado/repo.py:93-98 | url is defined exactly for the four projects of REPO_MAP. |
| Repo.RepositoryRequest | arado/repo.py:102 | The request goes to the package server. |
| Repo.APIWrapper.constructor | arado/repo.py:87-91 | The wrapper keeps project, commit and release, and the cache starts empty. |
| Repo.APIWrapper.Repository | arado/repo.py:100-105 | repository requests the package server for the project's URL and commit. It succeeds exactly on status 200, with the body stripped of trailing whitespace; another status raises PromotionError(body), and a failed request raises. |
| Repo.APIWrapper.Packages | arado/repo.py:107-118 | A non-empty cache is answered without requests. Otherwise the listing's links minus the first are cached and returned. Any failure answers [] with the cache unchanged. |
| Repo.PackagesTwice | arado/repo.py:110-116 | Once packages answered a non-empty list, asking again answers the same list without a request. |
| Config.Call | arado/config.py:48-54 | Calling an accessor raises ConfigError for an unknown category. A known category gives exactly its section's options and values, and a missing section raises NoSectionError. |
| Config.Repr | arado/config.py:56-57 | repr is "<config: " + file + ">". |
| Config.ReprFilename | arado/config.py:56-64 | Two configurations have equal repr exactly when they have equal filename. |
| Config.UserFile | arado/config.py:71 | The user file ends with "/.arado.conf", and what comes before it is the home directory with exactly its trailing slashes dropped. |
| Config.TrimSlashes | arado/config.py:71 | rstrip("/") keeps a prefix that does not end in "/", and everything it removes is "/". |
| Config.Candidates | arado/config.py:67-72 | The candidates are /etc/arado.conf, then arado.conf joined to the working directory, then the user file. |
| Config.GetConfig | arado/config.py:66-74 | The first candidate that is a file is loaded. When none is, Exception("no config file found!") is raised. |
| Config.FirstFile | arado/config.py:66-74 | Of three candidates, the first that is a file is loaded; when none is, Exception("no config file found!") is raised. |
| Package.WithDefaults | arado/package.py:88-89 | The options are DEFAULT_OPTS overridden key by key by the caller's. |
| Package.WithDefaultsIdempotent | arado/package.py:88-89 | Applying the defaults twice changes nothing. |
| Package.SpecFile | arado/package.py:64-66 | SpecFile selects spec.tmpl. |
| Package.RepoFile | arado/package.py:69-71 | RepoFile selects repo.tmpl. |
| Package.UnsetKey | arado/package.py:57-59 | The first None-valued key in iteration order: every key before it has a value that is not None. None when no value is None. |
| Package.Str | arado/package.py:56-61 | Rendering raises ValueError naming an unset key exactly when some value is None (False is allowed). Otherwise it yields the rendered template. |
| Package.MissingRequiredFails | arado/package.py:75-80 | A required key the caller does not give makes rendering fail. |
| Package.RpmDirLayout | arado/package.py:92-97 | The rpm directory holds exactly RPMS, SPECS, SOURCES and BUILD, all directories. |
| Package.RpmDirKeeps | arado/package.py:92-97 | Nothing outside the new directory changes. |
| Package.CreateRpmDir | arado/package.py:92-97 | create_rpm_dir fails, changing nothing, without the temp root. Otherwise it returns the fresh directory laid out by RpmDir. |
| Package.MktempName | arado/package.py:103-104 | A mktemp name starts with "tmp" and ends with its suffix. |
| Package.Recorded | arado/package.py:100-106 | Before exporting the key, rpmdir and pubkey are added to the options. |
| Package.RecordedAll | arado/package.py:100-110 | Before rendering, rpmdir, pubkey and repofile are added. |
| Package.Exporting | arado/package.py:102-120 | The build always raises. A None key_name raises TypeError after the empty key file is created. Otherwise rendering follows, and the NameError of `write` is reached exactly when no option is None. |
| Package.Rendering | arado/package.py:108-120 | The repo file is built from the recorded options. The build fails with ValueError when some option is None, and otherwise at `write`. |
| Package.RenderingKeeps | arado/package.py:108-120 | Rendering writes only the repo and spec files. |
| Package.Building | arado/package.py:99-120 | build always raises. It reaches the NameError exactly when the temp root exists, key_name is a string and no recorded option is None. |
| Package.BuildRecordsPaths | arado/package.py:99-117 | A build records rpmdir and pubkey (and repofile) in its options, and the key file exists under SOURCES. |
| Package.ExportingRecords | arado/package.py:102-111 | From the export step on, rpmdir and pubkey (and repofile) are recorded. |
| Package.PathsApart | arado/package.py:103-117 | The key file is distinct from the repo and spec files. |
| Package.KeyName | arado/package.py:105 | The key is usable exactly when key_name is a string. |
| Package.DefaultKeyStops | arado/package.py:105-106 | With the default key_name (None) the build raises TypeError, with only the rpm directory and an empty key file created. |
| Package.PackageBuilder.constructor | arado/package.py:88-90 | The builder's options are the caller's over the defaults, with no templates yet. |
| Package.PackageBuilder.Build | arado/package.py:99-120 | build's new files, options, templates and outcome are those of Building. |
| Package.PackageBuilder.Export | arado/package.py:102-120 | The export-and-render part equals Exporting. |
| Package.PackageBuilder.RecordTree | arado/package.py:100-104 | rpmdir and pubkey are recorded in the options, as Recorded says; the templates are unchanged. |
| Package.PackageBuilder.RenderFiles | arado/package.py:108-120 | The rendering part equals Rendering. |

## Left out

- Output to the terminal (`print`) and os.walk's `onerror` printer are left out. They have no effect on state.
- Foreign code is modelled by parameters:
  - `os.walk` is a parameter;
  - the BeautifulSoup link parser (`parsefiles`, `links_from_html`) is a parameter;
  - jinja2 rendering is a parameter, and a template that cannot be found is not modelled;
  - gpg's output is a parameter;
  - `requests.get` is a parameter;
  - the matches of `glob.glob` in rebuild_repo (arado/aradoutil.py:176) are a parameter, not derived from the filesystem;
  - the exit codes of cp and rpmsign are parameters, and so are createrepo's exit code and the metadata tree it writes, whatever the exit code.
- ConfigParser's file reading, DEFAULT section and `%`-interpolation are not modelled. A configuration is its parsed sections.
- `set_gpghome`, `export_public_key` and `export_public_key_file` (arado/signing.py:80-97) are environment and file I/O. They are left out; the export step of `build` writes gpg's answer directly.
- `CommandEnvironment.exec_with_expect` and `exec_with_stdout` (arado/utils.py:76-91) are process handling and are left out.
- Environment.CommandEnvironment: the NameErrors of the class as written are not modelled. It uses several undefined names: `cmd` in the constructor (arado/utils.py:49), `BindMount` (line 57), a bare `chroot` in `chroot_prefix` (line 63), `dst` in `mount` (line 94) and `__do_mount` in `__enter__` and `__exit__` (lines 103 and 107). As written, the constructor therefore always raises NameError. The model gives the class its evident state machine instead: the constructor's decisions, the prefix of `self.chroot`, a mount of `self.dst`, and enter and exit testing the planned-mount flag. It also gives `__exit__` its intended arity: as written, `def __exit__(self)` (arado/utils.py:106) takes no exception arguments, so a `with` block raises TypeError when it calls `__exit__` with three; Environment.CommandEnvironment.Exit and RunScoped do not model that TypeError.
- The package import `from .util import SigningError` (arado/package.py:44) names a module that is not part of this model. The builder is modelled as if the import succeeded.
- The `rpmbuild` call and the final glob of `build` (arado/package.py:122-129) are unreachable, because `write` at line 120 is undefined.
- The commented-out `verifypath` decorator and `walkerror` are left out.
- Filesystem modelling:
  - permissions and ownership beyond directory modes are not modelled;
  - symbolic links are not followed;
  - `shutil.copy2` metadata is not modelled;
  - `shutil.move` is modelled as a rename.
- Concurrency and locking of the live repository path are left out.
- Merge.DestRoot: models `root.replace(source, dest)` as a prefix rewrite. It requires the source path to be a prefix of each walked root; an occurrence of the source elsewhere in the path is not modelled.
- Merge.CopyOne: when the re-rooted directory path already holds a regular file, `shutil.copy2` copies onto that file, and onto what a link there points to. The model raises OSError and changes nothing instead. Merge.CopyFiles and Merge.MergeWalk inherit this, so their "existing entries keep their node" holds only in the model for that case.
- Merge.CopyOne: `shutil.copy2`'s IOError for a source entry that cannot be read, such as a dangling symbolic link in the source tree, is not modelled. Every source file is read as its content.
- Merge.MergeEntry: inherits both gaps of Merge.CopyOne, for the file at the re-rooted directory path and for an unreadable source entry.
- Merge.MergeEntry: does not follow a directory symbolic link on the re-rooted path. The staging template links centos to rhel, and a source laid out as centos/6/x86_64 re-roots to dest/centos/6/...; `os.path.exists` and `os.mkdir` follow the link and write into dest/rhel/6, while the model finds no directory parent and raises OSError. Merge.CopyOne, Merge.MergeWalk and Promotion.RebuildStep (whose `IsDir` does not follow links either) share this gap, so the success lemmas of merge_repos (Promotion.Promoted, Promotion.PostMergeOrder, Merge.MergeCopiesMissing) cover only sources whose re-rooted paths contain no link, such as a tree laid out under rhel/.
- Merge.MergeWalk: a `repodata` directory's own subdirectories are assumed absent. The `continue` does not prune os.walk, and their files would still be copied.
- Promotion.SignWalk: signing is modelled by its actions and outcome only. The signatures it writes into the RPM files are not modelled.
- Promotion.SignOne: walks sign_repo without a chroot, as merge_repos calls it. The chrooted signing path is modelled by Signing.SignAttempt.
- Rebuild.Rebuild: does not model the OSError that `Popen` raises when the path is not a directory. merge_repos' loop models that error in Promotion.RebuildStep, and rebuild_all_repos only rebuilds directories.
- Replace.RenameChecked: models both `os.rename` and `shutil.move` as a rename onto an absent path. `shutil.move` onto an existing directory moves the source into that directory, and `os.rename` replaces an existing target of the same kind (a file, or an empty directory); the model raises OSError in both cases. So a `dest-temp` left behind by an earlier failed `replace_repo` makes the next call fail in the model, while the program goes on.
- Signing.Session: pexpect's wall-clock timeout is an event of the session, not time.
- Package.Str: Python 2's dict iteration order, which decides which unset key the ValueError names, is a parameter.
- Api.DestPath: states the error cases and, in Api.DestPathSegments, the value for plain segments. Segments containing slashes follow os.path.join in the function but have no lemma of their own.

## Findings

| source | as written | input that shows it | evidently intended | confidence | as-written member | corrected member |
|---|---|---|---|---|---|---|
| arado/repo.py:67-74 | `self.buildtype is not "release"` tests object identity | build type "release" read at run time (not the interned literal), project "eucalyptus", release "3.2": the path is /srv/software/releases/eucalyptus/release/3.2 | a "release" build type gets no segment: /srv/software/releases/eucalyptus/3.2, as arado/api.py:76 does with `!=` | not executed | Repo.DestPathAsWritten, Repo.ReleaseSegmentKept | Repo.DestPath, Repo.ReleaseSegmentDropped, Repo.DestPathAgrees |
