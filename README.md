# fs_image core, modelled in Dafny

A Dafny model of four parts of `fs_image`, the image-building toolkit, with
proofs of what each one promises:

- **The layer compiler** (`fs_image/compiler/compiler.py`):
  - `make_target_path_map` turns the `--child-dependencies` list
    `[target, path, target, path, ...]` into a map.
  - `build_image` checks the process umask. Inside an exit stack it then
    constructs every phase builder, runs them in order, builds the ordinary
    items in dependency order, and marks the subvolume read-only before the
    stack unwinds.
  - `Process` holds the umask and `Subvol` holds the read-only flag. The
    subvolume also records a trace of what was done to and around it.
  - The dependency graph and the items are collaborators. They appear as the
    values they hand the compiler, each carrying whether its step succeeds.
  - The function `Compiler.Protocol` states which run a given umask and graph
    produce. `BuildImage` is proved to perform exactly that run, and the
    ordering properties are proved about `Protocol`.
- **The download integrity check** (`fs_image/rpm/downloader/common.py`):
  - `verify_chunk_stream` passes every chunk through while counting bytes and
    feeding one hasher per checksum. It then checks the size first and each
    checksum in declared order.
  - Also modelled: the database retry schedule `DB_MAX_RETRY_S`, and the URL
    preparation in `download_resource`.
  - A hasher is a class holding the bytes fed to it. Its digest is an
    arbitrary function of the algorithm name and those bytes, passed in as a
    parameter.
- **The tarball item** (`fs_image/compiler/items/tarball.py`):
  - `customize_fields` edits the keyword-argument dictionary in place.
  - `provides()` runs over the archive's table of contents, given as a list
    of `(name, isDir)` members. `requires()` is also modelled.
  - `build` produces the `tar` argument list and the single container run.
- **The package-manager config rewriting** (`fs_image/rpm/write_yum_dnf_conf.py`):
  - the plugin and config paths, the versionlock plugin's files, and the new
    base and GPG key URLs of every repo;
  - the `--repo-server-ports` argument, parsed with Python's `str.split()`
    and `int()`.

Supporting modules:

- `Wrappers`: `Option`, `Result` and `Outcome`.
- `Strings`: the Python string operations the code uses, namely `join`,
  `split`, whitespace `split()`, `f'{n}'` and `int()`.
- `PosixPath`: `os.path.join`, `basename`, and `normpath` worked out on the
  names of a path.
- `ItemCommon`: a stand-in for the path helpers of
  `fs_image/compiler/items/common.py`, which is not part of this model. The
  behaviour there is the minimal one the tarball item relies on: `normpath`,
  leading slashes dropped, and a path that climbs out with `..` refused.

Two behaviours of the code that are easy to misread:

- The tarball's `force_root_ownership` check is `value in [True, False]`.
  Python also accepts the integers 1 and 0 there, and so does the model.
- With no ports, a repo without GPG keys is still rewritten. Only a repo
  that has a key fails, because only then is `server_urls[0]` evaluated.

## Model

| member | source | states |
|---|---|---|
| Compiler.MakeTargetPathMap | fs_image/compiler/compiler.py:39-47 | an odd-length list is refused with its contents in the error; otherwise the keys are exactly the elements at even positions, at most len/2 of them, and a repeated target maps to the path after its last occurrence |
| Compiler.PairsToMapKeys | fs_image/compiler/compiler.py:45-46 | `dict(zip(it, it))` has as keys exactly the targets at positions 0, 2, 4, ... |
| Compiler.PairsToMapLastWins | fs_image/compiler/compiler.py:45-47 | a target maps to the path following its last occurrence |
| Compiler.PairsToMapSize | fs_image/compiler/compiler.py:45-46 | the map has at most half as many keys as the list has elements |
| Compiler.SetUmask | fs_image/compiler/compiler.py:134-135 | `os.umask` installs the new mask and returns the one it replaced |
| Compiler.ProbeUmask | fs_image/compiler/compiler.py:134-135 | reading the umask by setting and restoring it returns the current mask and leaves it unchanged |
| Compiler.Subvol.MarkReadonly | fs_image/compiler/compiler.py:177 | the subvolume becomes read-only, recorded in its trace |
| Compiler.MakeBuilders | fs_image/compiler/compiler.py:162-166 | builders are constructed one per phase in phase order; the first phase whose input fails validation stops construction there |
| Compiler.RunBuilders | fs_image/compiler/compiler.py:162-167 | the constructed builders run on the subvolume in phase order until the first failure |
| Compiler.RunPhases | fs_image/compiler/compiler.py:162-167 | every builder is constructed before any builder runs; the result and trace are `PhasesRun` |
| Compiler.BuildItems | fs_image/compiler/compiler.py:170-174 | ordinary items are built in the order they are given, until the first failure |
| Compiler.FinishImage | fs_image/compiler/compiler.py:170-177 | the items are built one at a time as the ordering yields them, until the first failure; an error the ordering raises comes after the items yielded before it were built; only if everything succeeds is the subvolume made read-only |
| Compiler.InExitStack | fs_image/compiler/compiler.py:156-177 | the body of the exit stack performs exactly `InsideExitStack(graph)`, and the subvolume is read-only afterwards iff it succeeded (or already was) |
| Compiler.BuildImage | fs_image/compiler/compiler.py:128-177 | the umask is unchanged afterwards; the outcome and the trace added to the subvolume are exactly `Protocol(umask, graph)`; the subvolume ends read-only iff the build succeeded (or already was) |
| Compiler.UmaskCheckedFirst | fs_image/compiler/compiler.py:134-137 | the build is refused with `PathologicalUmask` exactly when the umask has the user-execute bit 0o100; then nothing is done; otherwise the exit stack unwinds exactly once, as the last event |
| Compiler.ReadonlyOnlyOnSuccess | fs_image/compiler/compiler.py:156-177 | `set_readonly` happens iff the build succeeds, and then immediately before the exit stack unwinds |
| Compiler.BuildersConstructedFirst | fs_image/compiler/compiler.py:162-167 | before any builder runs or any item is built, the trace holds one builder construction per phase, in phase order |
| Compiler.PhasesThenItemsInOrder | fs_image/compiler/compiler.py:162-177 | a successful build constructs all builders, runs them in order, builds each item exactly once in dependency order, sets read-only, then unwinds; all items succeeded and the ordering raised nothing |
| Compiler.PhasesRunBeforeItems | fs_image/compiler/compiler.py:162-174 | on every run, successful or not, a built item comes after all phase builders were constructed and then run, in phase order |
| Compiler.FailureStopsTheRun | fs_image/compiler/compiler.py:156-177 | a failing step is the last one before the exit stack unwinds: for an invalid phase, a failed phase, a failed item or an ordering error, the whole trace is the steps up to the failure, then the unwind |
| Compiler.ItemsBuiltBeforeOrderError | fs_image/compiler/compiler.py:170-177 | when the ordering raises after yielding items that all build, the build fails with that error after building them, and the subvolume is not made read-only |
| DownloaderCommon.SumOfPowersOfTwo | fs_image/rpm/downloader/common.py:40 | the delays `2 ** i` for `i` in `range(n)` add up to `2 ** n - 1` |
| DownloaderCommon.DbRetrySchedule | fs_image/rpm/downloader/common.py:40 | `DB_MAX_RETRY_S` is 1, 2, 4, ..., 128, 255 seconds in all |
| DownloaderCommon.TotalSizeIsLength | fs_image/rpm/downloader/common.py:101-104 | the size accumulated chunk by chunk is the length of the concatenated stream |
| DownloaderCommon.VerifyChunkStream | fs_image/rpm/downloader/common.py:98-119 | every chunk is yielded unchanged and in order; the error raised at the end is exactly `StreamVerdict`, the size check then the checksums over the concatenated bytes |
| DownloaderCommon.SizeCheckedFirst | fs_image/rpm/downloader/common.py:101-111 | a size error is reported iff the total length differs from `size`, with the expected and actual sizes, whatever the checksums say |
| DownloaderCommon.FirstMismatchIsFirst | fs_image/rpm/downloader/common.py:112-119 | a checksum error names the first checksum in declared order that does not match, with its expected and actual digest; there is no error iff all match |
| DownloaderCommon.ChecksumsInDeclaredOrder | fs_image/rpm/downloader/common.py:108-119 | with the right size, the stream completes without error iff every digest of the concatenated bytes matches, and otherwise fails on the first mismatching algorithm |
| DownloaderCommon.NormaliseRepoUrl | fs_image/rpm/downloader/common.py:144-145 | the result ends in '/', is the URL with at most one '/' added, and is the URL itself when it already ends in '/' (so normalising is idempotent) |
| DownloaderCommon.DownloadResource | fs_image/rpm/downloader/common.py:143-148 | a relative URL starting with '/' is refused; otherwise `urljoin` receives it unchanged with exactly `NormaliseRepoUrl` of the repo URL, which ends in '/' and adds at most one character |
| ItemCommon.MakePathNormalRelative | fs_image/compiler/items/tarball.py:46 | a path climbing above its start is refused; otherwise the result is normal, relative, and names the same place, and it is empty exactly for an absolute path naming the root |
| ItemCommon.NormaliseTwice | fs_image/compiler/items/tarball.py:46 | normalising a normalised path changes it no further (the absolute root '' becomes '.') |
| ItemCommon.CoercedPathField | fs_image/compiler/items/tarball.py:36 | an unset or `None` field leaves the dictionary as it was; a string is replaced by `make_path_normal_relative` of it, or refused with that function's error; any other value is refused; no other field changes |
| ItemCommon.CoercePathFieldNormalRelative | fs_image/compiler/items/tarball.py:36 | edits the dictionary in place to `CoercedPathField`, or leaves it untouched on error |
| Tarball.CustomizedFields | fs_image/compiler/items/tarball.py:34-37 | `into_dir` is coerced first and its error wins; then a missing `force_root_ownership` is refused, and a present one passes iff it equals True or False, failing with its value otherwise; on success the result is exactly the dictionary with `into_dir` coerced |
| Tarball.CustomizeFields | fs_image/compiler/items/tarball.py:34-37 | edits `kwargs` in place to the coerced dictionary, leaving it coerced but unchecked when the flag check fails |
| Tarball.MemberFact | fs_image/compiler/items/tarball.py:44-58 | a non-directory member gives a file fact at `into_dir` followed by its normal names; a directory gives a directory fact unless it resolves to `into_dir` itself; a name that climbs out is refused, and so is a directory whose joined path is empty (`into_dir` the root and the member `/` or the like), on which `relpath` raises |
| Tarball.ProvidesFailsIff | fs_image/compiler/items/tarball.py:44-58 | `provides()` fails iff some member is refused: its name climbs out of the extraction directory, or it is a directory on whose empty joined path `relpath` raises |
| Tarball.ProvidesUnderIntoDir | fs_image/compiler/items/tarball.py:44-58 | `provides()` yields at most one fact per member, and every fact lies under `into_dir` |
| Tarball.Provides | fs_image/compiler/items/tarball.py:39-58 | the loop over the members computes exactly `ProvidesFacts`: the facts of the members in archive order, or the first member's error |
| Tarball.PrefixFailure | fs_image/compiler/items/tarball.py:44-58 | once a member fails, the whole listing fails with that member's error |
| Tarball.ProvidesInMemberOrder | fs_image/compiler/items/tarball.py:44-58 | there is one fact per contributing member, and member `i`'s fact comes straight after those of the members before it |
| Tarball.Requires | fs_image/compiler/items/tarball.py:60-61 | exactly one requirement: the directory `into_dir` |
| Tarball.ProvidesUnderRequiredDirectory | fs_image/compiler/items/tarball.py:39-61 | every provided path lies under the one required directory |
| Tarball.TarArgv | fs_image/compiler/items/tarball.py:70-133 | `tar -C <work_dir>/<into_dir>`, then `-x`, `--xattrs` and `--force-local`; then `--no-same-owner` iff `force_root_ownership`; it ends with `--keep-old-files -f -` |
| Tarball.Build | fs_image/compiler/items/tarball.py:63-149 | fails iff the layer has no build appliance; otherwise one root run of `sh -uec '<tar> 0<&3'` in the appliance, with the subvolume mounted at the work directory and the archive forwarded as fd 3 |
| WriteYumDnfConf.PluginDirNames | fs_image/rpm/write_yum_dnf_conf.py:60 | the plugin directory is `<installer>/plugins`: the installer's name joined with `plugins`, two names |
| WriteYumDnfConf.ConfigPathNames | fs_image/rpm/write_yum_dnf_conf.py:61 | the config path is `<installer>/<installer>.conf`: two names, in the same directory as the plugins |
| WriteYumDnfConf.VersionlockFiles | fs_image/rpm/write_yum_dnf_conf.py:30-42 | `versionlock.conf` and an empty `versionlock.list` are written in the output's plugin directory |
| WriteYumDnfConf.LocklistUnderInstallDir | fs_image/rpm/write_yum_dnf_conf.py:33-42 | the `locklist` line names `versionlock.list` under the install directory's plugin directory, where the empty list written beside the config appears |
| WriteYumDnfConf.IsolateMainPathsAgree | fs_image/rpm/write_yum_dnf_conf.py:62-90 | the versionlock directory recorded in `[main]` is the directory whose `versionlock.list` the plugin configuration names; the recorded config is `<installer>/<installer>.conf` and the directory `<installer>/plugins`, both under the install directory |
| WriteYumDnfConf.Unparse | fs_image/rpm/write_yum_dnf_conf.py:75 | the URL starts with `scheme://netloc` |
| WriteYumDnfConf.ServerUrls | fs_image/rpm/write_yum_dnf_conf.py:70 | one `http://localhost:<port>` server per port, in port order |
| WriteYumDnfConf.RewriteRepo | fs_image/rpm/write_yum_dnf_conf.py:72-86 | a repo fails iff there are no ports and it has a GPG key; otherwise it keeps its name, gets one base URL per port, and keeps its number of keys |
| WriteYumDnfConf.RewriteRepos | fs_image/rpm/write_yum_dnf_conf.py:72-86 | every repo is rewritten in order; a failure is that of some repo |
| WriteYumDnfConf.RewriteFailsWithoutPorts | fs_image/rpm/write_yum_dnf_conf.py:70-85 | the rewrite fails iff there are no ports and some repo has a GPG key URL |
| WriteYumDnfConf.LocalhostUrl | fs_image/rpm/write_yum_dnf_conf.py:75 | `urlunparse` of `localhost:<port>` with a relative path is `http://localhost:<port>/<path>` |
| WriteYumDnfConf.BaseUrlPerPort | fs_image/rpm/write_yum_dnf_conf.py:70-76 | for a repo id (non-empty, no leading '/'), a rewritten repo has exactly one base URL per port, in port order, each `http://localhost:<port>/<repo name>` |
| WriteYumDnfConf.KeyUrl | fs_image/rpm/write_yum_dnf_conf.py:78-83 | one rewritten key URL is the key's basename under the repo name, on the given port, and keeps the key's file name |
| WriteYumDnfConf.GpgKeysToFirstPort | fs_image/rpm/write_yum_dnf_conf.py:77-85 | for a repo id (non-empty, no leading '/'), the rewritten key URLs are as many as the original ones, in the same order, each `http://localhost:<first port>/<repo name>/<basename of the key's path>` |
| WriteYumDnfConf.ParsePorts | fs_image/rpm/write_yum_dnf_conf.py:127 | the ports are the whitespace-separated tokens parsed by `int()`, in order; the first token that is not an integer fails the whole list |
| WriteYumDnfConf.ParseTokens | fs_image/rpm/write_yum_dnf_conf.py:127 | parsing fails iff some token is not an integer, and then names the first such token |
| WriteYumDnfConf.PortsRoundTrip | fs_image/rpm/write_yum_dnf_conf.py:127 | the space-separated decimal form of any ports parses back to exactly those ports |

## Left out

- `parse_args`, the `LayerOpts` construction in `build_image`, and the `SubvolumeOnDisk` serialisation are not modelled. They are command-line and JSON plumbing.
- `DependencyGraph` and `gen_items_for_features` are not part of this model. Phases and items are opaque values in the order the graph hands them over, each with a success flag. The ordering is given as the items it yields and the error, if any, it raises after them. The graph's conflict and cycle detection is not modelled, and neither is the `PhasesProvideItem` it is given.
- Several checks are Python `assert`s, which `python -O` would remove: the umask check (compiler.py:136-137), the `force_root_ownership` check (tarball.py:37), the build appliance check (tarball.py:64-67) and the relative URL check (common.py:146). The model always performs them.
- Compiler.BuildImage: the items' own temporary state pushed onto the exit stack is not modelled. Only the stack's single unwind is recorded.
- `retryable_db_ctx`, `_is_retryable_mysql_err`, `DownloadConfig`, `DownloadResult`, `log_size`, `timeit`, `maybe_write_id` and `_log_if_storage_ids_differ` are not modelled. They are database, clock, logging and HTTP I/O; the retry schedule they use is.
- DownloaderCommon.DownloadResource: `urljoin`, fetching the URL, and mapping an HTTP error to `HTTPError(location=relative_url)` are not modelled. They are URL-library internals and network I/O.
- DownloaderCommon.VerifyChunkStream: the chunks are a finite list and the caller consumes the whole stream; a consumer that stops early is not modelled.
- DownloaderCommon.VerifyChunkStream: `checksums` is read twice, once to create the hashers and once in the final `zip`. The model treats it as a list. A one-shot iterator would leave the second pass empty, and that case is not modelled.
- DownloaderCommon.VerifyChunkStream: the hash algorithms are foreign code. A digest is an arbitrary function of the algorithm name and the bytes fed.
- `BUFFER_BYTES` is not modelled: only the reads that are I/O use it.
- Tarball.CustomizedFields: the call to `ImageItem.customize_fields` goes to `fs_image/compiler/items/common.py`, which is not part of this model.
- ItemCommon.MakePathNormalRelative: items/common.py is not part of this model. This is the minimal behaviour its callers rely on. Any further checks it makes, such as on reserved directory names, are not modelled.
- Tarball.MemberFact: fact paths are compared in the image-absolute normal form (a list of names). The normalisation the fact classes apply is in `fs_image/compiler/requires_provides.py`, which is not part of this model.
- Tarball.MemberFact: the `normpath(relpath(path, into_dir)) == '.'` test is stated as "the member's normalised name is empty", once the empty path on which `relpath` raises is set aside. The two agree because a non-empty `path` is `into_dir` joined with that name.
- Tarball.Provides: reading and decompressing the archive (`open_for_read_decompress`, `tarfile`) is not modelled. The table of contents is given as a list, and the generator's laziness is not modelled.
- Tarball.Build: `generate_work_dir`, the decompressed archive's file descriptor and the subvolume's path are parameters. `pwd.getpwnam('root')` is the user name `root`, and the container run itself is not modelled.
- `fs_image/nspawn_in_subvol/non_booted.py` and `run.py` are not modelled: they start processes.
- WriteYumDnfConf.RewriteRepos: `YumDnfConfParser` (reading the INI file, `isolate`, `isolate_repos`, `isolate_main`, `write`) is not part of this model. Repos are given as their name, base URLs and GPG key URLs.
- WriteYumDnfConf.RewriteRepo: `urlparse` of a key URL is the parameter `pathOf`, giving its path component; URL parsing is library code.
- WriteYumDnfConf.Unparse: only `urlunparse` for a scheme that has a network location, such as `http`, is modelled, with empty parameters, query and fragment.
- WriteYumDnfConf.VersionlockFiles: `os.makedirs`, `create_ro` and the side-loaded `versionlock.py` plugin (read from a gzip resource) are not modelled. They are file I/O; only the names and contents of the two text files are.
- WriteYumDnfConf.ParsePorts: Python's `int()` also accepts non-ASCII decimal digits. The model accepts ASCII digits only.
- The `YumDnf` values `yum` and `dnf` come from `fs_image/rpm/yum_dnf_conf.py`, which is not part of this model.
