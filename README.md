# open-directory-downloader in Dafny

A model of the Node.js wrapper around the OpenDirectoryDownloader scanner,
together with the proofs about it. The wrapper has three parts.

- **Scanning** (`open-directory-downloader.js`). The wrapper builds the
  scanner's argument list and starts it through a shell. It collects the
  process's standard output and standard error. When the process closes, the
  wrapper scans the transcript for markers, extracts the report and the two
  file paths, reads the session file and deletes the files it was not asked
  to keep. The promise it returns can be settled once only; the first
  `reject`/`resolve` wins.
- **Installation** (`install.js`). The installer parses the configured
  version and picks the release archive for the platform and architecture.
  It finds the asset with that name and removes the old installation. The
  removal filter is meant to spare the folder holding earlier scans, but as
  written it spares nothing (see "## Findings"); the model states both the
  code as written and the corrected filter. After extraction it deletes the archive
  and, on linux only, makes the binary executable.
- **Layout** (`config.js`). This holds the installation folder, the output
  folder and the executable path, which ends in `.exe` on win32 only.

Modules, one per file:

- `Wrappers`: `Option` and `Result`.
- `JsStrings`: the JavaScript string operations the wrapper relies on.
  These are `indexOf`, `lastIndexOf`, `includes`, `split` with a non-empty
  separator and `join`. Each is given by a definition and a characterising
  property, such as joining a split giving back the text.
- `ScanArguments`: the option defaults and the argument list, built both as
  a function and as the pushing method of the source.
- `Extraction`: the marker tests, the text after
  `Saving URL list to file..`, the report between the first `|` and the last
  credits line, and the `Saved ...: (.*)` captures.
- `ScanOutcome`: the failures, the settle-once promise, and the close handler
  as an ordered list of settle attempts and deletions, with lemmas about
  which outcome each transcript gets.
- `Downloader`: the classes. `OpenDirectoryDownloader` holds the executable
  and the output directory. `Scan` holds the accumulated output, the promise
  state and the deletion log. Its handler methods are proved against
  `ScanOutcome`.
- `Config` and `Installer`: the installation layout and the installer's
  decisions.

External effects are parameters, as follows.

- Whether a file deletion succeeds is `unlinkOk`.
- Reading and parsing the session file is `load`.
- The answers of `existsSync`/`lstatSync`/`readdirSync` are booleans and
  listings.
- The platform and architecture are strings.
- The installer's file-system calls are recorded as a list of `FsStep`s.

## Model

| member | source | states |
|---|---|---|
| JsStrings.SplitLength | open-directory-downloader.js:83-90 | `split` gives more than one piece exactly when the separator occurs |
| JsStrings.Split | open-directory-downloader.js:83-93 | `split` with a non-empty separator always yields at least one piece, so `split(...)[0]` always exists |
| JsStrings.JoinCons | open-directory-downloader.js:50 | `join` puts exactly one separator between a first piece and the join of the rest |
| JsStrings.JoinAppend | open-directory-downloader.js:50 | `join` of two non-empty lists is their joins with one separator between |
| JsStrings.JoinFour | install.js:13 | four pieces join to the pieces with a separator between each pair |
| JsStrings.JoinSplit | open-directory-downloader.js:101 | joining the pieces of a split with the same separator gives the original text back |
| JsStrings.FromFirst | open-directory-downloader.js:101 | `sep + s.split(sep).slice(1).join(sep)` is the suffix from the first occurrence, or just `sep` if there is none |
| JsStrings.DropLastPieceIsPrefix | open-directory-downloader.js:101 | for a separator that cannot overlap itself, `split(sep).slice(0, -1).join(sep)` is the prefix before the last occurrence, empty when there is none |
| Extraction.CreditsShape | open-directory-downloader.js:98-99 | the credits marker begins with `^`, which it never repeats, so its occurrences never overlap |
| Extraction.FinalSegment | open-directory-downloader.js:93 | `split(...)[1]` is defined exactly when the marker occurs, and is then the text between its first occurrence and the next one (or the end) |
| Extraction.Report | open-directory-downloader.js:97-101 | the report is the text from the first pipe character up to the last credits marker; it is empty when either is missing or the marker comes first |
| Extraction.RestOfLine | open-directory-downloader.js:103 | a greedy `(.*)` takes a prefix without line terminators that ends at the end or at a terminator |
| Extraction.Capture | open-directory-downloader.js:103-113 | a capture exists exactly when the marker occurs, and is then the rest of the line after its first occurrence |
| ScanArguments.Normalize | open-directory-downloader.js:32-35 | each flag is true exactly when it was given as `true`; the output file is left as given |
| ScanArguments.WantsOutputFile | open-directory-downloader.js:45 | the output-file entries are wanted only for a given, non-empty name; a missing or empty name is refused |
| ScanArguments.BaseArguments | open-directory-downloader.js:38 | three entries: `-u ` followed by the URL unquoted, then `--quit` and `--json` |
| ScanArguments.Arguments | open-directory-downloader.js:38-48 | the list starts with `-u <url>`, `--quit`, `--json` and has the right length; `--upload-urls` then `--speedtest` come exactly when a speed test is asked for; `--output-file <name>` comes last exactly when a non-empty name is given |
| ScanArguments.BuildArguments | open-directory-downloader.js:38-48 | the pushes build exactly `Arguments` |
| ScanArguments.UploadUrlFileIgnored | open-directory-downloader.js:35-48 | `uploadUrlFile` has no effect on the argument list |
| ScanArguments.CommandLine | open-directory-downloader.js:50 | the shell command starts with the executable and a space, followed by the first argument when there is one |
| ScanArguments.JoinBaseArguments | open-directory-downloader.js:38 | the base entries join to `-u <url> --quit --json` |
| ScanArguments.JoinArguments | open-directory-downloader.js:50 | the joined list is the joined base entries, then a space and the joined optional entries, if any |
| ScanArguments.CommandLineStart | open-directory-downloader.js:50 | the shell command is the executable, a space, `-u <url> --quit --json`, then the optional entries |
| ScanOutcome.Settle | open-directory-downloader.js:77-84 | a settle attempt changes a pending promise only |
| ScanOutcome.SettleAll | open-directory-downloader.js:75-161 | after a run of attempts the promise holds the first attempt made while pending |
| ScanOutcome.SettleAllAppend | open-directory-downloader.js:75-161 | settling in two batches is settling with both in order |
| ScanOutcome.SettleAllSnoc | open-directory-downloader.js:141-154 | one more attempt after a batch settles the result of the batch |
| ScanOutcome.SplitsOn | open-directory-downloader.js:83-87 | a marker test `split(marker).length > 1` succeeds exactly when the marker occurs |
| ScanOutcome.KeptPath | open-directory-downloader.js:145-146 | a path is reported exactly when the file is kept |
| ScanOutcome.Record | open-directory-downloader.js:143-160 | the record carries the URL, no session yet, each file path exactly when that file is kept, the report of the segment and the credits |
| ScanOutcome.LoadEffects | open-directory-downloader.js:114-161 | the last stage of the handler never throws; what it settles and deletes is stated by `ScanOutcome.ResultRecord` and `ScanOutcome.Deletions` |
| ScanOutcome.SegmentEffects | open-directory-downloader.js:103-161 | once the segment exists, the handler never throws; its rejections are stated by `ScanOutcome.MissingPaths` |
| ScanOutcome.ChainEffects | open-directory-downloader.js:83-161 | after the exit-code test the handler throws exactly when indexing finished, something was found and the segment marker is missing, and then settles and deletes nothing; otherwise it makes one or two settle attempts |
| ScanOutcome.CloseEffectsOf | open-directory-downloader.js:75-161 | an exit code other than 1 makes an exit-failure rejection first and the chain still runs; with code 1 the attempts are the chain's; deletions and the throw are the chain's whatever the code |
| ScanOutcome.Close | open-directory-downloader.js:71-163 | a promise already settled, for example by a process error, is not changed by the close handler; a pending one stays pending exactly when the exit code is 1 and the handler throws |
| ScanOutcome.ChainReachesLoad | open-directory-downloader.js:83-127 | the handler reaches the session read, with the two captured paths, exactly when both paths are found; otherwise it deletes nothing |
| ScanOutcome.ExitFailureWins | open-directory-downloader.js:77-79 | any exit code other than 1 settles the scan as an exit failure carrying the code and standard error, whatever the transcript |
| ScanOutcome.MarkersInOrder | open-directory-downloader.js:83-90 | with exit code 1: no `Finished indexing` means never finished; a `No URLs to save` with it means nothing was found |
| ScanOutcome.MissingSegmentThrows | open-directory-downloader.js:93-101 | without the `Saving URL list to file..` marker the handler throws and deletes nothing; with exit code 1 the promise stays pending |
| ScanOutcome.MissingPaths | open-directory-downloader.js:103-113 | a missing session path is reported before a missing URL-list path; neither deletes a file |
| ScanOutcome.Deletions | open-directory-downloader.js:114-136 | whatever the exit code, the URL list is deleted exactly when it is not kept, then the session file exactly when it was read and is not kept; nothing is deleted when a path is missing |
| ScanOutcome.ResolvesExactly | open-directory-downloader.js:75-161 | the scan resolves exactly when the exit code is 1, both paths are found and the session reads |
| ScanOutcome.NoResolveWithoutPaths | open-directory-downloader.js:83-113 | before both paths are found the handler only rejects |
| ScanOutcome.ResultRecord | open-directory-downloader.js:124-161 | the result record holds the URL, the session, each path only when kept, the report and the credits; when the session does not read, the record goes with the rejection and the later `resolve` has no effect |
| Downloader.Deleted | open-directory-downloader.js:114-136 | the deleted files are exactly those whose deletion succeeds |
| Downloader.DeletedAppend | open-directory-downloader.js:114-136 | deletions in two batches log both in order |
| Downloader.DeletedAfter | open-directory-downloader.js:114-136 | the URL-list stage then the session stage, after any earlier deletions, log what one stage over both paths would |
| Downloader.OpenDirectoryDownloader.constructor | open-directory-downloader.js:8-17 | a missing argument takes the configured default; the output directory is created when missing |
| Downloader.OpenDirectoryDownloader.ScanUrl | open-directory-downloader.js:29-53 | a new scan with defaulted options, the argument list, the shell command, the output directory as working directory, and empty output |
| Downloader.Scan.constructor | open-directory-downloader.js:55-56 | output and error start empty; the promise is pending |
| Downloader.Scan.OnStdout | open-directory-downloader.js:61-64 | a chunk is appended to the output; nothing else changes |
| Downloader.Scan.OnStderr | open-directory-downloader.js:66-69 | a chunk is appended to the error text; nothing else changes |
| Downloader.Scan.OnError | open-directory-downloader.js:71-73 | a process error rejects the promise if it is still pending |
| Downloader.Scan.Settles | open-directory-downloader.js:77-84 | `reject`/`resolve` change a pending promise only |
| Downloader.Scan.Unlink | open-directory-downloader.js:114-122 | a deletion is logged when it succeeds; a failure is swallowed |
| Downloader.Scan.OnClose | open-directory-downloader.js:75-163 | the handler leaves the promise, the deletion log and the thrown flag as `CloseEffectsOf` describes |
| Downloader.Scan.SegmentStage | open-directory-downloader.js:101-113 | from the segment on, the handler acts as `SegmentEffects` describes |
| Downloader.Scan.LoadStage | open-directory-downloader.js:114-161 | from the two paths on, the handler acts as `LoadEffects` describes |
| Downloader.Scan.Unreadable | open-directory-downloader.js:138-161 | an unreadable session rejects first, then makes a `resolve` that loses |
| Config.ExecutablePath | config.js:9 | the executable lies in the installation folder and ends in `.exe` exactly on win32 |
| Installer.IsDottedQuad | install.js:13 | a text accepted as `\d+\.\d+\.\d+\.\d+` is at least seven characters long and starts and ends with a digit |
| Installer.WithoutV | install.js:13 | `^v?` strips at most one leading `v` |
| Installer.ParseVersion | install.js:13 | an accepted tag is the version, or `v` and the version |
| Installer.ParseVersionSound | install.js:13 | an accepted version is four digit groups joined by dots |
| Installer.DottedQuadShape | install.js:13 | a text with four digit groups between its dots is those groups joined by dots |
| Installer.ParseVersionComplete | install.js:13 | four digit groups joined by dots are accepted, with or without a leading `v`, and the `v` is stripped |
| Installer.ConfiguredVersion | config.js:4 | the configured tag `v1.9.3.3` gives version `1.9.3.3` |
| Installer.ArchiveName | install.js:18-34 | a release name starts with `OpenDirectoryDownloader-<version>-` and ends in `-self-contained.zip` |
| Installer.ReleaseName | install.js:16-38 | exactly the five supported platform/architecture pairs give a name, which is the archive name for the pair's system label; every other pair is an unsupported-platform error |
| Installer.AssetIndexFrom | install.js:40 | the position of the first asset with the name, or none when no asset has it |
| Installer.FindAsset | install.js:40-44 | the asset found is the first one with the name; there is none exactly when no asset has it |
| Installer.SelectRelease | install.js:13-46 | a malformed version, then an unsupported platform, then a missing asset stop the installer with that error; otherwise the URL is the download URL of the first asset carrying the archive name, the asset `find` returns |
| Installer.MarkedForRemoval | install.js:58-62 | every file is marked; with no name to keep every directory is marked too; a directory carrying the name to keep is not |
| Installer.DirentsToRemove | install.js:57-63 | an entry is removed exactly when it is marked: every file, and every directory not named as the output folder |
| Installer.DirentsKept | install.js:57-63 | the entries kept are exactly those not marked |
| Installer.RemovalPartition | install.js:57-63 | removed and kept entries together are the listing, as a multiset |
| Installer.KeptOnlyOutputFolder | install.js:57-63 | only a directory named as the output folder is kept |
| Installer.CleanupAsWritten | install.js:57-63 | as written, every entry is removed, the `Scans` directory included |
| Installer.Cleanup | install.js:57-63 | as intended, everything is removed except the `Scans` directory |
| Installer.OutputFolderNameMatches | config.js:8 | `Scans` is the last component of the configured output folder |
| Installer.Removals | install.js:65-71 | one recursive removal of `<folder>/<name>` per entry, in order |
| Installer.PrepareFolders | install.js:50-79 | with an existing installation folder the loop removes, in order, the entries the filter marks for the given name to keep, otherwise the folder is created; the output folder is then created if missing. As written, the name is `OUTPUT_FOLDER_NAME_AS_WRITTEN`; as corrected (install.js:59 finding), `OUTPUT_FOLDER_NAME` |
| Installer.RemovalOf | install.js:65-71 | every entry to remove yields its recursive removal step |
| Installer.ScansRemovedAsWritten | install.js:57-71 | as written, an existing `Scans` directory is among the recursive removals, so earlier scans are deleted |
| Installer.ScansSurvive | install.js:57-71 | as corrected (install.js:59 finding), the output folder holding earlier scans is never removed |
| Installer.AfterExtraction | install.js:98-104 | two steps on linux, one elsewhere: the archive is deleted first; the binary is made executable (mode 0o755) exactly on linux |
| Installer.ChmodTargetsExecutable | install.js:103 | the file made executable is the default executable path on linux |

## Left out

- Process spawning (`exec`, the shell, `setEncoding`) is not modelled. The
  command line and the working directory are recorded; the process itself is
  replaced by the calls of the `Scan` handlers.
- Standard output arrives as `string` chunks. UTF-8 decoding and how it
  splits characters across chunks are not modelled.
- The file system is not modelled. `existsSync`, `mkdirSync`, `lstatSync`,
  `readdirSync`, `readFileSync`, `unlinkSync`, `rmSync` and `chmodSync` are
  boolean or listing inputs, the `unlinkOk` and `load` oracles, or entries
  in a log of intended steps.
- `JSON.parse` and the contents of the session file are not modelled.
  `load` returns an opaque `Session` or `None` when reading or parsing
  fails.
- Error objects and message texts are replaced by `Failure` and
  `InstallError` constructors carrying the data the messages show: the exit
  code and standard error, the platform and architecture, the release name
  and the tag. The arrays that wrap some rejections (lines 72, 105, 111,
  141) are not modelled.
- ScanArguments.Normalize: JavaScript truthiness of non-boolean option values
  is not modelled. Flags are `Option<bool>` and the output file an
  `Option<string>`. The write-back of the defaults into the caller's options
  object is not modelled either.
- Extraction.Capture: the `length <= 1` tests of lines 104 and 110 can never
  fail for a successful match, so only `null` (`None`) is modelled.
- Downloader.Scan.OnClose: the uncaught `TypeError` of line 101 is returned
  as `threw`. What the event loop then does is not modelled.
- The exit code is an `Option<int>`, with `None` for the `null` code of a
  process ended by a signal. Signals themselves are not modelled.
- The network, archive and stream steps of `install.js` are not modelled.
  That covers both `fetch` calls, `res.ok`, piping to `ODD.zip`, `AdmZip`
  extraction, the outer `.catch` and the console messages. Only the
  decisions around them are modelled.
- Installer.PrepareFolders: whether the output folder exists after the
  removals is an input, not derived from the removals. The failure of
  `mkdirSync` on a folder that exists as a file is not modelled.
- Installer.ScansSurvive: it assumes that an entry named `Scans`, if any, is
  a directory.
- `errors.js` is not part of this model: the core does not use it.
- Later versions of the wrapper add more options (fast scan, exact sizes,
  threads, timeouts, user agent, credentials), quoted arguments and a memory
  watchdog. This version has none of them, and the model follows it.
  - The URL and the output-file name are passed unquoted.
  - `--upload-urls` is appended when `performSpeedtest` is set, not when
    `uploadUrlFile` is.
- `GitHubReleasesUrl` and `releaseId` (config.js:2, 5) only form the URL of
  the asset `fetch`, which is not modelled, so they are not modelled.

## Findings

| source | as written | input that shows it | evidently intended | confidence | as-written member | corrected member |
|---|---|---|---|---|---|---|
| install.js:59 | The filter keeps directories named `CONFIG.OpenDirectoryDownloaderOutputFolderName`. config.js defines no such property, so the list holds `undefined` and no directory is kept. | An installation folder whose listing holds `Dirent("Scans", true)`, the folder of earlier scans. It is marked for removal and deleted with `rmSync(..., { recursive: true })`. | Keep the output folder `Scans` (config.js:8), so that reinstalling does not delete earlier scans. | not executed | Installer.CleanupAsWritten | Installer.Cleanup |
