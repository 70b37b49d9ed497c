# zed-stylelint extension core, modelled in Dafny

This project models the Rust core of the Zed editor extension that launches
the Stylelint language server. Starting the server works like this. The
extension builds its configuration on first use. It checks whether the
server script of the configured LSP version is already in its cache
directory. If it is not, it downloads the release zip from GitHub into that
directory and checks that the script arrived. Then it removes every cache
directory on a fixed grid of versions (majors 1 to 5, minors 0 to 20,
patches 0 to 10) other than the current one, newer versions included. It then returns `node <script> --stdio` as
the command to run.

The model is functional:

- Strings are `seq<char>`.
- The filesystem is a set of directory paths plus a set of regular-file
  paths (`Files.FileSystem`).
- Errors are a `Result` datatype.
- The Zed host is outside the model. Every host call the extension makes
  (setting an installation status, `download_file`, `node_binary_path`)
  is recorded as an event in a call trace (`Host.HostCall`). What the host
  answers is an input: a `Host.DownloadOutcome` for the download, and a
  `Result` for the Node binary path.

Modules follow the source files:

- `LspCache` models `src/cache.rs`.
- `Config` models `src/config.rs`.
- `LspDownloader` models `src/lsp_downloader.rs`.
- `Extension` models `src/lib.rs`.

Supporting modules:

- `Wrappers`: Option and Result.
- `Strings`: splitting on a separator and joining back, and Rust's `{:?}`
  escaping of a string.
- `Decimal`: decimal numerals and their parser.
- `Files`: the abstract filesystem and `remove_dir_all`.
- `Host`: the host-call events.

Each operation has a partner it is proved against:

- The version-grid cleanup appears twice. `LspCache.Cleanup` is the
  set-wise reference. `LspCache.CleanupOldVersions` is the source's three
  nested loops, proved equal to `Cleanup`. The names the cleanup targets
  are also characterised by parsing them back (`LspCache.ParseCacheDir`).
- The asset URL is read back through its `/`-separated segments.
- A network error's text is read back to its URL and message.
- The server command is tied to the cache: the script it runs is the one
  the cache lookup finds afterwards.
- Decimal rendering and parsing are proved mutually inverse, and so are
  splitting and joining.

Two places in `src/lsp_downloader.rs` do not compile as written. The model
follows their evident intent:

- Line 47 calls `cache.cache_dir()`, which `Cache` does not define. The
  model downloads into `version_dir()` (`src/cache.rs:15`).
- Lines 55 and 67 call `.exists()` and `.to_string_lossy()` on
  `server_path`, which is a `String`. The model reads "exists" as "a regular
  file is at that path", as the comment on line 53 says ("Verify server
  file exists"), and returns the path string itself.

## Model

| member | source | states |
|---|---|---|
| `LspCache.NewCache` | src/cache.rs:8-12 | the cache directory is `lsp-cache-` followed by exactly the given LSP version |
| `LspCache.ServerPath` | src/cache.rs:20-22 | the server path lies directly inside the version directory (the directory then `/` as a prefix) and names `start-server.js` |
| `LspCache.FindCachedBuild` | src/cache.rs:26-32 | a hit happens exactly when a regular file exists at the server path, and a hit always returns that path, never another |
| `Decimal.NatToString` | src/cache.rs:44 | a number is written as a canonical decimal numeral (digits only, no leading zero) whose value is the number |
| `Decimal.ParseNatToString` | src/cache.rs:44 | parsing the numeral of a number gives the number back |
| `Decimal.ParseNat` | src/cache.rs:44 | the numeral parser accepts exactly the strings that some number is written as, and returns that number |
| `LspCache.ParseOldDirName` | src/cache.rs:44 | every name `lsp-cache-{major}.{minor}.{patch}` reads back as the version it was built from |
| `LspCache.ParseVersionThree` | src/cache.rs:44 | three dot-free components read as a version exactly when each is a canonical numeral, and then as their values |
| `LspCache.OldDirNameOfParse` | src/cache.rs:44 | every name that reads as a version is exactly the name built from that version |
| `LspCache.OldVersionDirsCharacterization` | src/cache.rs:41-44 | the loops generate exactly the names `lsp-cache-M.m.p` with 1 <= M <= 5, 0 <= m <= 20, 0 <= p <= 10 written in canonical numerals |
| `LspCache.RemovalSetCharacterization` | src/cache.rs:38-47 | cleanup targets a name if and only if it is such a grid name and is not the current version directory |
| `LspCache.OldDirNameIsOldVersionDir` | src/cache.rs:41-43 | a generated name is a grid directory exactly when its numbers lie inside the loop bounds |
| `LspCache.Cleanup` | src/cache.rs:35-51 | the cleanup only deletes: every directory and file afterwards was there before |
| `Files.RemoveDirAll` | src/cache.rs:46 | on an existing directory, that directory and exactly the entries below it disappear; on a missing path or a regular file the call fails, the error is ignored and nothing changes |
| `LspCache.CleanupOldVersions` | src/cache.rs:35-51 | the triple loop that calls `remove_dir_all` on every grid name except the current one leaves the same filesystem as the set-wise cleanup |
| `Files.RemoveDirsCompose` | src/cache.rs:41-47 | removing one batch of directories and then another equals removing both at once, so the order of the loop's removals does not matter |
| `Files.RemoveDirsFrame` | src/cache.rs:46 | `remove_dir_all` leaves every entry that is neither a target nor below one unchanged |
| `Files.RemoveDirsOnlyTargets` | src/cache.rs:46 | everything `remove_dir_all` deletes is a target directory or lies below one |
| `Files.RemoveDirsRemoves` | src/cache.rs:46 | a target that is a directory is gone afterwards, together with every file and directory below it |
| `LspCache.CleanupKeepsCurrent` | src/cache.rs:38-47 | the current version directory and every file and directory below it are unchanged by the cleanup (for versions without `/`) |
| `LspCache.CleanupPreservesCacheHit` | src/cache.rs:26-47 | the cache lookup gives the same answer after the cleanup as before, so a hit stays a hit |
| `LspCache.CleanupRemovesOnlyOldVersions` | src/cache.rs:41-47 | every removed file or directory is a grid version directory other than the current one, or lies below such a directory |
| `LspCache.CleanupRemovesOldVersions` | src/cache.rs:41-47 | every grid version directory other than the current one is removed, together with everything below it |
| `LspCache.CleanupTopLevel` | src/cache.rs:41-47 | a top-level directory survives exactly when it is the current one or not a grid version directory; a top-level regular file always survives |
| `LspCache.CleanupIdempotent` | src/cache.rs:41-47 | running the cleanup twice leaves the same filesystem as running it once |
| `LspCache.MajorAboveGridExample` | src/cache.rs:41 | `lsp-cache-6.0.0` is outside the grid, so the cleanup spares it |
| `LspCache.MajorBelowGridExample` | src/cache.rs:41 | `lsp-cache-0.9.1` is outside the grid, so the cleanup spares it |
| `LspCache.MinorAboveGridExample` | src/cache.rs:42 | `lsp-cache-1.21.0` is outside the grid, so the cleanup spares it |
| `LspCache.PatchAboveGridExample` | src/cache.rs:43 | `lsp-cache-5.20.11` is outside the grid, so the cleanup spares it |
| `LspCache.GridCornerExample` | src/cache.rs:41-43 | `lsp-cache-5.20.10`, the last name the loops generate, is a grid name |
| `LspCache.LeadingZeroExample` | src/cache.rs:44 | `lsp-cache-01.0.0` is not a grid name, since the loops write numbers without leading zeros |
| `LspCache.MissingComponentExample` | src/cache.rs:44 | `lsp-cache-1.0` is not a grid name, since grid names have three components |
| `LspCache.PreReleaseExample` | src/cache.rs:44 | `lsp-cache-1.0.0-beta` is not a grid name, since grid names carry no suffix |
| `LspCache.NestedCurrentIsRemoved` | src/cache.rs:38-46 | for the version `1.0.0/x` the cleanup deletes the cached server, so the slash-free condition above cannot be dropped |
| `Config.NewConfig` | src/config.rs:11-21 | the extension version and the LSP version are `2.0.2` and the repository is `florian-sanders/zed-stylelint` |
| `Config.AssetUrl` | src/config.rs:25-30 | the asset URL starts with `https://github.com/` and ends with `.zip` |
| `Config.AssetUrlSegments` | src/config.rs:23-29 | for extension and LSP versions without `/`: split at `/`, the URL is `https:`, an empty segment, `github.com`, the repository's segments, `releases`, `download`, the extension version as release tag, then `stylelint-language-server-v<lsp>.zip`; only the file name carries the LSP version |
| `Config.AssetUrlInjective` | src/config.rs:25-30 | for extension and LSP versions without `/`, two configurations with the same asset URL are equal: the URL determines the repository, the tag and the LSP version |
| `Config.AssetUrlSlashCollision` | src/config.rs:25-30 | with a `/` in a version the URL is ambiguous: moving `/stylelint-language-server-v<v1>` from the front of the LSP version to the end of the tag leaves the URL unchanged |
| `Config.AssetUrlHasNoSpace` | src/config.rs:25-30 | a configuration without spaces gives a URL without spaces |
| `Config.DefaultRepoSegments` | src/config.rs:13 | the shipped repository is the two segments `florian-sanders` and `zed-stylelint` |
| `Config.DefaultAssetFileName` | src/config.rs:12-28 | the shipped asset file is `stylelint-language-server-v2.0.2.zip`; with `Config.AssetUrlSegments` and `Config.DefaultRepoSegments`, the shipped URL is `https://github.com/florian-sanders/zed-stylelint/releases/download/2.0.2/stylelint-language-server-v2.0.2.zip` |
| `LspDownloader.Display` | src/lsp_downloader.rs:16-27 | `Network` renders as `Failed to download from ` followed by exactly `<url>: <message>`; `Extraction` renders as `Failed to extract language server: ` followed by exactly its message |
| `LspDownloader.DisplayNetworkInjective` | src/lsp_downloader.rs:19-21 | for URLs without spaces, the rendering of a network error determines its URL and its message |
| `LspDownloader.DisplayNetworkAmbiguous` | src/lsp_downloader.rs:19-21 | without that condition two network errors can render alike: URL `a: b` with message `c`, and URL `a` with message `b: c` |
| `LspDownloader.DisplayDistinguishesKinds` | src/lsp_downloader.rs:19-24 | a network error and an extraction error never render to the same text |
| `LspDownloader.DisplayExtractionInjective` | src/lsp_downloader.rs:22-24 | the rendering of an extraction error determines its message |
| `Strings.DebugString` | src/lsp_downloader.rs:57-60 | `{:?}` of a string is quoted and the text between the quotes unescapes back to the string; a string with no quote, backslash, NUL, tab, carriage return or newline is printed as itself between quotes |
| `Strings.UnescapeEscape` | src/lsp_downloader.rs:57-60 | the `{:?}` escaping of the server path in the extraction message can be read back to the exact path |
| `LspDownloader.MissingServerMessage` | src/lsp_downloader.rs:56-61 | the message is `Server file not found at `, then the `{:?}` rendering of the path, then ` after extraction` |
| `LspDownloader.MissingServerMessagePlain` | src/lsp_downloader.rs:56-61 | a path with no character to escape appears in the extraction message verbatim between double quotes |
| `LspDownloader.DownloadAndExtract` | src/lsp_downloader.rs:70-78 | one zip download of the asset URL is requested; it fails exactly when the host download fails, with the message `Download failed: <reason>` |
| `LspDownloader.DownloadAndVerify` | src/lsp_downloader.rs:34-68 | `Downloading` is reported first, then the asset is downloaded into the version directory. A host failure becomes `Network` carrying the asset URL. A missing server file is exactly the `Extraction` case, and its message is `MissingServerMessage` of the server path. Success happens exactly when the file arrived, and returns the server path. Cleanup runs only on success and cannot turn success into an error |
| `LspDownloader.MissingServerError` | src/lsp_downloader.rs:53-61 | for a version with nothing to escape, a missing server file gives the error `Server file not found at "<server path>" after extraction` |
| `LspDownloader.DownloadSuccessIsCacheHit` | src/lsp_downloader.rs:54-67 | after a successful download and the cleanup, the cache lookup returns the path the downloader returned |
| `LspDownloader.DownloadAnnounced` | src/lsp_downloader.rs:42-51 | the download is never requested before `Downloading` has been reported for the server |
| `Extension.NewExtension` | src/lib.rs:23-25 | a new extension holds no configuration yet |
| `Extension.EnsureConfig` | src/lib.rs:27-32 | afterwards a configuration is present. An existing one is returned and the extension is unchanged. Only when none exists is the shipped configuration created |
| `Extension.ServerScriptPath` | src/lib.rs:34-48 | the first call reports `CheckingForUpdate`. On a cache hit it returns the cached path and makes exactly two host calls, `CheckingForUpdate` then `None`, without downloading or touching the filesystem |
| `Extension.ServerScriptPathMiss` | src/lib.rs:50-62 | on a cache miss its host calls are `CheckingForUpdate`, then exactly the downloader's calls, then `None` only on success; it leaves the downloader's filesystem and returns the downloader's path with statuses `CheckingForUpdate, Downloading, None`, or the downloader error's `Display` text with statuses `CheckingForUpdate, Downloading` and no final `None` |
| `Extension.AfterDownload` | src/lib.rs:50-62 | after a cache miss the host calls are `CheckingForUpdate`, the downloader's calls, then `None` only on success, so the status trace is the downloader's trace between those two; the filesystem is the downloader's, and the result is its path or its error's `Display` text |
| `Extension.ServerScriptPathStatusesFor` | src/lib.rs:38-59 | every status the call reports is for the server it was asked about |
| `Extension.ServerScriptPathAnnouncesDownloads` | src/lib.rs:38-54 | in a whole `server_script_path` call every download request follows a `Downloading` report |
| `Extension.SecondCallHitsCache` | src/lib.rs:43-61 | after a successful call, the next call returns the same path from the cache and requests no download |
| `Extension.ConfigCreatedOnce` | src/lib.rs:27-35 | over any sequence of calls from a fresh extension, the configuration is created on the first call only and stays the shipped configuration |
| `Extension.LanguageServerCommand` | src/lib.rs:70-82 | a script error is passed on without asking for the Node binary. Otherwise a Node-binary error is passed on, or the command is the Node binary with exactly the arguments `[server path, "--stdio"]` and an empty environment |
| `Extension.LanguageServerCommandRunsCachedScript` | src/lib.rs:70-82 | a successful command runs the host's Node binary on the script the cache lookup finds in the filesystem the call leaves (for versions without `/`) |

## Left out

- The Zed host API (`set_language_server_installation_status`, `download_file`, `node_binary_path`) is foreign code. Its calls are trace events. Its answers are inputs.
- Networking and zip extraction are not modelled. The host's download is an input outcome: failure with a reason, or success. Either way it comes with the filesystem the host leaves behind.
- `fs::metadata` and `fs::remove_dir_all` are reduced to set operations. Permissions, symbolic links and partially failed removals are not modelled. A failed removal is a no-op, since the source discards the error.
- `language_server_workspace_configuration` (src/lib.rs:84-95) passes host-provided settings through and has no logic of its own.
- The `register_extension!` macro and the `Default` impl are boilerplate.
- Rust's `{:?}` writes non-printable characters as `\u{..}` escapes. The model escapes only `\0`, `\t`, `\r`, `\n`, `"` and `\`.
- `LanguageServerInstallationStatus::Failed` is never set by the extension and is not modelled.
- The CI scripts under `.github/actions` are not part of this model. They handle release and asset publishing, update pull requests and upstream builds.
- LspDownloader.DownloadAndVerify: "exists" means a regular file at the server path. `Path::exists` would also accept a directory of that name.
- LspCache.CleanupKeepsCurrent: proved only for LSP versions without `/`. The source version is the constant `2.0.2`. `LspCache.NestedCurrentIsRemoved` shows the property fails otherwise.
- LspCache.CleanupPreservesCacheHit: same condition as `CleanupKeepsCurrent`.
- LspDownloader.DownloadSuccessIsCacheHit: same condition as `CleanupKeepsCurrent`.
- Extension.SecondCallHitsCache: same condition, stated as `FlatVersion`.
- Config.AssetUrlSegments: proved only for extension and LSP versions without `/`. The shipped `2.0.2` qualifies. With a `/` the segments shift.
- Config.AssetUrlInjective: same condition. `Config.AssetUrlSlashCollision` shows that two configurations give the same URL otherwise.
- LspDownloader.DisplayNetworkInjective: proved only for URLs without spaces. `LspDownloader.DisplayNetworkAmbiguous` shows the rendering is ambiguous otherwise.
- Extension.LanguageServerCommandRunsCachedScript: same condition as `CleanupKeepsCurrent`, stated as `FlatVersion`.
