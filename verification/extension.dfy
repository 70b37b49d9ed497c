/** The extension itself (src/lib.rs): lazy configuration, the cache-hit or
    download decision that yields the server script, and the command Zed
    runs to start the language server. */
module Extension {
  import opened Wrappers
  import opened Files
  import opened Host
  import opened Config
  import opened LspCache
  import opened LspDownloader

  /** `StylelintExtension`: the configuration is created on first use. */
  datatype StylelintExtension = StylelintExtension(config: Option<LspConfig>)

  /** `StylelintExtension::new`: no configuration yet. */
  function NewExtension(): (ext: StylelintExtension)
    ensures ext.config.None?
  {
    StylelintExtension(Option.None)
  }

  /** `ensure_config`: create the configuration if absent, and hand back the
      one in place. */
  function EnsureConfig(ext: StylelintExtension): (r: (StylelintExtension, LspConfig))
    ensures r.0.config == Some(r.1)
    ensures ext.config.Some? ==> r.0 == ext && r.1 == ext.config.value
    ensures ext.config.None? ==> r.1 == NewConfig()
  {
    match ext.config
    case Some(c) => (ext, c)
    case None => (StylelintExtension(Some(NewConfig())), NewConfig())
  }

  /** One call of an extension method: the extension afterwards, the result
      (errors as strings, like `zed::Result`), the filesystem afterwards and
      the host calls made, in order. */
  datatype Step<T> = Step(ext: StylelintExtension, result: Result<T, string>, fs: FileSystem, calls: seq<HostCall>)

  /** The cache the extension consults for a configuration. */
  function CacheOf(c: LspConfig): Cache {
    NewCache(c.lspVersion)
  }

  /** The cache-miss tail of `server_script_path`: the downloader's calls
      after `CheckingForUpdate`, and `None` only when it succeeded. */
  function AfterDownload(ext: StylelintExtension, serverId: string, d: Download<string>): (r: Step<string>)
    ensures r.ext == ext && r.fs == d.fs
    ensures r.result == (if d.result.Success? then Success(d.result.value) else Failure(Display(d.result.error)))
    ensures r.calls == [SetStatus(serverId, InstallationStatus.CheckingForUpdate)] + d.calls
                       + (if d.result.Success? then [SetStatus(serverId, InstallationStatus.None)] else [])
    ensures StatusTrace(r.calls)
            == [InstallationStatus.CheckingForUpdate] + StatusTrace(d.calls)
               + (if d.result.Success? then [InstallationStatus.None] else [])
  {
    var checking := [SetStatus(serverId, InstallationStatus.CheckingForUpdate)];
    var done := [SetStatus(serverId, InstallationStatus.None)];
    StatusTraceAppend(checking, d.calls);
    StatusTraceAppend(checking + d.calls, done);
    match d.result
    case Failure(e) => Step(ext, Failure(Display(e)), d.fs, checking + d.calls)
    case Success(serverPath) => Step(ext, Success(serverPath), d.fs, checking + d.calls + done)
  }

  /** `server_script_path`: report `CheckingForUpdate`; on a cache hit
      report `None` and return the cached path; otherwise run the
      downloader, turning its error into its `Display` text, and report
      `None` only after a successful download. `outcome` is what the host's
      download would do; it is consulted only on a miss. */
  function ServerScriptPath(ext: StylelintExtension, serverId: string, fs: FileSystem, outcome: DownloadOutcome)
    : (r: Step<string>)
    ensures r.ext == EnsureConfig(ext).0
    ensures |r.calls| >= 1 && r.calls[0] == SetStatus(serverId, InstallationStatus.CheckingForUpdate)
    ensures var c := CacheOf(EnsureConfig(ext).1);
            FindCachedBuild(c, fs).Some? ==>
              && r.result == Success(ServerPath(c))
              && r.fs == fs
              && NoDownloads(r.calls)
              && r.calls == [SetStatus(serverId, InstallationStatus.CheckingForUpdate),
                             SetStatus(serverId, InstallationStatus.None)]
              && StatusTrace(r.calls) == [InstallationStatus.CheckingForUpdate, InstallationStatus.None]
  {
    var (ext', config) := EnsureConfig(ext);
    var c := CacheOf(config);
    var checking := [SetStatus(serverId, InstallationStatus.CheckingForUpdate)];
    var done := [SetStatus(serverId, InstallationStatus.None)];
    match FindCachedBuild(c, fs)
    case Some(cachedPath) =>
      StatusTraceAppend(checking, done);
      Step(ext', Success(cachedPath), fs, checking + done)
    case None =>
      AfterDownload(ext', serverId, DownloadAndVerify(Downloader(config), c, serverId, outcome))
  }

  /** The statuses around a download that reported only `Downloading`. */
  lemma AfterDownloadTrace(ext: StylelintExtension, serverId: string, d: Download<string>)
    requires StatusTrace(d.calls) == [InstallationStatus.Downloading]
    ensures var r := AfterDownload(ext, serverId, d);
            && (d.result.Failure? ==>
                  StatusTrace(r.calls) == [InstallationStatus.CheckingForUpdate, InstallationStatus.Downloading])
            && (d.result.Success? ==>
                  StatusTrace(r.calls)
                  == [InstallationStatus.CheckingForUpdate, InstallationStatus.Downloading, InstallationStatus.None])
  {
    var checking, downloading := [InstallationStatus.CheckingForUpdate], [InstallationStatus.Downloading];
    if d.result.Success? {
      assert checking + downloading + [InstallationStatus.None]
          == [InstallationStatus.CheckingForUpdate, InstallationStatus.Downloading, InstallationStatus.None];
    } else {
      assert checking + downloading + [] == [InstallationStatus.CheckingForUpdate, InstallationStatus.Downloading];
    }
  }

  /** On a cache miss `server_script_path` hands over to the downloader: its
      filesystem, its path or its error's `Display` text, and its host calls
      between `CheckingForUpdate` and a final `None` that only success
      reports. */
  lemma ServerScriptPathMiss(ext: StylelintExtension, serverId: string, fs: FileSystem, outcome: DownloadOutcome)
    ensures var config := EnsureConfig(ext).1;
            var c := CacheOf(config);
            var d := DownloadAndVerify(Downloader(config), c, serverId, outcome);
            var r := ServerScriptPath(ext, serverId, fs, outcome);
            FindCachedBuild(c, fs).None? ==>
              && r.fs == d.fs
              && r.calls == [SetStatus(serverId, InstallationStatus.CheckingForUpdate)] + d.calls
                            + (if d.result.Success? then [SetStatus(serverId, InstallationStatus.None)] else [])
              && (d.result.Failure? ==>
                    && r.result == Failure(Display(d.result.error))
                    && StatusTrace(r.calls) == [InstallationStatus.CheckingForUpdate, InstallationStatus.Downloading])
              && (d.result.Success? ==>
                    && r.result == Success(d.result.value)
                    && StatusTrace(r.calls)
                       == [InstallationStatus.CheckingForUpdate, InstallationStatus.Downloading, InstallationStatus.None])
  {
    var config := EnsureConfig(ext).1;
    var c := CacheOf(config);
    if FindCachedBuild(c, fs).None? {
      var d := DownloadAndVerify(Downloader(config), c, serverId, outcome);
      assert ServerScriptPath(ext, serverId, fs, outcome) == AfterDownload(EnsureConfig(ext).0, serverId, d);
      AfterDownloadTrace(EnsureConfig(ext).0, serverId, d);
    }
  }

  /** Every status `server_script_path` reports is for the server it was
      asked about. */
  lemma ServerScriptPathStatusesFor(ext: StylelintExtension, serverId: string, fs: FileSystem, outcome: DownloadOutcome)
    ensures StatusesFor(ServerScriptPath(ext, serverId, fs, outcome).calls, serverId)
  {
    var config := EnsureConfig(ext).1;
    var c := CacheOf(config);
    var checking := [SetStatus(serverId, InstallationStatus.CheckingForUpdate)];
    var done := [SetStatus(serverId, InstallationStatus.None)];
    if FindCachedBuild(c, fs).None? {
      var d := DownloadAndVerify(Downloader(config), c, serverId, outcome);
      StatusesForAppend(checking, d.calls, serverId);
      StatusesForAppend(checking + d.calls, done, serverId);
    } else {
      StatusesForAppend(checking, done, serverId);
    }
  }

  /** A configuration whose LSP version cannot nest the cache directory
      inside another one. */
  predicate FlatVersion(ext: StylelintExtension) {
    ext.config.Some? ==> '/' !in ext.config.value.lspVersion
  }

  /** Every download request of `server_script_path` comes after
      `Downloading` was reported. */
  lemma ServerScriptPathAnnouncesDownloads(ext: StylelintExtension, serverId: string, fs: FileSystem, outcome: DownloadOutcome)
    ensures DownloadingAnnounced(ServerScriptPath(ext, serverId, fs, outcome).calls, serverId)
  {
    var r := ServerScriptPath(ext, serverId, fs, outcome);
    var config := EnsureConfig(ext).1;
    var c := CacheOf(config);
    if FindCachedBuild(c, fs).None? {
      var d := DownloadAndVerify(Downloader(config), c, serverId, outcome);
      var checking := [SetStatus(serverId, InstallationStatus.CheckingForUpdate)];
      var done := [SetStatus(serverId, InstallationStatus.None)];
      var calls := if d.result.Success? then checking + d.calls + done else checking + d.calls;
      assert r.calls == calls;
      var announce := SetStatus(serverId, InstallationStatus.Downloading);
      assert calls[0].SetStatus? && calls[1] == announce;
      forall i | 0 <= i < |calls| && calls[i].DownloadFile?
        ensures exists j :: 0 <= j < i && calls[j] == announce
      {
        assert 1 < i && calls[1] == announce;
      }
    }
  }

  /** After a successful call, the next call finds the server in the cache:
      it returns the same path without asking the host for a download. */
  lemma SecondCallHitsCache(ext: StylelintExtension, serverId: string, fs: FileSystem,
                            first: DownloadOutcome, second: DownloadOutcome)
    requires FlatVersion(ext)
    requires ServerScriptPath(ext, serverId, fs, first).result.Success?
    ensures var r1 := ServerScriptPath(ext, serverId, fs, first);
            var r2 := ServerScriptPath(r1.ext, serverId, r1.fs, second);
            && r2.result == r1.result
            && r2.fs == r1.fs
            && NoDownloads(r2.calls)
  {
    var r1 := ServerScriptPath(ext, serverId, fs, first);
    var config := EnsureConfig(ext).1;
    var c := CacheOf(config);
    assert '/' !in config.lspVersion;
    if FindCachedBuild(c, fs).None? {
      ServerScriptPathMiss(ext, serverId, fs, first);
      DownloadSuccessIsCacheHit(Downloader(config), config.lspVersion, serverId, first);
    }
  }

  /** A session: `server_script_path` called once per host download outcome,
      threading the extension and the filesystem; also counts the calls
      that had to create the configuration. */
  function Session(ext: StylelintExtension, serverId: string, fs: FileSystem, outcomes: seq<DownloadOutcome>)
    : (StylelintExtension, FileSystem, nat)
    decreases |outcomes|
  {
    if |outcomes| == 0 then (ext, fs, 0)
    else
      var step := ServerScriptPath(ext, serverId, fs, outcomes[0]);
      var (ext', fs', inits) := Session(step.ext, serverId, step.fs, outcomes[1..]);
      (ext', fs', inits + if ext.config.None? then 1 else 0)
  }

  /** The configuration is created lazily and exactly once: a session from a
      fresh extension creates it on its first call and never again, and it
      is the shipped configuration from then on. */
  lemma {:induction false} ConfigCreatedOnce(ext: StylelintExtension, serverId: string, fs: FileSystem,
                                            outcomes: seq<DownloadOutcome>)
    ensures var (ext', _, inits) := Session(ext, serverId, fs, outcomes);
            && inits == (if ext.config.None? && |outcomes| > 0 then 1 else 0)
            && (|outcomes| > 0 ==> ext'.config == Some(if ext.config.Some? then ext.config.value else NewConfig()))
            && (|outcomes| == 0 ==> ext' == ext)
    decreases |outcomes|
  {
    if |outcomes| > 0 {
      var step := ServerScriptPath(ext, serverId, fs, outcomes[0]);
      ConfigCreatedOnce(step.ext, serverId, step.fs, outcomes[1..]);
    }
  }

  /** `zed::Command`. */
  datatype Command = Command(command: string, args: seq<string>, env: seq<(string, string)>)

  /** `language_server_command`: resolve the server script, then ask the host
      for the Node binary, and run the script on stdio. `nodeBinary` is the
      host's answer to `node_binary_path`. */
  function LanguageServerCommand(ext: StylelintExtension, serverId: string, fs: FileSystem,
                                 outcome: DownloadOutcome, nodeBinary: Result<string, string>)
    : (r: Step<Command>)
    ensures var s := ServerScriptPath(ext, serverId, fs, outcome);
            && r.ext == s.ext && r.fs == s.fs
            && (s.result.Failure? ==> r.result == Failure(s.result.error) && r.calls == s.calls)
            && (s.result.Success? ==> r.calls == s.calls + [NodeBinaryPath])
            && (s.result.Success? && nodeBinary.Failure? ==> r.result == Failure(nodeBinary.error))
            && (s.result.Success? && nodeBinary.Success? ==>
                  r.result == Success(Command(nodeBinary.value, [s.result.value, "--stdio"], [])))
  {
    var s := ServerScriptPath(ext, serverId, fs, outcome);
    match s.result
    case Failure(e) => Step(s.ext, Failure(e), s.fs, s.calls)
    case Success(serverPath) =>
      var calls := s.calls + [NodeBinaryPath];
      match nodeBinary
      case Failure(e) => Step(s.ext, Failure(e), s.fs, calls)
      case Success(node) => Step(s.ext, Success(Command(node, [serverPath, "--stdio"], [])), s.fs, calls)
  }

  /** The command runs a script that is in the cache afterwards: the first
      argument is the path the cache lookup finds in the filesystem the call
      leaves behind. */
  lemma LanguageServerCommandRunsCachedScript(ext: StylelintExtension, serverId: string, fs: FileSystem,
                                              outcome: DownloadOutcome, nodeBinary: Result<string, string>)
    requires FlatVersion(ext)
    requires LanguageServerCommand(ext, serverId, fs, outcome, nodeBinary).result.Success?
    ensures var r := LanguageServerCommand(ext, serverId, fs, outcome, nodeBinary);
            var c := CacheOf(EnsureConfig(ext).1);
            && r.result.value.command == nodeBinary.value
            && FindCachedBuild(c, r.fs) == Some(r.result.value.args[0])
  {
    var config := EnsureConfig(ext).1;
    var c := CacheOf(config);
    assert '/' !in config.lspVersion;
    if FindCachedBuild(c, fs).None? {
      ServerScriptPathMiss(ext, serverId, fs, outcome);
      DownloadSuccessIsCacheHit(Downloader(config), config.lspVersion, serverId, outcome);
    }
  }
}
