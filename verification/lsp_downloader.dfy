/** Fetching the packaged language server and checking that it unpacked
    (src/lsp_downloader.rs). */
module LspDownloader {
  import opened Wrappers
  import opened Strings
  import opened Files
  import opened Host
  import opened Config
  import opened LspCache

  datatype DownloadError =
    | Network(url: string, message: string)
    | Extraction(message: string)

  const NetworkPrefix: string := "Failed to download from "
  const ExtractionPrefix: string := "Failed to extract language server: "

  /** `impl Display for DownloadError`. */
  function Display(e: DownloadError): (s: string)
    ensures e.Network? ==> NetworkPrefix <= s && s[|NetworkPrefix|..] == e.url + ": " + e.message
    ensures e.Extraction? ==> ExtractionPrefix <= s && s[|ExtractionPrefix|..] == e.message
  {
    match e
    case Network(url, message) => NetworkPrefix + (url + ": " + message)
    case Extraction(message) => ExtractionPrefix + message
  }

  /** The rendered message tells the two kinds of error apart. */
  lemma DisplayDistinguishesKinds(url: string, message: string, extraction: string)
    ensures Display(Network(url, message)) != Display(Extraction(extraction))
  {
    assert Display(Network(url, message))[10] == 'd';
    assert Display(Extraction(extraction))[10] == 'e';
  }

  /** An extraction failure's message can be read back from its rendering. */
  lemma DisplayExtractionInjective(m1: string, m2: string)
    requires Display(Extraction(m1)) == Display(Extraction(m2))
    ensures m1 == m2
  {
  }

  /** In `url: message` the first space is the one after the colon when the
      URL has no space. */
  lemma FirstSpaceAfterUrl(url: string, message: string)
    requires ' ' !in url
    ensures IndexOf(url + ": " + message, ' ') == |url| + 1
  {
    var t := url + ": " + message;
    assert t[|url|] == ':' && t[|url| + 1] == ' ';
    assert forall j :: 0 <= j < |url| ==> t[j] == url[j];
  }

  /** A network error's rendering gives back its URL and its message, for
      URLs without spaces (as every asset URL is, see `AssetUrlHasNoSpace`). */
  lemma DisplayNetworkInjective(url1: string, message1: string, url2: string, message2: string)
    requires ' ' !in url1 && ' ' !in url2
    requires Display(Network(url1, message1)) == Display(Network(url2, message2))
    ensures url1 == url2 && message1 == message2
  {
    var t := url1 + ": " + message1;
    assert t == Display(Network(url1, message1))[|NetworkPrefix|..];
    assert t == url2 + ": " + message2;
    FirstSpaceAfterUrl(url1, message1);
    FirstSpaceAfterUrl(url2, message2);
    assert url1 == t[..|url1|] && url2 == t[..|url2|];
    assert message1 == t[|url1| + 2..] && message2 == t[|url2| + 2..];
  }

  /** Without that condition the rendering is ambiguous: `: ` may belong to
      the URL or to the message. The URLs are parameters fixed by `requires`
      so that the verifier does not evaluate `Display` on the literals. */
  lemma DisplayNetworkAmbiguous(url1: string, url2: string)
    requires url1 == "a: b" && url2 == "a"
    ensures Display(Network(url1, "c")) == Display(Network(url2, "b: c"))
  {
    assert url1 + ": " + "c" == url2 + ": " + "b: c";
  }

  /** The message of the `Extraction` error for a missing server file: the
      path printed with `{:?}` between two fixed phrases. */
  function MissingServerMessage(serverPath: string): (m: string)
    ensures MissingServerPrefix <= m
    ensures |m| == |MissingServerPrefix| + |DebugString(serverPath)| + |MissingServerSuffix|
    ensures m[|MissingServerPrefix|..|m| - |MissingServerSuffix|] == DebugString(serverPath)
    ensures EndsWith(m, MissingServerSuffix)
  {
    var m := MissingServerPrefix + DebugString(serverPath) + MissingServerSuffix;
    assert m[|m| - |MissingServerSuffix|..] == MissingServerSuffix;
    assert m[|MissingServerPrefix|..|m| - |MissingServerSuffix|] == DebugString(serverPath);
    m
  }

  const MissingServerPrefix: string := "Server file not found at "
  const MissingServerSuffix: string := " after extraction"

  /** A path with nothing to escape appears in the message verbatim, in
      double quotes. */
  lemma MissingServerMessagePlain(serverPath: string)
    requires Plain(serverPath)
    ensures MissingServerMessage(serverPath)
         == MissingServerPrefix + ("\"" + serverPath + "\"") + MissingServerSuffix
  {
    EscapePlain(serverPath);
  }

  /** The server path of a version with nothing to escape has nothing to
      escape either. */
  lemma ServerPathPlain(lspVersion: string)
    requires Plain(lspVersion)
    ensures Plain(ServerPath(NewCache(lspVersion)))
  {
    assert Plain(CachePrefix) && Plain("/") && Plain(ServerScript);
    PlainConcat(CachePrefix, lspVersion);
    PlainConcat(CachePrefix + lspVersion, "/");
    PlainConcat(CachePrefix + lspVersion + "/", ServerScript);
  }

  /** `LspDownloader`: the downloader carries its own copy of the configuration. */
  datatype Downloader = Downloader(config: LspConfig)

  /** One run of the downloader: its result, the filesystem it leaves and
      the host calls it made, in order. */
  datatype Download<T> = Download(result: Result<T, DownloadError>, fs: FileSystem, calls: seq<HostCall>)

  /** `download_and_extract`: one zip download of the asset URL into
      `destination`; the host's failure reason becomes the error string. */
  function DownloadAndExtract(d: Downloader, destination: string, outcome: DownloadOutcome)
    : (r: (Result<(), string>, seq<HostCall>))
    ensures r.1 == [DownloadFile(AssetUrl(d.config), destination, Zip)]
    ensures r.0.Failure? <==> outcome.DownloadFailed?
    ensures outcome.DownloadFailed? ==> r.0.error == "Download failed: " + outcome.reason
  {
    var call := DownloadFile(AssetUrl(d.config), destination, Zip);
    match outcome
    case DownloadFailed(reason, _) => (Failure("Download failed: " + reason), [call])
    case Downloaded(_) => (Success(()), [call])
  }

  /** `download_and_verify`: announce the download, fetch into the version
      directory, check that the server script arrived, clean up older
      versions and return the server path. */
  function DownloadAndVerify(d: Downloader, c: Cache, serverId: string, outcome: DownloadOutcome)
    : (r: Download<string>)
    ensures StatusTrace(r.calls) == [InstallationStatus.Downloading]
    ensures |r.calls| == 2 && r.calls[0] == SetStatus(serverId, InstallationStatus.Downloading)
    ensures r.calls[1] == DownloadFile(AssetUrl(d.config), c.versionDir, Zip)
    ensures outcome.DownloadFailed? ==>
              r.result == Failure(Network(AssetUrl(d.config), "Download failed: " + outcome.reason))
    ensures r.result.Success? <==> outcome.Downloaded? && ServerPath(c) in outcome.after.files
    ensures r.result.Failure? && r.result.error.Extraction? <==>
              outcome.Downloaded? && ServerPath(c) !in outcome.after.files
    ensures r.result.Failure? && r.result.error.Extraction? ==>
              r.result.error.message == MissingServerMessage(ServerPath(c))
    ensures r.result.Success? ==> r.result.value == ServerPath(c) && r.fs == Cleanup(c, outcome.after)
    ensures r.result.Failure? ==> r.fs == outcome.after
  {
    var announce := [SetStatus(serverId, InstallationStatus.Downloading)];
    var (fetched, fetchCalls) := DownloadAndExtract(d, c.versionDir, outcome);
    var calls := announce + fetchCalls;
    assert StatusTrace(calls) == [InstallationStatus.Downloading] by {
      StatusTraceAppend(announce, fetchCalls);
    }
    if fetched.Failure? then
      Download(Failure(Network(AssetUrl(d.config), fetched.error)), outcome.after, calls)
    else
      var serverPath := ServerPath(c);
      if serverPath !in outcome.after.files then
        Download(Failure(Extraction(MissingServerMessage(serverPath))), outcome.after, calls)
      else
        Download(Success(serverPath), Cleanup(c, outcome.after), calls)
  }

  /** For a version with nothing to escape, the missing-server error names
      the server path verbatim, in double quotes. */
  lemma MissingServerError(d: Downloader, lspVersion: string, serverId: string, outcome: DownloadOutcome)
    requires Plain(lspVersion)
    requires outcome.Downloaded? && ServerPath(NewCache(lspVersion)) !in outcome.after.files
    ensures var c := NewCache(lspVersion);
            var quoted := "\"" + ServerPath(c) + "\"";
            DownloadAndVerify(d, c, serverId, outcome).result
              == Failure(Extraction(MissingServerPrefix + quoted + MissingServerSuffix))
  {
    var c := NewCache(lspVersion);
    ServerPathPlain(lspVersion);
    MissingServerMessagePlain(ServerPath(c));
    assert DownloadAndVerify(d, c, serverId, outcome).result.error.message == MissingServerMessage(ServerPath(c));
  }

  /** After a successful download the cache answers with the returned path,
      although the cleanup has run in between. */
  lemma DownloadSuccessIsCacheHit(d: Downloader, lspVersion: string, serverId: string, outcome: DownloadOutcome)
    requires '/' !in lspVersion
    requires DownloadAndVerify(d, NewCache(lspVersion), serverId, outcome).result.Success?
    ensures var r := DownloadAndVerify(d, NewCache(lspVersion), serverId, outcome);
            FindCachedBuild(NewCache(lspVersion), r.fs) == Some(r.result.value)
  {
    CleanupPreservesCacheHit(lspVersion, outcome.after);
  }

  /** The host is told `Downloading` before the download is requested. */
  lemma DownloadAnnounced(d: Downloader, c: Cache, serverId: string, outcome: DownloadOutcome)
    ensures DownloadingAnnounced(DownloadAndVerify(d, c, serverId, outcome).calls, serverId)
  {
    var calls := DownloadAndVerify(d, c, serverId, outcome).calls;
    forall i | 0 <= i < |calls| && calls[i].DownloadFile?
      ensures exists j :: 0 <= j < i && calls[j] == SetStatus(serverId, InstallationStatus.Downloading)
    {
      assert calls[0] == SetStatus(serverId, InstallationStatus.Downloading);
    }
  }
}
