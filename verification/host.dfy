/** The slice of the Zed extension host API the extension uses. The host is
    outside the model: each call the extension makes is recorded as an
    event in a call trace, and what the host answers is an input. */
module Host {
  import opened Files

  /** `zed::LanguageServerInstallationStatus`, the variants the extension sets. */
  datatype InstallationStatus = None | CheckingForUpdate | Downloading

  /** `zed::DownloadedFileType`, the variant the extension asks for. */
  datatype DownloadedFileType = Zip

  datatype HostCall =
    | SetStatus(serverId: string, status: InstallationStatus)
    | DownloadFile(url: string, destination: string, fileType: DownloadedFileType)
    | NodeBinaryPath

  /** What the host's `download_file` did: it failed with a reason, or it
      fetched and unpacked the archive. Either way the filesystem it leaves
      behind is the host's business. */
  datatype DownloadOutcome =
    | DownloadFailed(reason: string, after: FileSystem)
    | Downloaded(after: FileSystem)

  /** The installation statuses a trace sets, in order. */
  function StatusTrace(calls: seq<HostCall>): (statuses: seq<InstallationStatus>)
    ensures |statuses| <= |calls|
    decreases |calls|
  {
    if |calls| == 0 then []
    else
      var rest := StatusTrace(calls[1..]);
      match calls[0]
      case SetStatus(_, s) => [s] + rest
      case _ => rest
  }

  lemma {:induction false} StatusTraceAppend(a: seq<HostCall>, b: seq<HostCall>)
    ensures StatusTrace(a + b) == StatusTrace(a) + StatusTrace(b)
    decreases |a|
  {
    if |a| == 0 {
      assert a + b == b;
    } else {
      assert (a + b)[0] == a[0];
      assert (a + b)[1..] == a[1..] + b;
      StatusTraceAppend(a[1..], b);
    }
  }

  /** Every status in the trace is reported for the server `serverId`. */
  predicate StatusesFor(calls: seq<HostCall>, serverId: string) {
    forall i :: 0 <= i < |calls| && calls[i].SetStatus? ==> calls[i].serverId == serverId
  }

  lemma StatusesForAppend(a: seq<HostCall>, b: seq<HostCall>, serverId: string)
    requires StatusesFor(a, serverId) && StatusesFor(b, serverId)
    ensures StatusesFor(a + b, serverId)
  {
    forall i | 0 <= i < |a + b| && (a + b)[i].SetStatus? ensures (a + b)[i].serverId == serverId {
      if i >= |a| {
        assert (a + b)[i] == b[i - |a|];
      }
    }
  }

  /** The trace never asks the host for a download. */
  predicate NoDownloads(calls: seq<HostCall>) {
    forall i :: 0 <= i < |calls| ==> !calls[i].DownloadFile?
  }

  /** Every download request in the trace comes after the `Downloading`
      status was set for the server. */
  predicate DownloadingAnnounced(calls: seq<HostCall>, serverId: string) {
    forall i :: 0 <= i < |calls| && calls[i].DownloadFile? ==>
      exists j :: 0 <= j < i && calls[j] == SetStatus(serverId, Downloading)
  }
}
