/** The extension's fixed version constants and the download URL of the
    packaged language server (src/config.rs). */
module Config {
  import opened Strings

  const ExtensionVersion: string := "2.0.2"
  const LspVersion: string := "2.0.2"
  const GithubRepo: string := "florian-sanders/zed-stylelint"

  const UrlPrefix: string := "https://github.com/"
  const AssetPrefix: string := "stylelint-language-server-v"
  const AssetSuffix: string := ".zip"

  datatype LspConfig = LspConfig(extensionVersion: string, lspVersion: string, githubRepo: string)

  /** `LspConfig::new`: every field from its constant. */
  function NewConfig(): (c: LspConfig)
    ensures c.extensionVersion == "2.0.2"
    ensures c.lspVersion == "2.0.2"
    ensures c.githubRepo == "florian-sanders/zed-stylelint"
  {
    LspConfig(ExtensionVersion, LspVersion, GithubRepo)
  }

  /** The name of the zip asset for one LSP version. */
  function AssetFileName(lspVersion: string): string {
    AssetPrefix + lspVersion + AssetSuffix
  }

  /** `LspConfig::asset_url`: a GitHub release-asset download URL whose
      release tag is the extension version and whose file name carries the
      LSP version. */
  function AssetUrl(c: LspConfig): (url: string)
    ensures UrlPrefix <= url
    ensures EndsWith(url, AssetSuffix)
  {
    var url := UrlPrefix + c.githubRepo + "/releases/download/" + c.extensionVersion + "/"
               + AssetFileName(c.lspVersion);
    assert url[|url| - |AssetSuffix|..] == AssetSuffix;
    url
  }

  /** A string cut at two separators splits into the pieces of each part. */
  lemma SplitAtTwoSeparators(head: string, mid: string, tail: string, sep: char)
    ensures Split(head + [sep] + mid + [sep] + tail, sep)
         == Split(head, sep) + Split(mid, sep) + Split(tail, sep)
  {
    assert head + [sep] + mid + [sep] + tail == head + [sep] + (mid + [sep] + tail);
    SplitAtSeparator(head, mid + [sep] + tail, sep);
    SplitAtSeparator(mid, tail, sep);
  }

  lemma AssetFileNameFlat(lspVersion: string)
    requires '/' !in lspVersion
    ensures '/' !in AssetFileName(lspVersion)
  {
    var file := AssetFileName(lspVersion);
    forall i | 0 <= i < |file| ensures file[i] != '/' {
      if |AssetPrefix| <= i < |AssetPrefix| + |lspVersion| {
        assert file[i] == lspVersion[i - |AssetPrefix|];
      }
    }
  }

  /** `scheme//host` reads as the scheme, an empty segment and the host. */
  lemma HostSegments(scheme: string, host: string)
    requires '/' !in scheme && '/' !in host
    ensures Split(scheme + "//" + host, '/') == [scheme, "", host]
  {
    assert scheme + "//" + host == scheme + ['/'] + ("" + ['/'] + host);
    SplitNoSeparator(host, '/');
    SplitAfterPiece("", host, '/');
    SplitAfterPiece(scheme, "" + ['/'] + host, '/');
  }

  lemma ReleaseSegments(tag: string, file: string)
    requires '/' !in tag && '/' !in file
    ensures Split("releases/download/" + tag + "/" + file, '/') == ["releases", "download", tag, file]
  {
    var parts := ["releases", "download", tag, file];
    assert parts[1..] == ["download", tag, file];
    assert parts[1..][1..] == [tag, file];
    assert Join([tag, file], '/') == tag + "/" + file;
    assert Join(parts[1..], '/') == "download/" + tag + "/" + file;
    assert Join(parts, '/') == "releases/download/" + tag + "/" + file;
    SplitJoin(parts, '/');
  }

  /** Regrouping `prefix + repo + rest` when the prefix ends and the rest
      starts with the separator. */
  lemma Regroup(prefix: string, head: string, repo: string, rest: string, tail: string, sep: char)
    requires prefix == head + [sep] && rest == [sep] + tail
    ensures prefix + repo + rest == head + [sep] + repo + [sep] + tail
  {
  }

  /** Five pieces concatenated: the last four may be grouped first. */
  lemma Associate(a: string, b: string, c: string, d: string, e: string)
    ensures a + b + c + d + e == a + (b + c + d + e)
  {
  }

  /** The URL cut at the two `/` around the repository. */
  lemma AssetUrlShape(c: LspConfig)
    ensures AssetUrl(c)
         == ("https:" + "//" + "github.com") + ['/'] + c.githubRepo + ['/']
            + ("releases/download/" + c.extensionVersion + "/" + AssetFileName(c.lspVersion))
  {
    var repo, tag, file := c.githubRepo, c.extensionVersion, AssetFileName(c.lspVersion);
    var head := "https:" + "//" + "github.com";
    var tail := "releases/download/" + tag + "/" + file;
    var rest := "/releases/download/" + tag + "/" + file;
    assert UrlPrefix == head + ['/'];
    assert "/releases/download/" == ['/'] + "releases/download/";
    assert rest == ['/'] + tail;
    Associate(UrlPrefix + repo, "/releases/download/", tag, "/", file);
    Regroup(UrlPrefix, head, repo, rest, tail, '/');
  }

  /** The URL read as `/`-separated segments: scheme, empty authority
      separator, host, the repository's own segments, then `releases`,
      `download`, the tag (the extension version) and the asset file name
      (the only place the LSP version appears). */
  lemma AssetUrlSegments(c: LspConfig)
    requires '/' !in c.extensionVersion && '/' !in c.lspVersion
    ensures Split(AssetUrl(c), '/')
         == ["https:", "", "github.com"] + Split(c.githubRepo, '/')
            + ["releases", "download", c.extensionVersion, AssetFileName(c.lspVersion)]
  {
    var file := AssetFileName(c.lspVersion);
    AssetFileNameFlat(c.lspVersion);
    var head := "https:" + "//" + "github.com";
    var tail := "releases/download/" + c.extensionVersion + "/" + file;
    AssetUrlShape(c);
    HostSegments("https:", "github.com");
    ReleaseSegments(c.extensionVersion, file);
    SplitAtTwoSeparators(head, c.githubRepo, tail, '/');
  }

  /** A configuration without spaces downloads a URL without spaces. */
  lemma AssetUrlHasNoSpace(c: LspConfig)
    requires ' ' !in c.githubRepo && ' ' !in c.extensionVersion && ' ' !in c.lspVersion
    ensures ' ' !in AssetUrl(c)
  {
    assert ' ' !in UrlPrefix && ' ' !in "/releases/download/" && ' ' !in "/";
    assert ' ' !in AssetPrefix && ' ' !in AssetSuffix;
    assert ' ' !in AssetFileName(c.lspVersion);
  }

  /** Different configurations download different URLs: the URL determines
      the repository, the release tag and the LSP version. */
  lemma AssetUrlInjective(c1: LspConfig, c2: LspConfig)
    requires '/' !in c1.extensionVersion && '/' !in c1.lspVersion
    requires '/' !in c2.extensionVersion && '/' !in c2.lspVersion
    requires AssetUrl(c1) == AssetUrl(c2)
    ensures c1 == c2
  {
    AssetUrlSegments(c1);
    AssetUrlSegments(c2);
    var s1 := ["https:", "", "github.com"] + Split(c1.githubRepo, '/')
              + ["releases", "download", c1.extensionVersion, AssetFileName(c1.lspVersion)];
    var s2 := ["https:", "", "github.com"] + Split(c2.githubRepo, '/')
              + ["releases", "download", c2.extensionVersion, AssetFileName(c2.lspVersion)];
    assert s1 == s2;
    assert c1.extensionVersion == s1[|s1| - 2] == s2[|s2| - 2] == c2.extensionVersion;
    var f1, f2 := AssetFileName(c1.lspVersion), AssetFileName(c2.lspVersion);
    assert f1 == s1[|s1| - 1] == s2[|s2| - 1] == f2;
    assert c1.lspVersion == f1[|AssetPrefix|..|f1| - |AssetSuffix|];
    assert c2.lspVersion == f2[|AssetPrefix|..|f2| - |AssetSuffix|];
    assert Split(c1.githubRepo, '/') == s1[3..|s1| - 4] == s2[3..|s2| - 4] == Split(c2.githubRepo, '/');
    JoinSplit(c1.githubRepo, '/');
    JoinSplit(c2.githubRepo, '/');
  }

  /** The regrouping behind `AssetUrlSlashCollision`, on arbitrary pieces. */
  lemma MoveAcrossSlash(u: string, r: string, d: string, tag: string, slash: string,
                        p: string, v1: string, v2: string, x: string)
    ensures u + r + d + tag + slash + (p + (v1 + slash + p + v2) + x)
         == u + r + d + (tag + slash + p + v1) + slash + (p + v2 + x)
  {
    var left := tag + slash + (p + (v1 + slash + p + v2) + x);
    var right := (tag + slash + p + v1) + slash + (p + v2 + x);
    assert left == tag + slash + p + v1 + slash + p + v2 + x;
    assert right == tag + slash + p + v1 + slash + p + v2 + x;
    Associate(u + r + d, tag, slash, p + (v1 + slash + p + v2) + x, "");
    assert u + r + d + tag + slash + (p + (v1 + slash + p + v2) + x) == u + r + d + left;
    assert u + r + d + (tag + slash + p + v1) + slash + (p + v2 + x) == u + r + d + right;
  }

  /** The `/`-free condition is needed: a `/` followed by the asset prefix
      can move between the tag and the LSP version without changing the
      URL. */
  lemma AssetUrlSlashCollision(repo: string, tag: string, v1: string, v2: string)
    ensures AssetUrl(LspConfig(tag, v1 + "/" + AssetPrefix + v2, repo))
         == AssetUrl(LspConfig(tag + "/" + AssetPrefix + v1, v2, repo))
  {
    MoveAcrossSlash(UrlPrefix, repo, "/releases/download/", tag, "/", AssetPrefix, v1, v2, AssetSuffix);
  }

  /** The repository `owner/name` is two segments. */
  lemma RepoSegments(owner: string, name: string)
    requires '/' !in owner && '/' !in name
    ensures Split(owner + "/" + name, '/') == [owner, name]
  {
    SplitNoSeparator(name, '/');
    SplitAfterPiece(owner, name, '/');
  }

  /** The shipped repository is `florian-sanders/zed-stylelint`: together
      with `AssetUrlSegments` and the file name below, the shipped URL is
      `https://github.com/florian-sanders/zed-stylelint/releases/download/2.0.2/stylelint-language-server-v2.0.2.zip`. */
  lemma DefaultRepoSegments()
    ensures Split(GithubRepo, '/') == ["florian-sanders", "zed-stylelint"]
  {
    assert GithubRepo == "florian-sanders" + "/" + "zed-stylelint";
    RepoSegments("florian-sanders", "zed-stylelint");
  }

  /** The shipped asset is `stylelint-language-server-v2.0.2.zip`. */
  lemma DefaultAssetFileName()
    ensures AssetFileName(LspVersion) == "stylelint-language-server-v2.0.2.zip"
  {
  }
}
