/**
 * `AppendLicenseInfo` (Program.cs:97-131): the Markdown entry written for one
 * record. The repository URL is canonicalised, the runtime id override
 * applied, and then either the GitHub license file is fetched and fenced, or
 * a plain heading with the nuspec's license string is written. Only the
 * `https://github.com/` prefix decides the branch: a GitHub URL without a
 * repository segment throws.
 */
module LicenseInfo {
  import opened Wrappers
  import opened Failures
  import opened Text
  import opened Redirects
  import opened Metadata

  /**
   * The web as the entry writer sees it: redirect resolution, Octokit's
   * `GetLicenseContents(owner, repo)` (its `DownloadUrl`, `None` when it
   * throws) and `HttpClient.GetStringAsync` (`None` when it throws).
   */
  datatype Web = Web(
    resolver: Resolver,
    licenseContents: (string, string) -> Option<string>,
    download: string -> Option<string>)

  const GitHubPrefix := "https://github.com/"
  const RuntimeName := ".NET Runtime"

  /** The id shown in the heading: the runtime name for runtime URLs, decided on `url` before resolution. */
  function DisplayId(id: string, url: string): (name: string)
    ensures StartsWith(url, RuntimeRepository) ==> name == RuntimeName
    ensures !StartsWith(url, RuntimeRepository) ==> name == id
  {
    if StartsWith(url, RuntimeRepository) then RuntimeName else id
  }

  /** The entry for a GitHub repository: linked heading and the license file in a code fence. */
  function GitHubEntry(name: string, url: string, body: string): (entry: string)
    ensures url != "" ==> entry == Heading(name, url) + ("```\n" + body + "\n```\n\n")
  {
    "## [" + name + "](" + url + ")\n\n```\n" + body + "\n```\n\n"
  }

  /** The heading of an entry without a license file: linked only when `url` is non-empty. */
  function Heading(name: string, url: string): (heading: string)
    ensures StartsWith(heading, "## ") && StartsWith(heading[3..], if url == "" then name else "[" + name + "](")
    ensures |heading| >= 5 && heading[|heading| - 2..] == "\n\n"
  {
    if url == "" then "## " + name + "\n\n" else "## [" + name + "](" + url + ")\n\n"
  }

  /** The entry otherwise: the heading, then the nuspec's license string if there is one. */
  function PlainEntry(name: string, url: string, license: string): (entry: string)
    ensures StartsWith(entry, Heading(name, url))
    ensures entry == Heading(name, url) <==> license == ""
  {
    if license == "" then Heading(name, url) else Heading(name, url) + (license + "\n\n")
  }

  /** What `AppendLicenseInfo` appends to `sb`, or the exception it throws. */
  function LicenseEntry(web: Web, id: string, url: string, license: string, repositoryUrl: string)
    : (r: Result<string, Failure>)
    ensures r.Failure? ==> StartsWith(RepositoryUrl(web.resolver, url, repositoryUrl), GitHubPrefix)
    ensures r.Failure? ==> !r.error.NoVersions?
    ensures r.Success? ==> StartsWith(r.value, "## ")
  {
    var reposUrl := RepositoryUrl(web.resolver, url, repositoryUrl);
    var name := DisplayId(id, url);
    if StartsWith(reposUrl, GitHubPrefix) then
      var repos := Split(reposUrl[|GitHubPrefix|..]);
      if |repos| < 2 then Failure(MissingRepositorySegment(reposUrl))
      else match web.licenseContents(repos[0], repos[1])
        case None => Failure(LicenseLookupFailed(repos[0], repos[1]))
        case Some(downloadUrl) =>
          match web.download(downloadUrl)
          case None => Failure(DownloadFailed(downloadUrl))
          case Some(body) => Success(GitHubEntry(name, url, body))
    else Success(PlainEntry(name, url, license))
  }

  /** `AppendLicenseInfo(typical.Id, typical.Url, typical.License, typical.Repository)`. */
  function RecordEntry(web: Web, record: PackageRecord): Result<string, Failure> {
    LicenseEntry(web, record.id, record.url, record.license, record.repositoryUrl)
  }

  /** The builder `sb` after appending `entry`, or the exception that computing the entry threw. */
  function Appended(sb: string, entry: Result<string, Failure>): Result<string, Failure> {
    match entry
    case Success(text) => Success(sb + text)
    case Failure(e) => Failure(e)
  }

  /**
   * `AppendLicenseInfo` on the builder contents `sb`: on success the entry is
   * appended and what was there before is kept; an exception leaves no result.
   */
  method AppendLicenseInfo(sb: string, web: Web, id: string, url: string, license: string, repositoryUrl: string)
    returns (r: Result<string, Failure>)
    ensures r == Appended(sb, LicenseEntry(web, id, url, license, repositoryUrl))
  {
    var reposUrl := GetRepositoryUrl(web.resolver, url, repositoryUrl);
    var name := id;
    if StartsWith(url, RuntimeRepository) {
      name := RuntimeName;
    }
    var prefix := GitHubPrefix;
    if StartsWith(reposUrl, prefix) {
      var repos := Split(reposUrl[|prefix|..]);
      if |repos| < 2 {
        return Failure(MissingRepositorySegment(reposUrl));
      }
      var owner := repos[0];
      var repo := repos[1];
      var licenseContents := web.licenseContents(owner, repo);
      if licenseContents.None? {
        return Failure(LicenseLookupFailed(owner, repo));
      }
      var body := web.download(licenseContents.value);
      if body.None? {
        return Failure(DownloadFailed(licenseContents.value));
      }
      r := Success(sb + ("## [" + name + "](" + url + ")\n\n```\n" + body.value + "\n```\n\n"));
    } else {
      var text := sb;
      if url == "" {
        text := text + ("## " + name + "\n\n");
      } else {
        text := text + ("## [" + name + "](" + url + ")\n\n");
      }
      assert text == sb + Heading(name, url);
      if license != "" {
        text := text + (license + "\n\n");
        assert text == sb + (Heading(name, url) + (license + "\n\n"));
      }
      r := Success(text);
    }
  }

  /** The text after the GitHub prefix of `GitHubPrefix + path`. */
  lemma AfterGitHubPrefix(path: string)
    ensures StartsWith(GitHubPrefix + path, GitHubPrefix)
    ensures (GitHubPrefix + path)[|GitHubPrefix|..] == path
  {
  }

  /** `owner/repo`, then nothing or a separator: the first two segments are `owner` and `repo`. */
  lemma {:induction false} OwnerRepoSegments(owner: string, sep: char, repo: string, rest: string)
    requires SeparatorFree(owner) && IsSeparator(sep) && SeparatorFree(repo)
    requires rest == "" || IsSeparator(rest[0])
    ensures var parts := Split(owner + [sep] + repo + rest);
            |parts| >= 2 && parts[0] == owner && parts[1] == repo
  {
    assert owner + [sep] + repo + rest == owner + [sep] + (repo + rest);
    SplitAtSeparator(owner, sep, repo + rest);
    if rest == "" {
      assert repo + rest == repo;
      SplitSeparatorFree(repo);
    } else {
      assert repo + rest == repo + [rest[0]] + rest[1..];
      SplitAtSeparator(repo, rest[0], rest[1..]);
    }
  }

  /**
   * A repository URL `https://github.com/owner/repo...` fetches the license
   * of `owner`/`repo`: the path is cut at the first two separators, and the
   * heading links `url`, not the resolved URL.
   */
  lemma GitHubOwnerAndRepo(web: Web, id: string, url: string, license: string, repositoryUrl: string,
                           owner: string, sep: char, repo: string, rest: string)
    requires RepositoryUrl(web.resolver, url, repositoryUrl) == GitHubPrefix + (owner + [sep] + repo + rest)
    requires SeparatorFree(owner) && IsSeparator(sep) && SeparatorFree(repo)
    requires rest == "" || IsSeparator(rest[0])
    ensures LicenseEntry(web, id, url, license, repositoryUrl).Success? <==>
              web.licenseContents(owner, repo).Some? && web.download(web.licenseContents(owner, repo).value).Some?
    ensures LicenseEntry(web, id, url, license, repositoryUrl).Success? ==>
              LicenseEntry(web, id, url, license, repositoryUrl).value ==
                "## [" + DisplayId(id, url) + "](" + url + ")\n\n```\n" +
                web.download(web.licenseContents(owner, repo).value).value + "\n```\n\n"
  {
    AfterGitHubPrefix(owner + [sep] + repo + rest);
    OwnerRepoSegments(owner, sep, repo, rest);
  }

  /** `https://github.com/owner` with no repository segment throws at `repos[1]`. */
  lemma GitHubWithoutRepo(web: Web, id: string, url: string, license: string, repositoryUrl: string, owner: string)
    requires RepositoryUrl(web.resolver, url, repositoryUrl) == GitHubPrefix + owner
    requires SeparatorFree(owner)
    ensures LicenseEntry(web, id, url, license, repositoryUrl) == Failure(MissingRepositorySegment(GitHubPrefix + owner))
  {
    AfterGitHubPrefix(owner);
    SplitSeparatorFree(owner);
  }

  /**
   * Without a GitHub repository URL no license file is fetched: the entry is
   * the heading, linked exactly when `url` is non-empty, followed by the
   * license string exactly when there is one, whatever the license API does.
   */
  lemma PlainEntryShape(web: Web, id: string, url: string, license: string, repositoryUrl: string)
    requires !StartsWith(RepositoryUrl(web.resolver, url, repositoryUrl), GitHubPrefix)
    ensures var heading := if url == "" then "## " + DisplayId(id, url) + "\n\n"
                           else "## [" + DisplayId(id, url) + "](" + url + ")\n\n";
            LicenseEntry(web, id, url, license, repositoryUrl) ==
              Success(if license == "" then heading else heading + (license + "\n\n"))
    ensures forall other: Web :: other.resolver == web.resolver ==>
              LicenseEntry(other, id, url, license, repositoryUrl) == LicenseEntry(web, id, url, license, repositoryUrl)
  {
  }

  /**
   * A package whose project URL was moved to the runtime repository by the
   * dot.net substitution is shown as the .NET Runtime.
   */
  lemma SubstitutedRecordIsRuntime(id: string, nuspec: Nuspec)
    requires StartsWith(nuspec.projectUrl, DotNetSite) && nuspec.repositoryUrl == ""
    ensures ToRecord(id, nuspec).url == RuntimeRepository
    ensures DisplayId(ToRecord(id, nuspec).id, ToRecord(id, nuspec).url) == RuntimeName
  {
  }
}
