# ThirdPartyNoticesGenerator, modelled in Dafny

ThirdPartyNoticesGenerator is a small console program. It reads the package
list of a .NET solution (`dotnet list package --include-transitive --format json`)
and looks up every package on NuGet. It then writes one Markdown document of
third-party notices: one entry per project URL, and one entry for each package
that has no project URL. Each entry holds either the license file of the
package's GitHub repository or the nuspec's license string (an SPDX expression,
or the license file's name).

This project models the deterministic core of `Program.cs`, stage by stage:

- **`PackageSet`.** The nested `foreach` loops add every top-level and transitive
  package id of every framework of every project to one `HashSet`.
- **`Metadata`.** The record-building loop takes each id's first listed version
  and reads its nuspec. It applies the `https://dot.net` project-URL substitution
  and appends one `(Id, Url, License, Repository)` record. An id whose archive
  copy fails is skipped.
- **`Grouping`.** `list.GroupBy(i => i.Url)` and the dot-count `Aggregate` choose
  the record each group is written for. The group with the empty key is written
  member by member.
- **`Redirects`.** `GetRepositoryUrl` resolves both candidate URLs, turns a
  failed resolution into `""`, and prefers the repository URL.
- **`LicenseInfo`.** `AppendLicenseInfo` writes one entry. The `.NET Runtime`
  name override comes first. Any resolved URL starting with `https://github.com/`
  takes the GitHub branch. With an owner and a repo segment, the license file is
  fetched. With only an owner, `repos[1]` throws and the run aborts. Any other URL
  gets a plain heading, plus the nuspec's license string when there is one.
- **`Notices`.** The group loop writes into the shared `StringBuilder`. The whole
  run goes from manifest to document, or to the exception that ends it.
- **`Text`, `Collections`.** The string and sequence operations these stages
  use: ordinal `StartsWith`, dot counting, `Split(['/', '?'])`, first-occurrence
  de-duplication and first-occurrence index.
- **`Wrappers`, `Failures`.** `Option` and `Result`, and the exceptions that
  end a run.
- **`Scenarios`.** Worked examples on small record lists.

How the model represents the program:

- The `StringBuilder` is threaded through the methods as a string.
- An exception that ends the run becomes a `Failure`. The program prints nothing
  in that case.
- Every network answer is a function-typed field of `Registry` or `Web`:
  - the NuGet version list and archive,
  - the redirect lookup,
  - Octokit's license lookup,
  - the raw download.
- The `HashSet<string>` is a duplicate-free sequence in insertion order. .NET's
  `HashSet<T>` enumerates in insertion order when nothing has been removed from
  it. That is observed behaviour, not a documented guarantee. The model fixes
  that order for the record loop.

Four behaviours of the code that are easy to misread:

- **Ties in the dot count.** The fold `(x, y) => dots(x) < dots(y) ? x : y`
  keeps `y` on a tie. The representative is therefore the **last** record with
  the fewest dots (`Grouping.AggregateIsLastMinimal`, `Scenarios.TieKeepsLater`).
- **Packages without versions.** `.First()` on an empty version list throws, and
  the run aborts (`Notices.GenerateNeedsVersions`). Only a failed archive copy
  skips a package.
- **Packages without a project URL.** They form one group, keyed by the empty
  URL, at the position of the first such package in the list. Their entries are
  all written there, one per package, not at each package's own position. For
  B and D without a URL and A with one, `[B, A, D]` gives the calls `[B, D, A]`
  (`Scenarios.EmptyUrlGroupTogether`).
- **GitHub URLs without a repository.** The GitHub branch is chosen on the
  `https://github.com/` prefix alone. A URL that resolves to an organisation
  page such as `https://github.com/dotnet` throws at `repos[1]`, and the whole
  run ends without a document. There is no fallback to a plain heading
  (`LicenseInfo.GitHubWithoutRepo`, `Scenarios.OrganisationPageAborts`).

## Model

| member | source | states |
|---|---|---|
| Collections.Distinct | ThirdPartyNoticesGenerator/Program.cs:24-42 | the hash set's enumeration of the added ids has no duplicates and holds each added id, and only those |
| Collections.DistinctMembers | ThirdPartyNoticesGenerator/Program.cs:24-42 | an id is in the set exactly when it was added |
| Collections.DistinctSnoc | ThirdPartyNoticesGenerator/Program.cs:34 | `HashSet.Add` appends a new id at the end and leaves the set unchanged for an id already in it |
| Collections.DistinctAppendRun | ThirdPartyNoticesGenerator/Program.cs:77 | a run of records with one new key adds exactly that key, once, to the key order |
| Collections.IndexOf | ThirdPartyNoticesGenerator/Program.cs:77 | the position of the first occurrence: the element is there and nowhere before it |
| Collections.DistinctOrder | ThirdPartyNoticesGenerator/Program.cs:77 | de-duplication keeps the relative order of first occurrences: `x` comes before `y` in the distinct sequence exactly when it first occurs before `y` |
| PackageSet.PackageIdsListed | ThirdPartyNoticesGenerator/Program.cs:32-35 | an id is visited by a package loop exactly when a package with that id is in the list |
| PackageSet.FrameworksIdsListed | ThirdPartyNoticesGenerator/Program.cs:28-41 | an id is visited by the framework loop exactly when some framework lists it as top-level or transitive |
| PackageSet.ManifestIdsListed | ThirdPartyNoticesGenerator/Program.cs:26-42 | an id is visited by the nested loops exactly when some framework of some project lists it |
| PackageSet.AddPackageIds | ThirdPartyNoticesGenerator/Program.cs:32-40 | one inner loop leaves the set holding the earlier ids followed by the loop's new ids, de-duplicated in visiting order |
| PackageSet.AddFrameworkIds | ThirdPartyNoticesGenerator/Program.cs:28-41 | the framework loop adds top-level ids, then transitive ids, framework by framework, de-duplicated |
| PackageSet.CollectPackageIds | ThirdPartyNoticesGenerator/Program.cs:24-42 | `packageIds` is duplicate-free and holds exactly the ids listed under any framework of any project, in order of first visit |
| Text.Dots | ThirdPartyNoticesGenerator/Program.cs:82 | `Count(z => z == '.')` is at most the length and is zero exactly when there is no dot |
| Text.DotsAppend | ThirdPartyNoticesGenerator/Program.cs:82 | dot counts add up over concatenation |
| Text.DotsJoin | ThirdPartyNoticesGenerator/Program.cs:82 | `a.b` has the dots of `a` and of `b` plus one |
| Text.Split | ThirdPartyNoticesGenerator/Program.cs:108 | `Split(['/', '?'])` gives one more segment than there are separators, none containing a separator (empty segments kept) |
| Text.SplitSeparatorFree | ThirdPartyNoticesGenerator/Program.cs:108 | text without a separator is one segment |
| Text.SplitAtSeparator | ThirdPartyNoticesGenerator/Program.cs:108 | the first separator ends the first segment and the rest is split on its own |
| Text.StartsWith | ThirdPartyNoticesGenerator/Program.cs:68 | the ordinal prefix test used on lines 68, 100 and 106: `s` begins with `prefix`, character by character; its properties are stated by `Text.StartsWithExtend` |
| Text.StartsWithExtend | ThirdPartyNoticesGenerator/Program.cs:100-106 | a string built on a prefix starts with it; starting with a longer prefix implies starting with the prefix it is built on; a string that starts with a prefix is that prefix followed by the rest |
| Metadata.EffectiveProjectUrl | ThirdPartyNoticesGenerator/Program.cs:68-69 | the Url is the runtime repository exactly when the project URL starts with `https://dot.net` and the repository URL is empty, or it already was that repository; any other change is impossible |
| Metadata.ToRecord | ThirdPartyNoticesGenerator/Program.cs:71 | the record keeps the id, license and repository URL of the nuspec |
| Metadata.Fetch | ThirdPartyNoticesGenerator/Program.cs:54-71 | one iteration throws exactly when the id has no version, and the exception names the id; otherwise it yields a record exactly when the archive copy of the first version succeeds, and that record carries the id |
| Metadata.Archived | ThirdPartyNoticesGenerator/Program.cs:59-71 | the ids that survive the `continue` are ids of the loop, at most one per iteration |
| Metadata.Records | ThirdPartyNoticesGenerator/Program.cs:52-72 | a finished loop has at most one record per iteration (one per id for the distinct `packageIds`, by `Metadata.ArchivedMembers` and `Metadata.RecordsAreArchived`); an exception names one of the ids, and that id has no version |
| Metadata.RecordsSucceed | ThirdPartyNoticesGenerator/Program.cs:54-56 | the loop completes exactly when every id has at least one version; otherwise `.First()` throws |
| Metadata.RecordsAreArchived | ThirdPartyNoticesGenerator/Program.cs:59-71 | the record ids are exactly the archived ids in iteration order, one record each, each built from its own nuspec of the first version |
| Metadata.ArchivedMembers | ThirdPartyNoticesGenerator/Program.cs:52-72 | from distinct ids the archived ids are distinct, and an id is archived exactly when it is one of the ids, has a version, and the archive copy of its first version succeeds |
| Metadata.RecordsFailureStays | ThirdPartyNoticesGenerator/Program.cs:54-56 | once an iteration throws, the whole loop's outcome is that exception |
| Metadata.BuildRecords | ThirdPartyNoticesGenerator/Program.cs:51-72 | the loop with its `continue` and its substitution returns exactly `Records` of the ids: skipped ids absent, others appended in order, or the `.First()` exception |
| Grouping.WithUrl | ThirdPartyNoticesGenerator/Program.cs:77 | the members of a group are records of the list with that Url, and every such record is a member |
| Grouping.GroupBy | ThirdPartyNoticesGenerator/Program.cs:77 | the group keys are the distinct Urls in order of first appearance, and every member of a group is a record of the list with the group's key |
| Grouping.Keep | ThirdPartyNoticesGenerator/Program.cs:81-82 | the fold step returns one of its two records, one with no more dots than either, and the second one on a tie |
| Grouping.Emitted | ThirdPartyNoticesGenerator/Program.cs:79-92 | a group yields at least one call and at most one per member, every call for a member, and exactly one call when its key is non-empty |
| Grouping.EmittedAll | ThirdPartyNoticesGenerator/Program.cs:77-93 | the group loop makes at least one call per group |
| Grouping.Emissions | ThirdPartyNoticesGenerator/Program.cs:77-93 | the record list yields at least one call per distinct Url |
| Grouping.Aggregate | ThirdPartyNoticesGenerator/Program.cs:81-82 | the representative is a member of the group and no member has fewer dots |
| Grouping.AggregateIsLastMinimal | ThirdPartyNoticesGenerator/Program.cs:81-82 | the representative is the last member with the fewest dots: a tie keeps the later record |
| Grouping.GroupByWellFormed | ThirdPartyNoticesGenerator/Program.cs:77 | `GroupBy` keys are the distinct Urls in order of first appearance; each group is non-empty and holds exactly the records with its key, in list order |
| Grouping.GroupByNonEmpty | ThirdPartyNoticesGenerator/Program.cs:77 | no group is empty |
| Grouping.EmittedAllWithUrl | ThirdPartyNoticesGenerator/Program.cs:77-93 | among well-formed groups, the calls for a Url come from that Url's group alone |
| Grouping.EmissionsPerUrl | ThirdPartyNoticesGenerator/Program.cs:77-85 | each distinct non-empty Url gets exactly one `AppendLicenseInfo` call, for the fold's pick among all records with that Url |
| Grouping.EmissionsAbsentUrl | ThirdPartyNoticesGenerator/Program.cs:77-93 | a Url no record has gets no call |
| Grouping.EmissionsEmptyUrl | ThirdPartyNoticesGenerator/Program.cs:86-91 | records with an empty Url are never merged: each gets its own call, in list order |
| Grouping.EmissionsKeyOrder | ThirdPartyNoticesGenerator/Program.cs:77 | the distinct Urls of the calls are the distinct Urls of the list, in order of first appearance (`EmissionsUrlOrder` adds that calls for different Urls never interleave) |
| Grouping.EmittedAllUrls | ThirdPartyNoticesGenerator/Program.cs:77-93 | every call of well-formed groups is for a record whose Url is one of the keys |
| Grouping.EmittedAllGroupOrder | ThirdPartyNoticesGenerator/Program.cs:77-93 | for two calls with different Urls, the earlier call's Url is an earlier key |
| Grouping.EmissionsUrlOrder | ThirdPartyNoticesGenerator/Program.cs:77-93 | for two calls with different Urls, the earlier call's Url first appears earlier in the record list: calls for one Url are never interleaved with calls for a later Url |
| Grouping.EmissionsFromList | ThirdPartyNoticesGenerator/Program.cs:77-93 | every call is for a record of the list |
| Grouping.GroupByOneUrl | ThirdPartyNoticesGenerator/Program.cs:77 | when all records share a Url there is one group, holding the whole list |
| Grouping.EmissionsOneUrl | ThirdPartyNoticesGenerator/Program.cs:77-93 | when all records share a Url the calls are those of that single group |
| Redirects.Resolve | ThirdPartyNoticesGenerator/Program.cs:136-154 | an empty candidate is never resolved and stays empty; a failed resolution gives `""`; otherwise the URL `GetFinalRedirectUrlAsync` returns |
| Redirects.GetRepositoryUrl | ThirdPartyNoticesGenerator/Program.cs:134-157 | a non-empty resolved repository URL wins; otherwise the resolved project URL; the answer is `""` or a resolver answer for a non-empty candidate |
| Redirects.RepositoryUrl | ThirdPartyNoticesGenerator/Program.cs:134-157 | the resolved repository URL when it is non-empty, the resolved project URL otherwise; the answer is `""` or the resolver's answer for a non-empty candidate |
| LicenseInfo.DisplayId | ThirdPartyNoticesGenerator/Program.cs:100-103 | the shown id is `.NET Runtime` exactly when the original `url` starts with the runtime repository, and the package id otherwise |
| LicenseInfo.GitHubEntry | ThirdPartyNoticesGenerator/Program.cs:114 | for a non-empty `url`, the GitHub entry is the linked heading followed by the license body in a fenced block |
| LicenseInfo.Heading | ThirdPartyNoticesGenerator/Program.cs:118-125 | the heading starts with `## `, then the bare id for an empty URL or `[id](` for a link, and ends with a blank line |
| LicenseInfo.PlainEntry | ThirdPartyNoticesGenerator/Program.cs:116-130 | the entry starts with the heading and is the heading alone exactly when the license string is empty |
| LicenseInfo.LicenseEntry | ThirdPartyNoticesGenerator/Program.cs:97-131 | an entry throws only on the GitHub branch, never with a missing-version exception, and a successful entry starts with `## ` |
| LicenseInfo.AppendLicenseInfo | ThirdPartyNoticesGenerator/Program.cs:97-131 | on success the builder becomes its old contents followed by the entry; if the entry throws, that exception is the outcome |
| LicenseInfo.AfterGitHubPrefix | ThirdPartyNoticesGenerator/Program.cs:105-108 | a URL built on `https://github.com/` starts with it, and `Substring(prefix.Length)` gives the path back |
| LicenseInfo.OwnerRepoSegments | ThirdPartyNoticesGenerator/Program.cs:108-110 | for `owner/repo` followed by nothing or a separator, segments 0 and 1 are `owner` and `repo` |
| LicenseInfo.GitHubOwnerAndRepo | ThirdPartyNoticesGenerator/Program.cs:105-114 | a GitHub repository URL fetches the license of that owner and repo; the entry succeeds exactly when both calls answer, and is then `## [id](url)` with the fenced body, linking `url` rather than the resolved URL |
| LicenseInfo.GitHubWithoutRepo | ThirdPartyNoticesGenerator/Program.cs:108-110 | `https://github.com/owner` with no repository segment throws at `repos[1]` |
| LicenseInfo.PlainEntryShape | ThirdPartyNoticesGenerator/Program.cs:116-130 | without a GitHub URL the entry is `## id` or `## [id](url)`, followed by the license string only when it is non-empty; the license API and download are never used |
| LicenseInfo.SubstitutedRecordIsRuntime | ThirdPartyNoticesGenerator/Program.cs:68-102 | a package moved to the runtime repository by the dot.net substitution is shown as `.NET Runtime` |
| Notices.RenderOne | ThirdPartyNoticesGenerator/Program.cs:97-131 | a single call on an empty builder leaves exactly its entry, or its exception |
| Notices.Render | ThirdPartyNoticesGenerator/Program.cs:76-93 | reference definition of the builder after a sequence of calls: each call appends its entry, the first exception ends it; its properties are the `Render*` lemmas below |
| Notices.Generate | ThirdPartyNoticesGenerator/Program.cs:21-95 | a document comes out only when every listed package has at least one version |
| Notices.RenderAllOrNothing | ThirdPartyNoticesGenerator/Program.cs:77-93 | a document comes out exactly when no entry throws |
| Notices.RenderAppendOnly | ThirdPartyNoticesGenerator/Program.cs:76-93 | later calls only append: the text after the first calls is a prefix of the final text |
| Notices.RenderFailureStays | ThirdPartyNoticesGenerator/Program.cs:77-93 | once a call throws, later records change nothing |
| Notices.RenderStep | ThirdPartyNoticesGenerator/Program.cs:84 | one more call appends its entry to the builder or ends the run with its exception |
| Notices.EmittedAllPrefix | ThirdPartyNoticesGenerator/Program.cs:77-93 | the calls for the first groups are the start of all the calls |
| Notices.RenderNext | ThirdPartyNoticesGenerator/Program.cs:88-91 | one more call gives the outcome of the calls so far, and if it throws, of all of them |
| Notices.WritesRecord | ThirdPartyNoticesGenerator/Program.cs:84-90 | the call on a record's four fields writes that record's entry |
| Notices.AppendRecord | ThirdPartyNoticesGenerator/Program.cs:84-90 | one `AppendLicenseInfo(item.Id, item.Url, item.License, item.Repository)` call appends the record's entry or gives its exception |
| Notices.AppendEach | ThirdPartyNoticesGenerator/Program.cs:88-91 | the inner `foreach` continues the builder with one call per member, in order, exactly as `Render` prescribes, or ends at the first exception |
| Notices.RenderGroup | ThirdPartyNoticesGenerator/Program.cs:77-93 | the calls for one more group give the outcome for the groups so far, and if they throw, for all groups |
| Notices.AppendGroup | ThirdPartyNoticesGenerator/Program.cs:79-92 | the body of the group loop: the calls for one group continue the builder exactly as `Render` prescribes for that group's calls |
| Notices.WriteGroups | ThirdPartyNoticesGenerator/Program.cs:77-93 | the loop over the groups leaves exactly the rendering of all groups' calls, or the first exception |
| Notices.WriteNotices | ThirdPartyNoticesGenerator/Program.cs:76-93 | a new builder and the loop over `list.GroupBy(i => i.Url)` leave exactly the entries of the calls that `Emissions` describes, in order, or the first exception |
| Notices.GenerateNotices | ThirdPartyNoticesGenerator/Program.cs:21-95 | the run between reading the manifest and printing computes `Generate`: ids, records, then notices |
| Notices.GenerateNeedsVersions | ThirdPartyNoticesGenerator/Program.cs:52-56 | for a registry that answers every call, the run aborts before writing anything exactly when some listed package has no version |
| Scenarios.ChildHasMoreDots | ThirdPartyNoticesGenerator/Program.cs:82 | a nested package id such as `Foo.Bar.Baz` has more dots than its parent `Foo.Bar` |
| Scenarios.ParentWinsEarlier | ThirdPartyNoticesGenerator/Program.cs:81-82 | parent first, nested second: the fold keeps the parent |
| Scenarios.ParentWinsLater | ThirdPartyNoticesGenerator/Program.cs:81-82 | nested first, parent second: the fold replaces the nested package by the parent |
| Scenarios.TieKeepsLater | ThirdPartyNoticesGenerator/Program.cs:81-82 | two records with equal dot counts (`Foo.Bar`, `Baz.Qux`): the later one is kept |
| Scenarios.SharedRepositoryCalls | ThirdPartyNoticesGenerator/Program.cs:77-85 | a package and a nested one on the same project URL give a single call, for the parent |
| Scenarios.GitHubRepositoryEntry | ThirdPartyNoticesGenerator/Program.cs:97-114 | the entry for `https://github.com/org/repo` is the heading for that URL and the fenced license file of `org`/`repo` |
| Scenarios.SharedRepository | ThirdPartyNoticesGenerator/Program.cs:77-114 | the whole document for that pair is that single entry |
| Scenarios.NoProjectUrlEntry | ThirdPartyNoticesGenerator/Program.cs:116-130 | a package with no URLs gives `## B` followed by its license string |
| Scenarios.NoProjectUrl | ThirdPartyNoticesGenerator/Program.cs:86-130 | the whole document for that package is that entry |
| Scenarios.KeysOfEmptyThenUrl | ThirdPartyNoticesGenerator/Program.cs:77 | Urls `"", A, ""` give the keys `"", A`: the empty key comes first and only once |
| Scenarios.GroupByEmptyThenUrl | ThirdPartyNoticesGenerator/Program.cs:77 | records B (no Url), A (a Url), D (no Url) form the groups `("", [B, D])` and `(A.url, [A])` |
| Scenarios.WithUrlOfThree | ThirdPartyNoticesGenerator/Program.cs:77 | filtering three records by a Url filters each on its own |
| Scenarios.WithUrlSingle | ThirdPartyNoticesGenerator/Program.cs:77 | a single record is kept exactly when its Url matches |
| Scenarios.WithEmptyUrlOfThree | ThirdPartyNoticesGenerator/Program.cs:77 | among B, A, D the empty Url selects B and D |
| Scenarios.WithKeyUrlOfThree | ThirdPartyNoticesGenerator/Program.cs:77 | among B, A, D the Url of A selects A alone |
| Scenarios.EmptyUrlGroupTogether | ThirdPartyNoticesGenerator/Program.cs:77-93 | for B, A, D the calls are B, D, A: the empty-Url records are written together, before the later Url |
| Scenarios.OnePackageManifest | ThirdPartyNoticesGenerator/Program.cs:24-42 | one project with one framework listing one package gives the id set holding that id alone |
| Scenarios.OnePackageRecords | ThirdPartyNoticesGenerator/Program.cs:52-72 | a package whose nuspec has a license and no URLs gives one record with empty Urls |
| Scenarios.PlainRecordNotice | ThirdPartyNoticesGenerator/Program.cs:116-130 | the notice for that record is `## id`, a blank line, the license string and a blank line |
| Scenarios.OrganisationPageAborts | ThirdPartyNoticesGenerator/Program.cs:99-110 | a project URL resolving to `https://github.com/dotnet` starts with the GitHub prefix, so its entry throws the missing-repository exception at `repos[1]`, and a run with that record produces no document |
| Scenarios.RuntimeRecordEntry | ThirdPartyNoticesGenerator/Program.cs:66-114 | a `https://dot.net` package without a repository URL, whose runtime URL resolves to itself, gets the `dotnet`/`runtime` license file under the linked `.NET Runtime` heading |
| Scenarios.ManifestToDocument | ThirdPartyNoticesGenerator/Program.cs:21-130 | from manifest to document: that one-package manifest prints exactly that notice |

## Left out

- Running `dotnet list package` and parsing its JSON (Program.cs:21-23): process I/O. The manifest is the `Project`/`Framework`/`Package` datatype.
- The NuGet client (Program.cs:44-67) is an oracle: `Registry.versions` is the version list and `Registry.archive` is the nuspec of a successful archive copy. Which version the registry lists first is up to the registry.
- `GetFinalRedirectUrlAsync` (Program.cs:159-169) is an oracle, `Web.resolver`, which answers a URL or fails. `Web.resolver` is unconstrained. As written, the function returns `url` for any status other than 302, and the request's own URI on a 302. The lemmas hold for any answer. The surrounding try/catch degradation is modelled.
- Octokit's `GetLicenseContents` and `HttpClient.GetStringAsync` (Program.cs:112-113) are the oracles `Web.licenseContents` and `Web.download`. Their failures propagate, as in the code.
- Exceptions thrown by the NuGet client itself (Program.cs:54-65): a failing `GetAllVersionsAsync` or `CopyNupkgToStreamAsync` call, or an archive or nuspec that `PackageArchiveReader` cannot read, would end the run. The `Registry` oracle always answers, so these are not modelled. Only the empty version list throws.
- `async`/`await` and client construction (Program.cs:74-75): plumbing.
- `Console.WriteLine` (Program.cs:95) prints the document followed by a final newline. The model's document is the builder contents, without that newline.
- An absent project or repository URL in a nuspec is taken to be `""`. A `null` project URL would throw a `NullReferenceException` at the `StartsWith` call on line 68; that path is not modelled. `GroupBy` would also keep `null` and `""` as two keys. A missing license is handled by `?.` and `IsNullOrEmpty` (lines 127-129), as modelled.
- `StartsWith` is ordinal. The code calls the culture-sensitive overload. The two agree on URLs made of printable ASCII characters under the invariant or an English culture.
- Redirects.GetRepositoryUrl: the two resolutions are sequential calls of one oracle. An oracle answering differently over time is not modelled.
- Notices.WriteNotices, Notices.WriteGroups, Notices.AppendGroup, Notices.AppendEach, Notices.AppendRecord: they take the entry writer as a ghost parameter tied to `AppendLicenseInfo` by a precondition. `Notices.GenerateNotices` supplies it.
