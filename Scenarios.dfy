/** Worked examples of the whole rendering on small record lists. */
module Scenarios {
  import opened Wrappers
  import opened Failures
  import opened Collections
  import opened Text
  import opened PackageSet
  import opened Redirects
  import opened Metadata
  import opened Grouping
  import opened LicenseInfo
  import opened Notices

  const OrgRepo := "https://github.com/org/repo"
  const OrgPage := "https://github.com/dotnet"

  /** A package and one nested below it, such as `Foo.Bar` and `Foo.Bar.Baz`, sharing `url`. */
  function Parent(name: string, url: string, license: string): PackageRecord {
    PackageRecord(name, url, license, "")
  }

  function Child(name: string, suffix: string, url: string, license: string): PackageRecord {
    PackageRecord(name + "." + suffix, url, license, "")
  }

  /** The nested package has more dots than its parent. */
  lemma ChildHasMoreDots(name: string, suffix: string, url: string, license: string)
    ensures Dots(Parent(name, url, license).id) < Dots(Child(name, suffix, url, license).id)
  {
    DotsJoin(name, suffix);
  }

  /** Parent first: the fold keeps the parent. */
  lemma ParentWinsEarlier(name: string, suffix: string, url: string)
    ensures Aggregate([Parent(name, url, ""), Child(name, suffix, url, "")]) == Parent(name, url, "")
  {
    ChildHasMoreDots(name, suffix, url, "");
    AggregateIsLastMinimal([Parent(name, url, ""), Child(name, suffix, url, "")], 0);
  }

  /** Parent second: the fold replaces the nested package by the parent. */
  lemma ParentWinsLater(name: string, suffix: string, url: string)
    ensures Aggregate([Child(name, suffix, url, ""), Parent(name, url, "")]) == Parent(name, url, "")
  {
    ChildHasMoreDots(name, suffix, url, "");
    AggregateIsLastMinimal([Child(name, suffix, url, ""), Parent(name, url, "")], 1);
  }

  /** With equal dot counts (`Foo.Bar` and `Baz.Qux`, say) the later record is kept. */
  lemma TieKeepsLater(first: PackageRecord, second: PackageRecord)
    requires first.url == second.url && Dots(first.id) == Dots(second.id)
    ensures Aggregate([first, second]) == second
  {
    AggregateIsLastMinimal([first, second], 1);
  }

  /** A package and a nested one share a project URL: `AppendLicenseInfo` is called once, for the parent. */
  lemma SharedRepositoryCalls(name: string, suffix: string, url: string)
    requires url != ""
    ensures Emissions([Parent(name, url, "MIT"), Child(name, suffix, url, "MIT")]) == [Parent(name, url, "MIT")]
  {
    ChildHasMoreDots(name, suffix, url, "MIT");
    AggregateIsLastMinimal([Parent(name, url, "MIT"), Child(name, suffix, url, "MIT")], 0);
    EmissionsOneUrl([Parent(name, url, "MIT"), Child(name, suffix, url, "MIT")], url);
  }

  /** The entry for a package at `https://github.com/org/repo` is the license file of `org`/`repo`, fenced. */
  lemma GitHubRepositoryEntry(web: Web, name: string, downloadUrl: string, body: string)
    requires web.resolver(OrgRepo) == Some(OrgRepo)
    requires web.licenseContents("org", "repo") == Some(downloadUrl)
    requires web.download(downloadUrl) == Some(body)
    ensures RecordEntry(web, Parent(name, OrgRepo, "MIT")) == Success("## [" + name + "](" + OrgRepo + ")\n\n```\n" + body + "\n```\n\n")
  {
    assert RepositoryUrl(web.resolver, OrgRepo, "") == OrgRepo;
    assert OrgRepo == GitHubPrefix + ("org" + ['/'] + "repo" + "");
    assert OrgRepo[19] != RuntimeRepository[19];
    assert DisplayId(name, OrgRepo) == name;
    GitHubOwnerAndRepo(web, name, OrgRepo, "MIT", "", "org", '/', "repo", "");
  }

  /** The whole document for a package and a nested one on that repository: a single entry, titled with the parent. */
  lemma SharedRepository(web: Web, name: string, suffix: string, downloadUrl: string, body: string)
    requires web.resolver(OrgRepo) == Some(OrgRepo)
    requires web.licenseContents("org", "repo") == Some(downloadUrl)
    requires web.download(downloadUrl) == Some(body)
    ensures Render(EntryOf(web), Emissions([Parent(name, OrgRepo, "MIT"), Child(name, suffix, OrgRepo, "MIT")]))
         == Success("## [" + name + "](" + OrgRepo + ")\n\n```\n" + body + "\n```\n\n")
  {
    SharedRepositoryCalls(name, suffix, OrgRepo);
    GitHubRepositoryEntry(web, name, downloadUrl, body);
    RenderOne(EntryOf(web), Parent(name, OrgRepo, "MIT"));
  }

  /** A package with neither project nor repository URL: plain heading, then its license string. */
  lemma NoProjectUrlEntry(web: Web)
    ensures RecordEntry(web, PackageRecord("B", "", "Apache-2.0", "")) == Success("## B\n\nApache-2.0\n\n")
  {
    assert RepositoryUrl(web.resolver, "", "") == "";
    assert !StartsWith("", GitHubPrefix);
    assert DisplayId("B", "") == "B";
    PlainEntryShape(web, "B", "", "Apache-2.0", "");
    assert ("## " + "B" + "\n\n") + ("Apache-2.0" + "\n\n") == "## B\n\nApache-2.0\n\n";
  }

  /** The whole document for that one package. */
  lemma NoProjectUrl(web: Web)
    ensures Render(EntryOf(web), Emissions([PackageRecord("B", "", "Apache-2.0", "")])) == Success("## B\n\nApache-2.0\n\n")
  {
    var b := PackageRecord("B", "", "Apache-2.0", "");
    EmissionsOneUrl([b], "");
    NoProjectUrlEntry(web);
    RenderOne(EntryOf(web), b);
  }

  /** The Urls `["", x, ""]` group under `""` first, then `x`. */
  lemma KeysOfEmptyThenUrl(x: string)
    requires x != ""
    ensures Distinct(["", x, ""]) == ["", x]
  {
    assert ["", x, ""] == ([] + [""]) + [x] + [""];
    DistinctSnoc([], "");
    DistinctSnoc([""], x);
    DistinctSnoc([""] + [x], "");
  }

  /** `GroupBy` of `[B, A, D]` where only A has a Url. */
  lemma GroupByEmptyThenUrl(b: PackageRecord, a: PackageRecord, d: PackageRecord)
    requires b.url == "" && d.url == "" && a.url != ""
    ensures GroupBy([b, a, d]) == [Group("", [b, d]), Group(a.url, [a])]
  {
    var list := [b, a, d];
    assert Urls(list) == ["", a.url, ""];
    KeysOfEmptyThenUrl(a.url);
    WithEmptyUrlOfThree(b, a, d);
    WithKeyUrlOfThree(b, a, d);
    assert |GroupBy(list)| == 2;
    assert GroupBy(list)[0] == Group("", WithUrl(list, ""));
    assert GroupBy(list)[1] == Group(a.url, WithUrl(list, a.url));
  }

  /** Filtering `[B, A, D]` by a Url filters each record on its own. */
  lemma WithUrlOfThree(b: PackageRecord, a: PackageRecord, d: PackageRecord, url: string)
    ensures WithUrl([b, a, d], url) == WithUrl([b], url) + WithUrl([a], url) + WithUrl([d], url)
  {
    assert [b, a, d] == [b, a] + [d] && [b, a] == [b] + [a];
    WithUrlAppend([b, a], [d], url);
    WithUrlAppend([b], [a], url);
  }

  /** Filtering a record on its own keeps it exactly when its Url matches. */
  lemma WithUrlSingle(m: PackageRecord, url: string)
    ensures WithUrl([m], url) == if m.url == url then [m] else []
  {
    WithUrlUniform([m], m.url, url);
  }

  /** Filtering `[B, A, D]` by the empty Url keeps `B` and `D`. */
  lemma WithEmptyUrlOfThree(b: PackageRecord, a: PackageRecord, d: PackageRecord)
    requires b.url == "" && d.url == "" && a.url != ""
    ensures WithUrl([b, a, d], "") == [b, d]
  {
    WithUrlOfThree(b, a, d, "");
    WithUrlSingle(b, "");
    WithUrlSingle(a, "");
    WithUrlSingle(d, "");
    assert [b] + [] + [d] == [b, d];
  }

  /** Filtering `[B, A, D]` by the Url of `A` keeps `A` alone. */
  lemma WithKeyUrlOfThree(b: PackageRecord, a: PackageRecord, d: PackageRecord)
    requires b.url == "" && d.url == "" && a.url != ""
    ensures WithUrl([b, a, d], a.url) == [a]
  {
    WithUrlOfThree(b, a, d, a.url);
    WithUrlSingle(b, a.url);
    WithUrlSingle(a, a.url);
    WithUrlSingle(d, a.url);
    assert [] + [a] + [] == [a];
  }

  /**
   * `[B, A, D]` where B and D have no Url and A has one: B and D form one
   * group, written first and together, and A comes after them.
   */
  lemma EmptyUrlGroupTogether(b: PackageRecord, a: PackageRecord, d: PackageRecord)
    requires b.url == "" && d.url == "" && a.url != ""
    ensures Emissions([b, a, d]) == [b, d, a]
  {
    var groups := [Group("", [b, d]), Group(a.url, [a])];
    GroupByEmptyThenUrl(b, a, d);
    assert groups[..1] == [groups[0]];
    EmittedAllSingle(groups[0]);
    assert EmittedAll(groups) == [b, d] + [a];
  }

  /** A manifest with one project, one framework and one package lists exactly that package. */
  lemma OnePackageManifest(id: string)
    ensures Distinct(ManifestIds([Project([Framework([Package(id)], [])])])) == [id]
  {
    var projects := [Project([Framework([Package(id)], [])])];
    var f := Framework([Package(id)], []);
    assert [Package(id)][..0] == [];
    assert PackageIds([Package(id)]) == [id];
    assert FrameworkIds(f) == [id];
    assert [f][..0] == [];
    assert FrameworksIds([f]) == [id];
    assert projects[..0] == [];
    assert ManifestIds(projects) == [id];
    DistinctSnoc([], id);
  }

  /** A package whose nuspec has a license and no Urls becomes one record with empty Urls. */
  lemma OnePackageRecords(registry: Registry, id: string, license: string)
    requires |registry.versions(id)| > 0
    requires registry.archive(id, registry.versions(id)[0]) == Some(Nuspec(license, "", ""))
    ensures Records(registry, [id]) == Success([PackageRecord(id, "", license, "")])
  {
    var record := PackageRecord(id, "", license, "");
    assert [id][..0] == [];
    assert !StartsWith("", DotNetSite);
    assert ToRecord(id, Nuspec(license, "", "")) == record;
    assert Fetch(registry, id) == Success(Some(record));
    assert Records(registry, [id][..0]) == Success([]);
    assert [] + [record] == [record];
  }

  /** The notice for a record without Urls is a plain heading on its id followed by the license text. */
  lemma PlainRecordNotice(web: Web, id: string, license: string)
    requires license != ""
    ensures Render(EntryOf(web), [PackageRecord(id, "", license, "")]) ==
              Success("## " + id + "\n\n" + license + "\n\n")
  {
    var record := PackageRecord(id, "", license, "");
    assert RepositoryUrl(web.resolver, "", "") == "";
    assert !StartsWith("", GitHubPrefix);
    assert DisplayId(id, "") == id;
    PlainEntryShape(web, id, "", license, "");
    RenderOne(EntryOf(web), record);
    assert ("## " + id + "\n\n") + (license + "\n\n") == "## " + id + "\n\n" + license + "\n\n";
  }

  /**
   * From the manifest: one project listing one package `id` whose nuspec
   * declares neither project nor repository URL gives a document holding
   * that package's plain entry.
   */
  lemma ManifestToDocument(registry: Registry, web: Web, id: string, license: string)
    requires |registry.versions(id)| > 0
    requires registry.archive(id, registry.versions(id)[0]) == Some(Nuspec(license, "", ""))
    requires license != ""
    ensures Generate(registry, web, [Project([Framework([Package(id)], [])])]) ==
              Success("## " + id + "\n\n" + license + "\n\n")
  {
    var record := PackageRecord(id, "", license, "");
    OnePackageManifest(id);
    OnePackageRecords(registry, id, license);
    EmissionsOneUrl([record], "");
    PlainRecordNotice(web, id, license);
  }

  /**
   * A package whose project URL resolves to an organisation page takes the
   * GitHub branch, since only the `https://github.com/` prefix is tested, and
   * throws at `repos[1]`: there is no fallback to a plain heading, and the
   * whole run ends without a document.
   */
  lemma OrganisationPageAborts(web: Web, id: string, license: string)
    requires web.resolver(OrgPage) == Some(OrgPage)
    ensures StartsWith(OrgPage, GitHubPrefix)
    ensures RecordEntry(web, PackageRecord(id, OrgPage, license, "")) == Failure(MissingRepositorySegment(OrgPage))
    ensures Render(EntryOf(web), [PackageRecord(id, OrgPage, license, "")]) == Failure(MissingRepositorySegment(OrgPage))
  {
    assert OrgPage == GitHubPrefix + "dotnet";
    StartsWithExtend(OrgPage, GitHubPrefix, "dotnet");
    assert RepositoryUrl(web.resolver, OrgPage, "") == OrgPage;
    assert SeparatorFree("dotnet");
    GitHubWithoutRepo(web, id, OrgPage, license, "", "dotnet");
    RenderOne(EntryOf(web), PackageRecord(id, OrgPage, license, ""));
  }

  /**
   * A package on `https://dot.net` without a repository URL is moved to the
   * runtime repository, which is a GitHub repository URL: when it resolves to
   * itself, the entry is the runtime's license file under the `.NET Runtime`
   * heading, whatever the package's own id and license.
   */
  lemma RuntimeRecordEntry(web: Web, id: string, nuspec: Nuspec, downloadUrl: string, body: string)
    requires StartsWith(nuspec.projectUrl, DotNetSite) && nuspec.repositoryUrl == ""
    requires web.resolver(RuntimeRepository) == Some(RuntimeRepository)
    requires web.licenseContents("dotnet", "runtime") == Some(downloadUrl)
    requires web.download(downloadUrl) == Some(body)
    ensures RecordEntry(web, ToRecord(id, nuspec)) ==
              Success("## [" + RuntimeName + "](" + RuntimeRepository + ")\n\n```\n" + body + "\n```\n\n")
  {
    SubstitutedRecordIsRuntime(id, nuspec);
    var record := ToRecord(id, nuspec);
    assert RuntimeRepository == GitHubPrefix + ("dotnet" + ['/'] + "runtime" + "");
    StartsWithExtend(RuntimeRepository, GitHubPrefix, "dotnet/runtime");
    assert RepositoryUrl(web.resolver, record.url, record.repositoryUrl) == RuntimeRepository;
    assert SeparatorFree("dotnet") && SeparatorFree("runtime");
    GitHubOwnerAndRepo(web, record.id, record.url, record.license, record.repositoryUrl, "dotnet", '/', "runtime", "");
  }
}
