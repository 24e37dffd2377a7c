/**
 * The record-building loop (Program.cs:51-72): for every collected id, the
 * registry's first listed version is fetched, its nuspec read, the dot.net
 * project URL normalised, and one record appended; an id whose archive copy
 * fails is skipped.
 */
module Metadata {
  import opened Wrappers
  import opened Failures
  import opened Collections
  import opened Text

  /** What the nuspec of a package archive declares; "" stands for an absent value. */
  datatype Nuspec = Nuspec(license: string, projectUrl: string, repositoryUrl: string)

  /**
   * The NuGet registry as seen by the loop: the versions `GetAllVersionsAsync`
   * lists for an id, and the nuspec of the archive `CopyNupkgToStreamAsync`
   * copies for an id and version (`None` when the copy returns false).
   */
  datatype Registry = Registry(versions: string -> seq<string>, archive: (string, string) -> Option<Nuspec>)

  /** One element of `list`: `(Id, Url, License, Repository)`. */
  datatype PackageRecord = PackageRecord(id: string, url: string, license: string, repositoryUrl: string)

  const DotNetSite := "https://dot.net"
  const RuntimeRepository := "https://github.com/dotnet/runtime"

  /** The project URL a record is grouped by, after the dot.net substitution (Program.cs:68-69). */
  function EffectiveProjectUrl(projectUrl: string, repositoryUrl: string): (url: string)
    ensures url == RuntimeRepository <==>
            (StartsWith(projectUrl, DotNetSite) && repositoryUrl == "") || projectUrl == RuntimeRepository
    ensures url != projectUrl ==> url == RuntimeRepository && repositoryUrl == ""
  {
    if StartsWith(projectUrl, DotNetSite) && repositoryUrl == "" then RuntimeRepository else projectUrl
  }

  /** The record built from an id and its nuspec. */
  function ToRecord(id: string, nuspec: Nuspec): (r: PackageRecord)
    ensures r.id == id && r.license == nuspec.license && r.repositoryUrl == nuspec.repositoryUrl
  {
    PackageRecord(id, EffectiveProjectUrl(nuspec.projectUrl, nuspec.repositoryUrl), nuspec.license, nuspec.repositoryUrl)
  }

  /** One iteration: a record, nothing (skipped), or the exception of `.First()`. */
  function Fetch(registry: Registry, id: string): (r: Result<Option<PackageRecord>, Failure>)
    ensures r.Failure? <==> |registry.versions(id)| == 0
    ensures r.Failure? ==> r.error == NoVersions(id)
    ensures r.Success? ==> (r.value.Some? <==> registry.archive(id, registry.versions(id)[0]).Some?)
    ensures r.Success? && r.value.Some? ==> r.value.value.id == id
  {
    var versions := registry.versions(id);
    if |versions| == 0 then Failure(NoVersions(id))
    else match registry.archive(id, versions[0])
      case None => Success(None)
      case Some(nuspec) => Success(Some(ToRecord(id, nuspec)))
  }

  /** The ids whose archive copy succeeds, in iteration order. */
  function Archived(registry: Registry, ids: seq<string>): (archived: seq<string>)
    ensures |archived| <= |ids|
    ensures forall k :: 0 <= k < |archived| ==> archived[k] in ids
  {
    if |ids| == 0 then []
    else
      var id := ids[|ids| - 1];
      var versions := registry.versions(id);
      Archived(registry, ids[..|ids| - 1]) +
        (if |versions| > 0 && registry.archive(id, versions[0]).Some? then [id] else [])
  }

  /** `list` after the loop has run over `ids`, or the first exception. */
  function Records(registry: Registry, ids: seq<string>): (r: Result<seq<PackageRecord>, Failure>)
    ensures r.Success? ==> |r.value| <= |ids|
    ensures r.Failure? ==> r.error.NoVersions? && r.error.packageId in ids && |registry.versions(r.error.packageId)| == 0
  {
    if |ids| == 0 then Success([])
    else match Records(registry, ids[..|ids| - 1])
      case Failure(e) => Failure(e)
      case Success(list) =>
        match Fetch(registry, ids[|ids| - 1])
        case Failure(e) => Failure(e)
        case Success(None) => Success(list)
        case Success(Some(record)) => Success(list + [record])
  }

  function RecordIds(list: seq<PackageRecord>): seq<string> {
    seq(|list|, k requires 0 <= k < |list| => list[k].id)
  }

  /** The run gets past the loop exactly when every id has at least one version. */
  lemma {:induction false} RecordsSucceed(registry: Registry, ids: seq<string>)
    ensures Records(registry, ids).Success? <==> forall id :: id in ids ==> |registry.versions(id)| > 0
  {
    if |ids| > 0 {
      RecordsSucceed(registry, ids[..|ids| - 1]);
      assert ids == ids[..|ids| - 1] + [ids[|ids| - 1]];
    }
  }

  /**
   * The records are those of the archived ids, one each, in iteration order,
   * each built from its id's nuspec.
   */
  lemma {:induction false} RecordsAreArchived(registry: Registry, ids: seq<string>)
    requires Records(registry, ids).Success?
    ensures RecordIds(Records(registry, ids).value) == Archived(registry, ids)
    ensures forall r :: r in Records(registry, ids).value ==>
              var versions := registry.versions(r.id);
              |versions| > 0 && registry.archive(r.id, versions[0]).Some? &&
              r == ToRecord(r.id, registry.archive(r.id, versions[0]).value)
  {
    if |ids| > 0 {
      var init := ids[..|ids| - 1];
      RecordsAreArchived(registry, init);
      var list := Records(registry, init).value;
      var id := ids[|ids| - 1];
      match Fetch(registry, id)
      case Success(None) =>
      case Success(Some(record)) =>
        assert RecordIds(list + [record]) == RecordIds(list) + [id];
    }
  }

  /** An id is archived exactly when it is listed, has a version and its first version copies; distinct ids stay distinct. */
  lemma {:induction false} ArchivedMembers(registry: Registry, ids: seq<string>)
    requires NoDuplicates(ids)
    ensures NoDuplicates(Archived(registry, ids))
    ensures forall id :: id in Archived(registry, ids) <==>
              id in ids && |registry.versions(id)| > 0 && registry.archive(id, registry.versions(id)[0]).Some?
  {
    if |ids| > 0 {
      var init := ids[..|ids| - 1];
      assert NoDuplicates(init);
      ArchivedMembers(registry, init);
      assert ids == init + [ids[|ids| - 1]];
    }
  }

  /**
   * The record-building loop: `list.Add` for every id whose archive copy
   * succeeds, the dot.net project URL normalised first.
   */
  method BuildRecords(registry: Registry, packageIds: seq<string>) returns (r: Result<seq<PackageRecord>, Failure>)
    ensures r == Records(registry, packageIds)
  {
    var list := [];
    for i := 0 to |packageIds|
      invariant Records(registry, packageIds[..i]) == Success(list)
    {
      var id := packageIds[i];
      assert packageIds[..i + 1][..i] == packageIds[..i];
      var versions := registry.versions(id);
      if |versions| == 0 {
        RecordsFailureStays(registry, packageIds, i + 1);
        return Failure(NoVersions(id));
      }
      var nuspec := registry.archive(id, versions[0]);
      if nuspec.None? {
        continue;
      }
      var projectUrl := nuspec.value.projectUrl;
      if StartsWith(projectUrl, DotNetSite) && nuspec.value.repositoryUrl == "" {
        projectUrl := RuntimeRepository;
      }
      list := list + [PackageRecord(id, projectUrl, nuspec.value.license, nuspec.value.repositoryUrl)];
    }
    assert packageIds[..|packageIds|] == packageIds;
    r := Success(list);
  }

  /** Once an iteration throws, the loop's outcome is that exception. */
  lemma {:induction false} RecordsFailureStays(registry: Registry, ids: seq<string>, i: nat)
    requires i <= |ids| && Records(registry, ids[..i]).Failure?
    ensures Records(registry, ids) == Records(registry, ids[..i])
    decreases |ids| - i
  {
    if i < |ids| {
      assert ids[..i + 1][..i] == ids[..i];
      RecordsFailureStays(registry, ids, i + 1);
    } else {
      assert ids[..i] == ids;
    }
  }
}
