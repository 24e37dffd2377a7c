/**
 * The package-id set: the output of `dotnet list package --include-transitive
 * --format json` walked project by project and framework by framework, every
 * top-level and transitive package id added to one hash set (Program.cs:24-42).
 */
module PackageSet {
  import opened Collections

  /** An entry of `topLevelPackages` or `transitivePackages`; only its `id` is read. */
  datatype Package = Package(id: string)

  /** An entry of a project's `frameworks`. */
  datatype Framework = Framework(topLevelPackages: seq<Package>, transitivePackages: seq<Package>)

  /** An entry of the manifest's `projects`. */
  datatype Project = Project(frameworks: seq<Framework>)

  /** The ids of a package list, in list order. */
  function PackageIds(ps: seq<Package>): seq<string> {
    if |ps| == 0 then [] else PackageIds(ps[..|ps| - 1]) + [ps[|ps| - 1].id]
  }

  /** The ids of one framework, top-level packages first, in visiting order. */
  function FrameworkIds(f: Framework): seq<string> {
    PackageIds(f.topLevelPackages) + PackageIds(f.transitivePackages)
  }

  /** The ids of a list of frameworks, in visiting order. */
  function FrameworksIds(fs: seq<Framework>): seq<string> {
    if |fs| == 0 then [] else FrameworksIds(fs[..|fs| - 1]) + FrameworkIds(fs[|fs| - 1])
  }

  /** Every id the nested loops visit, duplicates included, in visiting order. */
  function ManifestIds(projects: seq<Project>): seq<string> {
    if |projects| == 0 then []
    else ManifestIds(projects[..|projects| - 1]) + FrameworksIds(projects[|projects| - 1].frameworks)
  }

  /** `id` is the id of some package listed under some framework of some project. */
  ghost predicate Listed(id: string, projects: seq<Project>) {
    exists p, f :: p in projects && f in p.frameworks && InFramework(id, f)
  }

  ghost predicate InFramework(id: string, f: Framework) {
    Package(id) in f.topLevelPackages || Package(id) in f.transitivePackages
  }

  lemma {:induction false} PackageIdsListed(id: string, ps: seq<Package>)
    ensures id in PackageIds(ps) <==> Package(id) in ps
  {
    if |ps| > 0 {
      PackageIdsListed(id, ps[..|ps| - 1]);
      assert ps == ps[..|ps| - 1] + [ps[|ps| - 1]];
    }
  }

  lemma {:induction false} FrameworksIdsListed(id: string, fs: seq<Framework>)
    ensures id in FrameworksIds(fs) <==> exists f :: f in fs && InFramework(id, f)
  {
    if |fs| > 0 {
      var last := fs[|fs| - 1];
      var init := fs[..|fs| - 1];
      FrameworksIdsListed(id, init);
      PackageIdsListed(id, last.topLevelPackages);
      PackageIdsListed(id, last.transitivePackages);
      assert fs == init + [last];
      if exists f :: f in fs && InFramework(id, f) {
        var f :| f in fs && InFramework(id, f);
        if f != last {
          assert f in init;
        }
      }
      assert FrameworksIds(fs) == FrameworksIds(init) + FrameworkIds(last);
      if id in FrameworksIds(init) {
        var f :| f in init && InFramework(id, f);
        assert f in fs;
      }
      if id in FrameworkIds(last) {
        assert InFramework(id, last);
        assert last in fs;
      }
    }
  }

  /** The visited ids are exactly the listed ones. */
  lemma {:induction false} ManifestIdsListed(id: string, projects: seq<Project>)
    ensures id in ManifestIds(projects) <==> Listed(id, projects)
  {
    if |projects| > 0 {
      var last := projects[|projects| - 1];
      ManifestIdsListed(id, projects[..|projects| - 1]);
      FrameworksIdsListed(id, last.frameworks);
      assert projects == projects[..|projects| - 1] + [last];
    }
  }

  /** `PackageIds` of one more package. */
  lemma PackageIdsStep(ps: seq<Package>, k: nat)
    requires k < |ps|
    ensures PackageIds(ps[..k + 1]) == PackageIds(ps[..k]) + [ps[k].id]
  {
    assert ps[..k + 1][..k] == ps[..k];
  }

  /**
   * One inner `foreach`: `packageIds.Add(package.id)` for every package of
   * `packages`, where `packageIds` already holds the ids of `seen`.
   */
  method AddPackageIds(packageIds: seq<string>, ghost seen: seq<string>, packages: seq<Package>)
    returns (added: seq<string>)
    requires packageIds == Distinct(seen)
    ensures added == Distinct(seen + PackageIds(packages))
  {
    added := packageIds;
    assert seen + PackageIds(packages[..0]) == seen;
    for k := 0 to |packages|
      invariant added == Distinct(seen + PackageIds(packages[..k]))
    {
      ghost var visited := seen + PackageIds(packages[..k]);
      var id := packages[k].id;
      PackageIdsStep(packages, k);
      assert seen + PackageIds(packages[..k + 1]) == visited + [id];
      DistinctSnoc(visited, id);
      if id !in added {
        added := added + [id];
      }
    }
    assert packages[..|packages|] == packages;
  }

  /** `FrameworksIds` of one more framework, after the ids `seen` before them. */
  lemma FrameworksIdsStep(seen: seq<string>, fs: seq<Framework>, j: nat)
    requires j < |fs|
    ensures seen + FrameworksIds(fs[..j + 1]) ==
            seen + FrameworksIds(fs[..j]) + PackageIds(fs[j].topLevelPackages) + PackageIds(fs[j].transitivePackages)
  {
    assert fs[..j + 1][..j] == fs[..j];
  }

  /** `ManifestIds` of one more project. */
  lemma ManifestIdsStep(projects: seq<Project>, i: nat)
    requires i < |projects|
    ensures ManifestIds(projects[..i + 1]) == ManifestIds(projects[..i]) + FrameworksIds(projects[i].frameworks)
  {
    assert projects[..i + 1][..i] == projects[..i];
  }

  /** The loop over one project's frameworks (both inner loops for each framework). */
  method AddFrameworkIds(packageIds: seq<string>, ghost seen: seq<string>, frameworks: seq<Framework>)
    returns (added: seq<string>)
    requires packageIds == Distinct(seen)
    ensures added == Distinct(seen + FrameworksIds(frameworks))
  {
    added := packageIds;
    assert seen + FrameworksIds(frameworks[..0]) == seen;
    for j := 0 to |frameworks|
      invariant added == Distinct(seen + FrameworksIds(frameworks[..j]))
    {
      ghost var visited := seen + FrameworksIds(frameworks[..j]);
      ghost var top := PackageIds(frameworks[j].topLevelPackages);
      added := AddPackageIds(added, visited, frameworks[j].topLevelPackages);
      added := AddPackageIds(added, visited + top, frameworks[j].transitivePackages);
      FrameworksIdsStep(seen, frameworks, j);
    }
    assert frameworks[..|frameworks|] == frameworks;
  }

  /**
   * The nested `foreach` loops adding every id into the hash set `packageIds`.
   * The set is kept as its enumeration order: ids in order of first addition.
   */
  method CollectPackageIds(projects: seq<Project>) returns (packageIds: seq<string>)
    ensures packageIds == Distinct(ManifestIds(projects))
    ensures NoDuplicates(packageIds)
    ensures forall id :: id in packageIds <==> Listed(id, projects)
  {
    packageIds := [];
    for i := 0 to |projects|
      invariant packageIds == Distinct(ManifestIds(projects[..i]))
    {
      packageIds := AddFrameworkIds(packageIds, ManifestIds(projects[..i]), projects[i].frameworks);
      ManifestIdsStep(projects, i);
    }
    assert projects[..|projects|] == projects;
    forall id ensures id in packageIds <==> Listed(id, projects) {
      DistinctMembers(ManifestIds(projects), id);
      ManifestIdsListed(id, projects);
    }
  }
}
