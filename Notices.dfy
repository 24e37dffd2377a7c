/**
 * The notices document (Program.cs:21-95): ids collected, records built,
 * groups walked with one `AppendLicenseInfo` call per representative (or per
 * member of the empty-Url group), all written into one `StringBuilder`.
 */
module Notices {
  import opened Wrappers
  import opened Failures
  import opened Collections
  import opened PackageSet
  import opened Metadata
  import opened Grouping
  import opened LicenseInfo

  /** An entry writer: what one `AppendLicenseInfo` call adds for a record, or the exception it throws. */
  type Entry = PackageRecord -> Result<string, Failure>

  /** `AppendLicenseInfo` against `web`, as an entry writer. */
  function EntryOf(web: Web): Entry {
    record => RecordEntry(web, record)
  }

  /**
   * `entry` is `AppendLicenseInfo` against `web`. The methods below take the
   * writer as a ghost parameter so that their proofs only look at what the
   * entries are, not at how each one is computed.
   */
  ghost predicate Writes(web: Web, entry: Entry) {
    forall record {:trigger RecordEntry(web, record)} :: entry(record) == RecordEntry(web, record)
  }

  /** The builder contents after `entry` on each record in turn, or the first exception. */
  function Render(entry: Entry, records: seq<PackageRecord>): (r: Result<string, Failure>)
  {
    if |records| == 0 then Success("")
    else match Render(entry, records[..|records| - 1])
      case Failure(e) => Failure(e)
      case Success(sb) => Appended(sb, entry(records[|records| - 1]))
  }

  /** The document that is printed, or the exception that ends the run before anything is printed. */
  function Generate(registry: Registry, web: Web, projects: seq<Project>): (r: Result<string, Failure>)
    ensures r.Success? ==> forall id :: Listed(id, projects) ==> |registry.versions(id)| > 0
  {
    GenerateNeedsVersions(registry, web, projects);
    match Records(registry, Distinct(ManifestIds(projects)))
    case Failure(e) => Failure(e)
    case Success(list) => Render(EntryOf(web), Emissions(list))
  }

  /** A single call leaves exactly its entry in the builder. */
  lemma RenderOne(entry: Entry, record: PackageRecord)
    ensures Render(entry, [record]) ==
              if entry(record).Success? then Success(entry(record).value) else Failure(entry(record).error)
  {
    assert [record][..0] == [];
    if entry(record).Success? {
      assert "" + entry(record).value == entry(record).value;
    }
  }

  /** All or nothing: a document comes out exactly when no entry throws. */
  lemma {:induction false} RenderAllOrNothing(entry: Entry, records: seq<PackageRecord>)
    ensures Render(entry, records).Success? <==> forall k :: 0 <= k < |records| ==> entry(records[k]).Success?
  {
    if |records| > 0 {
      var init := records[..|records| - 1];
      RenderAllOrNothing(entry, init);
      assert forall k :: 0 <= k < |init| ==> init[k] == records[k];
    }
  }

  /** Later entries only append: the text for a prefix of the calls is a prefix of the whole text. */
  lemma {:induction false} RenderAppendOnly(entry: Entry, records: seq<PackageRecord>, more: seq<PackageRecord>)
    requires Render(entry, records + more).Success?
    ensures Render(entry, records).Success?
    ensures Render(entry, records).value <= Render(entry, records + more).value
    decreases |more|
  {
    if |more| > 0 {
      var init := more[..|more| - 1];
      assert (records + more)[..|records + more| - 1] == records + init;
      RenderAppendOnly(entry, records, init);
    } else {
      assert records + more == records;
    }
  }

  /** Once an entry throws, nothing after it changes the outcome. */
  lemma {:induction false} RenderFailureStays(entry: Entry, records: seq<PackageRecord>, all: seq<PackageRecord>)
    requires records <= all && Render(entry, records).Failure?
    ensures Render(entry, all) == Render(entry, records)
    decreases |all|
  {
    if |all| > |records| {
      var init := all[..|all| - 1];
      assert records <= init;
      RenderFailureStays(entry, records, init);
    } else {
      assert records == all;
    }
  }

  /** One more `AppendLicenseInfo` call on a builder that holds `sb`. */
  lemma RenderStep(entry: Entry, records: seq<PackageRecord>, sb: string, record: PackageRecord)
    requires Render(entry, records) == Success(sb)
    ensures Render(entry, records + [record]) == Appended(sb, entry(record))
  {
    assert (records + [record])[..|records|] == records;
  }

  lemma EmittedAllStep(groups: seq<Group>, i: nat)
    requires NonEmpty(groups) && i < |groups|
    ensures EmittedAll(groups[..i + 1]) == EmittedAll(groups[..i]) + Emitted(groups[i])
  {
    assert groups[..i + 1][..i] == groups[..i];
  }

  /** The calls for the first groups are the start of all the calls. */
  lemma {:induction false} EmittedAllPrefix(groups: seq<Group>, i: nat)
    requires NonEmpty(groups) && i <= |groups|
    ensures EmittedAll(groups[..i]) <= EmittedAll(groups)
    decreases |groups| - i
  {
    if i < |groups| {
      EmittedAllStep(groups, i);
      EmittedAllPrefix(groups, i + 1);
    } else {
      assert groups[..i] == groups;
    }
  }

  /**
   * One more call after the first `n` calls left `text`: its outcome is the
   * outcome of the first `n + 1` calls, and if it throws, of them all.
   */
  lemma RenderNext(entry: Entry, all: seq<PackageRecord>, n: nat, text: string)
    requires n < |all| && Render(entry, all[..n]) == Success(text)
    ensures Render(entry, all[..n + 1]) == Appended(text, entry(all[n]))
    ensures Appended(text, entry(all[n])).Failure? ==> Render(entry, all) == Appended(text, entry(all[n]))
  {
    assert all[..n + 1][..n] == all[..n];
    if Appended(text, entry(all[n])).Failure? {
      RenderFailureStays(entry, all[..n + 1], all);
    }
  }

  /** What `AppendLicenseInfo` makes of a record's fields is what `entry` writes for the record. */
  lemma WritesRecord(web: Web, entry: Entry, record: PackageRecord, sb: string)
    requires Writes(web, entry)
    ensures Appended(sb, LicenseEntry(web, record.id, record.url, record.license, record.repositoryUrl)) ==
            Appended(sb, entry(record))
  {
    assert RecordEntry(web, record) == LicenseEntry(web, record.id, record.url, record.license, record.repositoryUrl);
  }

  /**
   * `AppendLicenseInfo(item.Id, item.Url, item.License, item.Repository)`:
   * the call on the fields of one record, as both loops make it.
   */
  method AppendRecord(sb: string, web: Web, ghost entry: Entry, record: PackageRecord)
    returns (r: Result<string, Failure>)
    requires Writes(web, entry)
    ensures r == Appended(sb, entry(record))
  {
    r := AppendLicenseInfo(sb, web, record.id, record.url, record.license, record.repositoryUrl);
    WritesRecord(web, entry, record, sb);
  }

  /** The inner `foreach` over the empty-Url group: one `AppendLicenseInfo` per member, in order. */
  method AppendEach(sb: string, web: Web, ghost entry: Entry, ghost done: seq<PackageRecord>, members: seq<PackageRecord>)
    returns (r: Result<string, Failure>)
    requires Writes(web, entry)
    requires Render(entry, done) == Success(sb)
    ensures r == Render(entry, done + members)
  {
    var text := sb;
    ghost var all := done + members;
    assert all[..|done|] == done;
    for j := 0 to |members|
      invariant Render(entry, all[..|done| + j]) == Success(text)
    {
      var inner := members[j];
      assert all[|done| + j] == inner;
      var appended := AppendRecord(text, web, entry, inner);
      RenderNext(entry, all, |done| + j, text);
      if appended.Failure? {
        return appended;
      }
      text := appended.value;
    }
    assert all[..|done| + |members|] == all;
    r := Success(text);
  }

  /**
   * The calls for group `i`, made after those for the groups before it left
   * `sb`: their outcome is the outcome for the first `i + 1` groups, and if
   * they throw, for all the groups.
   */
  lemma RenderGroup(entry: Entry, groups: seq<Group>, i: nat, sb: string)
    requires NonEmpty(groups) && i < |groups|
    requires Render(entry, EmittedAll(groups[..i])) == Success(sb)
    ensures Render(entry, EmittedAll(groups[..i + 1])) == Render(entry, EmittedAll(groups[..i]) + Emitted(groups[i]))
    ensures Render(entry, EmittedAll(groups[..i + 1])).Failure? ==>
              Render(entry, EmittedAll(groups)) == Render(entry, EmittedAll(groups[..i + 1]))
  {
    EmittedAllStep(groups, i);
    if Render(entry, EmittedAll(groups[..i + 1])).Failure? {
      EmittedAllPrefix(groups, i + 1);
      RenderFailureStays(entry, EmittedAll(groups[..i + 1]), EmittedAll(groups));
    }
  }

  /**
   * The body of the `foreach` over the groups, for one group `item` after the
   * calls `done` left `sb`: one `AppendLicenseInfo` for the dot-count
   * representative of a non-empty key, one per member for the empty key.
   */
  method AppendGroup(sb: string, web: Web, ghost entry: Entry, ghost done: seq<PackageRecord>, item: Group)
    returns (r: Result<string, Failure>)
    requires Writes(web, entry) && |item.members| > 0
    requires Render(entry, done) == Success(sb)
    ensures r == Render(entry, done + Emitted(item))
  {
    if item.key != "" {
      var typical := Aggregate(item.members);
      r := AppendRecord(sb, web, entry, typical);
      RenderStep(entry, done, sb, typical);
    } else {
      r := AppendEach(sb, web, entry, done, item.members);
    }
  }

  /**
   * The `foreach` over the groups: the calls of each group in turn, all into
   * the same builder; the first exception ends the run.
   */
  method WriteGroups(web: Web, ghost entry: Entry, groups: seq<Group>) returns (r: Result<string, Failure>)
    requires Writes(web, entry) && NonEmpty(groups)
    ensures r == Render(entry, EmittedAll(groups))
  {
    var sb := "";
    for i := 0 to |groups|
      invariant Render(entry, EmittedAll(groups[..i])) == Success(sb)
    {
      var appended := AppendGroup(sb, web, entry, EmittedAll(groups[..i]), groups[i]);
      RenderGroup(entry, groups, i, sb);
      if appended.Failure? {
        return appended;
      }
      sb := appended.value;
    }
    assert groups[..|groups|] == groups;
    r := Success(sb);
  }

  /** The `foreach` over `list.GroupBy(i => i.Url)` writing every notice into a new builder. */
  method WriteNotices(web: Web, ghost entry: Entry, list: seq<PackageRecord>) returns (r: Result<string, Failure>)
    requires Writes(web, entry)
    ensures r == Render(entry, Emissions(list))
  {
    GroupByNonEmpty(list);
    r := WriteGroups(web, entry, GroupBy(list));
  }

  /**
   * The whole program between reading the manifest and printing: the
   * package-id set, the record list, then the notices.
   */
  method GenerateNotices(registry: Registry, web: Web, projects: seq<Project>) returns (r: Result<string, Failure>)
    ensures r == Generate(registry, web, projects)
  {
    var packageIds := CollectPackageIds(projects);
    var list := BuildRecords(registry, packageIds);
    if list.Failure? {
      return Failure(list.error);
    }
    r := WriteNotices(web, EntryOf(web), list.value);
  }

  /** The run aborts before writing anything exactly when some listed package has no version. */
  lemma GenerateNeedsVersions(registry: Registry, web: Web, projects: seq<Project>)
    ensures Records(registry, Distinct(ManifestIds(projects))).Failure? <==>
              exists id :: Listed(id, projects) && |registry.versions(id)| == 0
  {
    var ids := Distinct(ManifestIds(projects));
    RecordsSucceed(registry, ids);
    forall id ensures id in ids <==> Listed(id, projects) {
      DistinctMembers(ManifestIds(projects), id);
      ManifestIdsListed(id, projects);
    }
  }
}
