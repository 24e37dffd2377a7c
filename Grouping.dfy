/**
 * `list.GroupBy(i => i.Url)` and the representative each group keeps
 * (Program.cs:77-93): groups come in the order their keys first appear; a
 * group with a non-empty key is reduced to one record by the dot-count fold,
 * the group with the empty key gives every member.
 */
module Grouping {
  import opened Collections
  import opened Text
  import opened Metadata

  /** One `IGrouping<string, record>`: its `Key` and its members in list order. */
  datatype Group = Group(key: string, members: seq<PackageRecord>)

  function Urls(list: seq<PackageRecord>): seq<string> {
    seq(|list|, k requires 0 <= k < |list| => list[k].url)
  }

  function Keys(groups: seq<Group>): seq<string> {
    seq(|groups|, k requires 0 <= k < |groups| => groups[k].key)
  }

  /** The records whose Url is `url`, in list order. */
  function WithUrl(list: seq<PackageRecord>, url: string): (m: seq<PackageRecord>)
    ensures forall k :: 0 <= k < |m| ==> m[k] in list && m[k].url == url
    ensures forall k :: 0 <= k < |list| && list[k].url == url ==> list[k] in m
  {
    if |list| == 0 then []
    else
      assert list == list[..|list| - 1] + [list[|list| - 1]];
      WithUrl(list[..|list| - 1], url) + (if list[|list| - 1].url == url then [list[|list| - 1]] else [])
  }

  /**
   * `GroupBy(i => i.Url)`: one group per distinct Url, in order of first
   * appearance, each holding only records of the list with that Url.
   */
  function GroupBy(list: seq<PackageRecord>): (groups: seq<Group>)
    ensures Keys(groups) == Distinct(Urls(list))
    ensures forall k :: 0 <= k < |groups| ==>
              forall m :: m in groups[k].members ==> m in list && m.url == groups[k].key
  {
    var keys := Distinct(Urls(list));
    seq(|keys|, k requires 0 <= k < |keys| => Group(keys[k], WithUrl(list, keys[k])))
  }

  /** The fold step `(x, y) => dots(x) < dots(y) ? x : y`. */
  function Keep(x: PackageRecord, y: PackageRecord): (r: PackageRecord)
    ensures r == x || r == y
    ensures Dots(r.id) <= Dots(x.id) && Dots(r.id) <= Dots(y.id)
    ensures Dots(x.id) == Dots(y.id) ==> r == y
  {
    if Dots(x.id) < Dots(y.id) then x else y
  }

  /** `Aggregate` with that step: seeded with the first member, folded left to right. */
  function Aggregate(members: seq<PackageRecord>): (r: PackageRecord)
    requires |members| > 0
    ensures r in members
    ensures forall k :: 0 <= k < |members| ==> Dots(r.id) <= Dots(members[k].id)
  {
    if |members| == 1 then members[0]
    else
      var init := members[..|members| - 1];
      assert members == init + [members[|members| - 1]];
      Keep(Aggregate(init), members[|members| - 1])
  }

  /** Every group is non-empty and holds only records with its key. */
  ghost predicate WellFormed(groups: seq<Group>) {
    && NoDuplicates(Keys(groups))
    && forall k :: 0 <= k < |groups| ==>
         |groups[k].members| > 0 && forall m :: m in groups[k].members ==> m.url == groups[k].key
  }

  predicate NonEmpty(groups: seq<Group>) {
    forall k :: 0 <= k < |groups| ==> |groups[k].members| > 0
  }

  /** The records `AppendLicenseInfo` is called with for one group. */
  function Emitted(group: Group): (calls: seq<PackageRecord>)
    requires |group.members| > 0
    ensures 0 < |calls| <= |group.members|
    ensures forall m :: m in calls ==> m in group.members
    ensures group.key != "" ==> |calls| == 1
  {
    if group.key != "" then [Aggregate(group.members)] else group.members
  }

  /** The records `AppendLicenseInfo` is called with for a list of groups, in call order. */
  function EmittedAll(groups: seq<Group>): (calls: seq<PackageRecord>)
    requires NonEmpty(groups)
    ensures |groups| <= |calls|
  {
    if |groups| == 0 then []
    else EmittedAll(groups[..|groups| - 1]) + Emitted(groups[|groups| - 1])
  }

  /** The records `AppendLicenseInfo` is called with for the whole list, in call order. */
  function Emissions(list: seq<PackageRecord>): (calls: seq<PackageRecord>)
    ensures |Distinct(Urls(list))| <= |calls|
  {
    GroupByNonEmpty(list);
    EmittedAll(GroupBy(list))
  }

  /**
   * `GroupBy` partitions the list: keys are the distinct Urls in order of
   * first appearance, each group holds exactly the records with its key, in
   * list order, and no group is empty.
   */
  lemma GroupByWellFormed(list: seq<PackageRecord>)
    ensures Keys(GroupBy(list)) == Distinct(Urls(list))
    ensures WellFormed(GroupBy(list))
    ensures forall k :: 0 <= k < |GroupBy(list)| ==>
              GroupBy(list)[k].members == WithUrl(list, GroupBy(list)[k].key)
    ensures NonEmpty(GroupBy(list))
  {
    var groups := GroupBy(list);
    var keys := Distinct(Urls(list));
    assert Keys(groups) == keys;
    forall k | 0 <= k < |groups| ensures |groups[k].members| > 0 {
      var i :| 0 <= i < |Urls(list)| && Urls(list)[i] == keys[k];
      assert list[i] in WithUrl(list, keys[k]);
    }
  }

  /** Dropping the last group keeps the groups well-formed, and the last key is new. */
  lemma WellFormedInit(groups: seq<Group>)
    requires WellFormed(groups) && |groups| > 0
    ensures WellFormed(groups[..|groups| - 1])
    ensures Keys(groups) == Keys(groups[..|groups| - 1]) + [groups[|groups| - 1].key]
    ensures groups[|groups| - 1].key !in Keys(groups[..|groups| - 1])
  {
    var init := groups[..|groups| - 1];
    assert Keys(init) == Keys(groups)[..|groups| - 1];
    assert Keys(groups)[|groups| - 1] == groups[|groups| - 1].key;
    forall j | 0 <= j < |init| ensures Keys(init)[j] != groups[|groups| - 1].key {
      assert Keys(groups)[j] == Keys(init)[j];
      assert Keys(groups)[j] != Keys(groups)[|groups| - 1];
    }
  }

  lemma UrlsAppend(a: seq<PackageRecord>, b: seq<PackageRecord>)
    ensures Urls(a + b) == Urls(a) + Urls(b)
  {
  }

  /** No group of `GroupBy` is empty. */
  lemma GroupByNonEmpty(list: seq<PackageRecord>)
    ensures NonEmpty(GroupBy(list))
  {
    GroupByWellFormed(list);
  }

  /** Filtering by Url distributes over concatenation. */
  lemma {:induction false} WithUrlAppend(a: seq<PackageRecord>, b: seq<PackageRecord>, url: string)
    ensures WithUrl(a + b, url) == WithUrl(a, url) + WithUrl(b, url)
    decreases |b|
  {
    if |b| > 0 {
      var b' := b[..|b| - 1];
      assert (a + b)[..|a + b| - 1] == a + b';
      WithUrlAppend(a, b', url);
    } else {
      assert a + b == a;
    }
  }

  /** A run of records that all carry `key` is kept whole or dropped whole. */
  lemma {:induction false} WithUrlUniform(s: seq<PackageRecord>, key: string, url: string)
    requires forall m :: m in s ==> m.url == key
    ensures WithUrl(s, url) == if key == url then s else []
  {
    if |s| > 0 {
      var s' := s[..|s| - 1];
      assert s == s' + [s[|s| - 1]];
      WithUrlUniform(s', key, url);
    }
  }

  /** What one group emits carries the group's key. */
  lemma EmittedUniform(group: Group)
    requires |group.members| > 0 && forall m :: m in group.members ==> m.url == group.key
    ensures forall m :: m in Emitted(group) ==> m.url == group.key
  {
  }

  /** Among well-formed groups, the emitted records with a given Url come from that Url's group alone. */
  lemma {:induction false} EmittedAllWithUrl(groups: seq<Group>, url: string)
    requires WellFormed(groups)
    ensures url !in Keys(groups) ==> WithUrl(EmittedAll(groups), url) == []
    ensures forall k :: 0 <= k < |groups| && groups[k].key == url ==>
              WithUrl(EmittedAll(groups), url) == Emitted(groups[k])
  {
    if |groups| > 0 {
      var init := groups[..|groups| - 1];
      var last := groups[|groups| - 1];
      WellFormedInit(groups);
      EmittedAllWithUrl(init, url);
      WithUrlAppend(EmittedAll(init), Emitted(last), url);
      EmittedUniform(last);
      WithUrlUniform(Emitted(last), last.key, url);
      WellFormedInit(groups);
      forall k | 0 <= k < |groups| && groups[k].key == url
        ensures WithUrl(EmittedAll(groups), url) == Emitted(groups[k])
      {
        if k < |groups| - 1 {
          assert init[k] == groups[k];
          assert Keys(groups)[k] != Keys(groups)[|groups| - 1];
        }
      }
      if url !in Keys(groups) {
        assert last.key == Keys(groups)[|groups| - 1];
      }
    }
  }

  /** A Url that no record has selects nothing. */
  lemma {:induction false} WithUrlAbsent(list: seq<PackageRecord>, url: string)
    requires url !in Urls(list)
    ensures WithUrl(list, url) == []
  {
    if |list| > 0 {
      var init := list[..|list| - 1];
      assert Urls(init) == Urls(list)[..|list| - 1];
      assert Urls(list)[|list| - 1] == list[|list| - 1].url;
      WithUrlAbsent(init, url);
    }
  }

  /** The group `GroupBy` makes for a Url of the list. */
  lemma GroupOf(list: seq<PackageRecord>, url: string) returns (k: nat)
    requires url in Urls(list)
    ensures k < |GroupBy(list)| && GroupBy(list)[k] == Group(url, WithUrl(list, url))
  {
    DistinctMembers(Urls(list), url);
    var keys := Distinct(Urls(list));
    k :| 0 <= k < |keys| && keys[k] == url;
  }

  /**
   * Each distinct non-empty Url gets exactly one `AppendLicenseInfo` call,
   * with the record the fold picks from all records of that Url.
   */
  lemma EmissionsPerUrl(list: seq<PackageRecord>, url: string)
    requires url in Urls(list) && url != ""
    ensures WithUrl(Emissions(list), url) == [Aggregate(WithUrl(list, url))]
  {
    GroupByWellFormed(list);
    var k := GroupOf(list, url);
    EmittedAllWithUrl(GroupBy(list), url);
  }

  /** A Url that no record has gets no call. */
  lemma EmissionsAbsentUrl(list: seq<PackageRecord>, url: string)
    requires url !in Urls(list)
    ensures WithUrl(Emissions(list), url) == []
  {
    GroupByWellFormed(list);
    DistinctMembers(Urls(list), url);
    EmittedAllWithUrl(GroupBy(list), url);
  }

  /** Records with an empty Url are never merged: each gets its own call, in list order. */
  lemma EmissionsEmptyUrl(list: seq<PackageRecord>)
    ensures WithUrl(Emissions(list), "") == WithUrl(list, "")
  {
    if "" in Urls(list) {
      GroupByWellFormed(list);
      var k := GroupOf(list, "");
      EmittedAllWithUrl(GroupBy(list), "");
    } else {
      EmissionsAbsentUrl(list, "");
      WithUrlAbsent(list, "");
    }
  }

  /** When every record has the same Url, `GroupBy` makes one group holding the whole list. */
  lemma GroupByOneUrl(list: seq<PackageRecord>, url: string)
    requires |list| > 0 && forall k :: 0 <= k < |list| ==> list[k].url == url
    ensures GroupBy(list) == [Group(url, list)]
  {
    var urls := Urls(list);
    assert [] + urls == urls;
    DistinctAppendRun([], urls, url);
    WithUrlUniform(list, url, url);
  }

  lemma EmittedAllSingle(group: Group)
    requires |group.members| > 0
    ensures EmittedAll([group]) == Emitted(group)
  {
    assert [group][..0] == [];
  }

  /** When every record has the same Url, the calls are those of that single group. */
  lemma EmissionsOneUrl(list: seq<PackageRecord>, url: string)
    requires |list| > 0 && forall k :: 0 <= k < |list| ==> list[k].url == url
    ensures Emissions(list) == Emitted(Group(url, list))
  {
    GroupByOneUrl(list, url);
    EmittedAllSingle(Group(url, list));
  }

  /** The Urls of what a list of well-formed groups emits, first appearances only, are the keys in group order. */
  lemma {:induction false} EmittedAllKeyOrder(groups: seq<Group>)
    requires WellFormed(groups)
    ensures Distinct(Urls(EmittedAll(groups))) == Keys(groups)
  {
    if |groups| > 0 {
      var init := groups[..|groups| - 1];
      var last := groups[|groups| - 1];
      WellFormedInit(groups);
      EmittedAllKeyOrder(init);
      var before := Urls(EmittedAll(init));
      var run := Urls(Emitted(last));
      UrlsAppend(EmittedAll(init), Emitted(last));
      EmittedUniform(last);
      assert forall i :: 0 <= i < |run| ==> run[i] == last.key;
      DistinctMembers(before, last.key);
      DistinctAppendRun(before, run, last.key);
    }
  }

  /** `AppendLicenseInfo` calls follow the order in which each Url first appears in the list. */
  lemma EmissionsKeyOrder(list: seq<PackageRecord>)
    ensures Distinct(Urls(Emissions(list))) == Distinct(Urls(list))
  {
    GroupByWellFormed(list);
    EmittedAllKeyOrder(GroupBy(list));
  }

  /**
   * The representative is the LAST member with the fewest dots: among
   * members with equal dot counts the fold keeps the later one.
   */
  lemma {:induction false} AggregateIsLastMinimal(members: seq<PackageRecord>, k: nat)
    requires k < |members|
    requires forall j :: 0 <= j < |members| ==> Dots(members[k].id) <= Dots(members[j].id)
    requires forall j :: k < j < |members| ==> Dots(members[k].id) < Dots(members[j].id)
    ensures Aggregate(members) == members[k]
  {
    if |members| > 1 {
      var init := members[..|members| - 1];
      var last := members[|members| - 1];
      assert Aggregate(members) == Keep(Aggregate(init), last);
      if k < |members| - 1 {
        AggregateIsLastMinimal(init, k);
      } else {
        assert Dots(Aggregate(init).id) >= Dots(last.id);
      }
    }
  }

  /** Every emitted record is one of the list's records. */
  lemma {:induction false} EmittedAllFromMembers(groups: seq<Group>, m: PackageRecord)
    requires NonEmpty(groups) && m in EmittedAll(groups)
    ensures exists k :: 0 <= k < |groups| && m in groups[k].members
  {
    var init := groups[..|groups| - 1];
    var last := groups[|groups| - 1];
    if m in EmittedAll(init) {
      EmittedAllFromMembers(init, m);
      var k :| 0 <= k < |init| && m in init[k].members;
      assert groups[k] == init[k];
    } else {
      assert m in Emitted(last);
    }
  }

  lemma EmissionsFromList(list: seq<PackageRecord>, m: PackageRecord)
    requires m in Emissions(list)
    ensures m in list
  {
    GroupByWellFormed(list);
    EmittedAllFromMembers(GroupBy(list), m);
  }

  /** Among well-formed groups every call's Url is one of the keys. */
  lemma EmittedAllUrls(groups: seq<Group>, i: nat)
    requires WellFormed(groups) && i < |EmittedAll(groups)|
    ensures EmittedAll(groups)[i].url in Keys(groups)
  {
    EmittedAllFromMembers(groups, EmittedAll(groups)[i]);
    var k :| 0 <= k < |groups| && EmittedAll(groups)[i] in groups[k].members;
    assert Keys(groups)[k] == groups[k].key;
  }

  /**
   * Among well-formed groups, two calls with different Urls come in the order
   * of their groups: the calls of one group are never interleaved with those
   * of another.
   */
  lemma {:induction false} EmittedAllGroupOrder(groups: seq<Group>, i: nat, j: nat)
    requires WellFormed(groups)
    requires i < j < |EmittedAll(groups)| && EmittedAll(groups)[i].url != EmittedAll(groups)[j].url
    ensures EmittedAll(groups)[i].url in Keys(groups) && EmittedAll(groups)[j].url in Keys(groups)
    ensures IndexOf(Keys(groups), EmittedAll(groups)[i].url) < IndexOf(Keys(groups), EmittedAll(groups)[j].url)
  {
    EmittedAllUrls(groups, i);
    EmittedAllUrls(groups, j);
    var init := groups[..|groups| - 1];
    var last := groups[|groups| - 1];
    WellFormedInit(groups);
    var before := EmittedAll(init);
    var calls := EmittedAll(groups);
    assert calls == before + Emitted(last);
    EmittedUniform(last);
    if j < |before| {
      assert calls[i] == before[i] && calls[j] == before[j];
      EmittedAllGroupOrder(init, i, j);
      IndexOfPrefix(Keys(init), [last.key], calls[i].url);
      IndexOfPrefix(Keys(init), [last.key], calls[j].url);
    } else if i < |before| {
      assert calls[i] == before[i];
      assert calls[j] in Emitted(last) by { assert calls[j] == Emitted(last)[j - |before|]; }
      EmittedAllUrls(init, i);
      IndexOfPrefix(Keys(init), [last.key], calls[i].url);
      IndexOfLast(Keys(init), last.key);
    } else {
      assert false;
    }
  }

  /**
   * The calls follow the groups: of two calls with different Urls, the
   * earlier one's Url first appears earlier in the list. In particular the
   * calls for the records without a Url come one after another, at the
   * position where the first such record appears.
   */
  lemma EmissionsUrlOrder(list: seq<PackageRecord>, i: nat, j: nat)
    requires i < j < |Emissions(list)| && Emissions(list)[i].url != Emissions(list)[j].url
    ensures Emissions(list)[i].url in Urls(list) && Emissions(list)[j].url in Urls(list)
    ensures IndexOf(Urls(list), Emissions(list)[i].url) < IndexOf(Urls(list), Emissions(list)[j].url)
  {
    GroupByWellFormed(list);
    var x := Emissions(list)[i].url;
    var y := Emissions(list)[j].url;
    EmittedAllGroupOrder(GroupBy(list), i, j);
    DistinctMembers(Urls(list), x);
    DistinctMembers(Urls(list), y);
    DistinctOrder(Urls(list), x, y);
  }
}
