/** The zone index and the zone store (`src/zone.rs`). */
module ZoneIndex {
  import opened Wrappers
  import opened Names
  import opened Records
  import opened RecordLog
  import opened FlatZones
  import Sorting

  type Index = map<Name, map<RecordType, seq<Record>>>

  /** The nested map holds exactly the non-empty RRsets of the log. */
  ghost predicate Agrees(index: Index, log: seq<Record>) {
    && (forall n: Name :: n in index <==> HasName(log, n))
    && (forall n: Name, t: RecordType :: Fetch(index, n, t) == NonEmpty(RRset(log, n, t)))
  }

  function Fetch(index: Index, n: Name, t: RecordType): Option<seq<Record>> {
    if n in index && t in index[n] then Some(index[n][t]) else None
  }

  class Zone {
    const origin: Name
    const soa: SoaData
    var records: Index
    ghost var log: seq<Record>

    ghost predicate Valid()
      reads this
    {
      Agrees(records, log)
    }

    ghost function Flat(): FlatZone
      reads this
    {
      FlatZone(origin, soa, log)
    }

    constructor (origin: Name, soa: SoaData)
      ensures Valid()
      ensures Flat() == FlatZone(origin, soa, [])
    {
      this.origin := origin;
      this.soa := soa;
      this.records := map[];
      this.log := [];
    }

    method AddRecord(record: Record)
      requires Valid()
      modifies this
      ensures Valid()
      ensures Flat() == FlatZone(origin, soa, old(log) + [record])
    {
      var name, rtype := record.owner, record.Type();
      var byType: map<RecordType, seq<Record>> := if name in records then records[name] else map[];
      var vec := if rtype in byType then byType[rtype] else [];
      assert records[name := byType[rtype := vec + [record]]] == Pushed(records, record);
      records := records[name := byType[rtype := vec + [record]]];
      log := log + [record];
      IndexGrows(old(records), old(log), record, records);
    }

    function Lookup(n: Name, t: RecordType): (found: Option<seq<Record>>)
      reads this
      ensures Valid() ==> found == NonEmpty(RRset(log, n, t))
    {
      Fetch(records, n, t)
    }

    predicate ContainsName(n: Name)
      reads this
      ensures Valid() ==> (ContainsName(n) <==> HasName(log, n))
    {
      n in records
    }

    method LookupWildcard(n: Name, t: RecordType) returns (found: Option<seq<Record>>)
      requires Valid() && ValidName(n)
      ensures found == NonEmpty(WildcardSet(log, n, t))
    {
      var skip := 1;
      while skip < |n|
        invariant 1 <= skip <= |n| + 1
        invariant skip <= |n| ==> WildcardSet(log, n, t) == WildcardSet(log, n[skip - 1..], t)
        invariant skip > |n| ==> n == []
      {
        var candidate := FromLabels([STAR] + n[skip..]);
        WildcardCandidateValid(n, skip);
        assert n[skip - 1..][1..] == n[skip..];
        if candidate.Some? && Lookup(candidate.value, t).Some? {
          return Lookup(candidate.value, t);
        }
        skip := skip + 1;
      }
      return None;
    }

    function GetSoaRecord(): (r: Record)
      reads this
      ensures r == Flat().SoaRecord()
    {
      Record(origin, soa.minimum, Authority(soa))
    }

    method GetAllRecords() returns (all: seq<Record>)
      requires Valid()
      ensures all == Flat().TransferStream()
    {
      all := [GetSoaRecord()];
      var sortedNames := Owners();
      ghost var typeLists: seq<seq<RecordType>> := [];
      for i := 0 to |sortedNames|
        invariant AreTypeLists(log, sortedNames[..i], typeLists)
        invariant all == [GetSoaRecord()] + AllGroups(log, sortedNames[..i], typeLists)
      {
        var added, types := RecordsOf(sortedNames[i]);
        Sorting.TakeSnoc(sortedNames, i);
        AllGroupsSnoc([GetSoaRecord()], log, sortedNames[..i], typeLists, sortedNames[i], types);
        all := all + added;
        typeLists := typeLists + [types];
      }
      assert sortedNames[..|sortedNames|] == sortedNames;
      GroupsAreTransfer(log, sortedNames, typeLists);
      all := all + [GetSoaRecord()];
    }

    /** The owners in canonical order. */
    method Owners() returns (names: seq<Name>)
      requires Valid()
      ensures AscendingNames(names)
      ensures forall n :: n in names <==> HasName(log, n)
      ensures forall n :: n in names ==> n in records
    {
      var keys := Sorting.Collect(records.Keys);
      NamesTotallyOrdered();
      names := Sorting.Sort(keys, (a, b) => NameLeq(a, b));
      SortedStrictly(names);
    }

    /** The inner loop: one owner's records, type by type, SOAs skipped. */
    method RecordsOf(name: Name) returns (added: seq<Record>, types: seq<RecordType>)
      requires Valid() && name in records
      ensures IsTypeList(log, name, types) && added == Groups(log, name, types)
    {
      added := [];
      var sortedTypes := TypesOf(name);
      for j := 0 to |sortedTypes|
        invariant added == Groups(log, name, sortedTypes[..j])
      {
        assert sortedTypes[..j + 1][..j] == sortedTypes[..j];
        if sortedTypes[j] == SOA {
          continue;
        }
        assert Fetch(records, name, sortedTypes[j]) == NonEmpty(RRset(log, name, sortedTypes[j]));
        added := added + records[name][sortedTypes[j]];
      }
      assert sortedTypes[..|sortedTypes|] == sortedTypes;
      types := sortedTypes;
    }

    method TypesOf(name: Name) returns (types: seq<RecordType>)
      requires Valid() && name in records
      ensures IsTypeList(log, name, types)
    {
      var keys := Sorting.Collect(records[name].Keys);
      types := Sorting.Sort(keys, (a: RecordType, b: RecordType) => a <= b);
      forall t: RecordType ensures t in types <==> RRset(log, name, t) != [] {
        assert Fetch(records, name, t) == NonEmpty(RRset(log, name, t));
      }
    }
  }

  /** Building a name from labels fails when a label or the whole is too long. */
  function FromLabels(labels: seq<Label>): Option<Name> {
    if ValidName(labels) then Some(labels) else None
  }

  lemma IndexGrows(before: Index, log: seq<Record>, r: Record, after: Index)
    requires Agrees(before, log) && after == Pushed(before, r)
    ensures Agrees(after, log + [r])
  {
    forall n: Name ensures n in after <==> HasName(log + [r], n) {
      HasNameSnoc(log, r, n);
    }
    forall n: Name, t: RecordType
      ensures Fetch(after, n, t) == NonEmpty(RRset(log + [r], n, t))
    {
      assert Fetch(before, n, t) == NonEmpty(RRset(log, n, t));
      RRsetSnoc(log, r, n, t);
      PushedAt(before, RRset(log, n, t), r, n, t);
    }
  }

  /** The map after `entry(name).or_default().entry(rtype).or_default().push(record)`. */
  function Pushed(index: Index, r: Record): Index {
    var byType: map<RecordType, seq<Record>> := if r.owner in index then index[r.owner] else map[];
    var vec := if r.Type() in byType then byType[r.Type()] else [];
    index[r.owner := byType[r.Type() := vec + [r]]]
  }

  lemma PushedAt(index: Index, s: seq<Record>, r: Record, n: Name, t: RecordType)
    requires Fetch(index, n, t) == NonEmpty(s)
    ensures Fetch(Pushed(index, r), n, t) == NonEmpty(s + if r.Has(n, t) then [r] else [])
  {
    assert s + [] == s;
  }

  lemma HasNameSnoc(log: seq<Record>, r: Record, n: Name)
    ensures HasName(log + [r], n) <==> HasName(log, n) || n == r.owner
  {
    if n == r.owner {
      assert (log + [r])[|log|].owner == n;
    }
    if i :| 0 <= i < |log| && log[i].owner == n {
      assert (log + [r])[i].owner == n;
    }
  }

  lemma NamesTotallyOrdered()
    ensures Sorting.TotalOrder((a, b) => NameLeq(a, b))
  {
    forall a, b ensures NameLeq(a, b) || NameLeq(b, a) {
      NameLessTotal(a, b);
    }
    forall a, b, c | NameLeq(a, b) && NameLeq(b, c) ensures NameLeq(a, c) {
      if NameLess(a, b) && NameLess(b, c) {
        NameLessTransitive(a, b, c);
      }
    }
  }

  ghost predicate Ascending(types: seq<RecordType>) {
    forall i, j :: 0 <= i < j < |types| ==> types[i] < types[j]
  }

  /** The types a name owns, in ascending order. */
  ghost predicate IsTypeList(log: seq<Record>, name: Name, types: seq<RecordType>) {
    && Ascending(types)
    && (forall t: RecordType :: t in types <==> RRset(log, name, t) != [])
  }

  /** What a transfer sends of one owner and type. */
  function Group(log: seq<Record>, name: Name, t: RecordType): seq<Record> {
    if t == SOA then [] else RRset(log, name, t)
  }

  /** One owner's records, type by type. */
  function Groups(log: seq<Record>, name: Name, types: seq<RecordType>): seq<Record> {
    if types == [] then []
    else Groups(log, name, types[..|types| - 1]) + Group(log, name, types[|types| - 1])
  }

  /** All owners' records, owner by owner. */
  function AllGroups(log: seq<Record>, names: seq<Name>, typeLists: seq<seq<RecordType>>): seq<Record>
    requires |names| == |typeLists|
  {
    if names == [] then []
    else
      AllGroups(log, names[..|names| - 1], typeLists[..|names| - 1])
      + Groups(log, names[|names| - 1], typeLists[|names| - 1])
  }

  lemma SortedStrictly(names: seq<Name>)
    requires Sorting.Distinct(names) && Sorting.SortedBy((a, b) => NameLeq(a, b), names)
    ensures AscendingNames(names)
  {
    forall i, j | 0 <= i < j < |names| ensures NameLess(names[i], names[j]) {
      assert NameLeq(names[i], names[j]) && names[i] != names[j];
    }
  }

  lemma {:induction false} GroupsMembers(log: seq<Record>, name: Name, types: seq<RecordType>)
    ensures forall r :: r in Groups(log, name, types) ==> r.owner == name && r.Type() in types
  {
    if types != [] {
      GroupsMembers(log, name, types[..|types| - 1]);
      RRsetMembers(log, name, types[|types| - 1]);
    }
  }

  lemma GroupRRset(log: seq<Record>, name: Name, u: RecordType, n: Name, t: RecordType)
    ensures RRset(Group(log, name, u), n, t)
            == if n == name && t == u && t != SOA then RRset(log, n, t) else []
  {
    RRsetTwice(log, name, u, n, t);
  }

  lemma GroupInOrder(log: seq<Record>, name: Name, u: RecordType)
    ensures forall r :: r in Group(log, name, u) ==> r.Has(name, u)
    ensures InOrder(Group(log, name, u))
  {
    RRsetMembers(log, name, u);
    var s := Group(log, name, u);
    NameLessTotal(name, name);
    forall i, j | 0 <= i < j < |s| ensures KeyLeq(s[i], s[j]) {
      assert s[i] in s && s[j] in s;
    }
  }

  lemma TypesPeel(types: seq<RecordType>, t: RecordType)
    requires Ascending(types) && types != []
    ensures Ascending(types[..|types| - 1])
    ensures t in types <==> t in types[..|types| - 1] || t == types[|types| - 1]
    ensures t in types[..|types| - 1] ==> t < types[|types| - 1]
  {
    Sorting.TakeSnoc(types, |types| - 1);
  }

  lemma {:induction false} GroupsRRset(log: seq<Record>, name: Name, types: seq<RecordType>, n: Name, t: RecordType)
    requires Ascending(types)
    ensures RRset(Groups(log, name, types), n, t)
            == if n == name && t in types && t != SOA then RRset(log, n, t) else []
  {
    if types != [] {
      var init, last := types[..|types| - 1], types[|types| - 1];
      TypesPeel(types, t);
      GroupsRRset(log, name, init, n, t);
      RRsetConcat(Groups(log, name, init), Group(log, name, last), n, t);
      GroupRRset(log, name, last, n, t);
    }
  }

  lemma {:induction false} GroupsInOrder(log: seq<Record>, name: Name, types: seq<RecordType>)
    requires Ascending(types)
    ensures InOrder(Groups(log, name, types))
  {
    if types != [] {
      var init, last := types[..|types| - 1], types[|types| - 1];
      GroupsInOrder(log, name, init);
      GroupsMembers(log, name, init);
      GroupInOrder(log, name, last);
      NameLessTotal(name, name);
      forall x, y | x in Groups(log, name, init) && y in Group(log, name, last) ensures KeyLeq(x, y) {
        TypesPeel(types, x.Type());
      }
      InOrderConcat(Groups(log, name, init), Group(log, name, last));
    }
  }

  lemma InOrderConcat(a: seq<Record>, b: seq<Record>)
    requires InOrder(a) && InOrder(b)
    requires forall x, y :: x in a && y in b ==> KeyLeq(x, y)
    ensures InOrder(a + b)
  {
    var s := a + b;
    forall i, j | 0 <= i < j < |s| ensures KeyLeq(s[i], s[j]) {
      if i < |a| <= j {
        assert s[i] in a && s[j] in b;
      } else if j >= |a| {
        assert s[i] == b[i - |a|] && s[j] == b[j - |a|];
      }
    }
  }

  ghost predicate AscendingNames(names: seq<Name>) {
    forall i, j :: 0 <= i < j < |names| ==> NameLess(names[i], names[j])
  }

  ghost predicate AreTypeLists(log: seq<Record>, names: seq<Name>, typeLists: seq<seq<RecordType>>) {
    |names| == |typeLists| && forall k :: 0 <= k < |names| ==> IsTypeList(log, names[k], typeLists[k])
  }

  lemma AllGroupsSnoc(before: seq<Record>, log: seq<Record>, names: seq<Name>,
                      typeLists: seq<seq<RecordType>>, name: Name, types: seq<RecordType>)
    requires AreTypeLists(log, names, typeLists) && IsTypeList(log, name, types)
    ensures AreTypeLists(log, names + [name], typeLists + [types])
    ensures before + AllGroups(log, names + [name], typeLists + [types])
            == before + AllGroups(log, names, typeLists) + Groups(log, name, types)
  {
    assert (names + [name])[..|names|] == names;
    assert (typeLists + [types])[..|names|] == typeLists;
  }

  /** What holds of ascending owners and their type lists holds without the last of them. */
  lemma Peel(log: seq<Record>, names: seq<Name>, typeLists: seq<seq<RecordType>>)
    requires AscendingNames(names) && AreTypeLists(log, names, typeLists) && names != []
    ensures AscendingNames(names[..|names| - 1])
    ensures AreTypeLists(log, names[..|names| - 1], typeLists[..|names| - 1])
    ensures IsTypeList(log, names[|names| - 1], typeLists[|names| - 1])
    ensures forall i :: 0 <= i < |names| - 1 ==> NameLess(names[i], names[|names| - 1])
  {
  }

  lemma {:induction false} AllGroupsRRset(
    log: seq<Record>, names: seq<Name>, typeLists: seq<seq<RecordType>>, n: Name, t: RecordType)
    requires AscendingNames(names) && AreTypeLists(log, names, typeLists)
    ensures RRset(AllGroups(log, names, typeLists), n, t)
            == if n in names && t != SOA then RRset(log, n, t) else []
  {
    if names != [] {
      var k := |names| - 1;
      Peel(log, names, typeLists);
      AllGroupsRRset(log, names[..k], typeLists[..k], n, t);
      JoinedRRset(log, AllGroups(log, names[..k], typeLists[..k]), names[k], typeLists[k], n, t);
      MemberOnce(names, n);
    }
  }

  lemma JoinedRRset(log: seq<Record>, front: seq<Record>, name: Name, types: seq<RecordType>, n: Name, t: RecordType)
    requires IsTypeList(log, name, types)
    ensures RRset(front + Groups(log, name, types), n, t)
            == RRset(front, n, t) + if n == name && t != SOA then RRset(log, n, t) else []
  {
    GroupsRRset(log, name, types, n, t);
    RRsetConcat(front, Groups(log, name, types), n, t);
  }

  lemma MemberOnce(names: seq<Name>, n: Name)
    requires AscendingNames(names) && names != []
    ensures n in names <==> n in names[..|names| - 1] || n == names[|names| - 1]
    ensures n in names[..|names| - 1] ==> n != names[|names| - 1]
  {
    var k := |names| - 1;
    if n in names[..k] {
      var i :| 0 <= i < k && names[i] == n;
      NameLessTotal(names[i], names[k]);
    }
  }

  lemma {:induction false} AllGroupsOwners(log: seq<Record>, names: seq<Name>, typeLists: seq<seq<RecordType>>)
    requires AscendingNames(names) && AreTypeLists(log, names, typeLists)
    ensures forall r :: r in AllGroups(log, names, typeLists) ==> r.owner in names
  {
    if names != [] {
      Peel(log, names, typeLists);
      var k := |names| - 1;
      AllGroupsOwners(log, names[..k], typeLists[..k]);
      GroupsMembers(log, names[k], typeLists[k]);
    }
  }

  lemma {:induction false} AllGroupsInOrder(
    log: seq<Record>, names: seq<Name>, typeLists: seq<seq<RecordType>>)
    requires AscendingNames(names) && AreTypeLists(log, names, typeLists)
    ensures InOrder(AllGroups(log, names, typeLists))
  {
    if names != [] {
      Peel(log, names, typeLists);
      var k := |names| - 1;
      var front, group := AllGroups(log, names[..k], typeLists[..k]), Groups(log, names[k], typeLists[k]);
      AllGroupsInOrder(log, names[..k], typeLists[..k]);
      AllGroupsOwners(log, names[..k], typeLists[..k]);
      GroupsInOrder(log, names[k], typeLists[k]);
      GroupsMembers(log, names[k], typeLists[k]);
      forall x, y | x in front && y in group ensures KeyLeq(x, y) {
        var i :| 0 <= i < k && names[i] == x.owner;
        NameLessTotal(x.owner, y.owner);
      }
      InOrderConcat(front, group);
    }
  }

  lemma GroupsAreTransfer(log: seq<Record>, names: seq<Name>, typeLists: seq<seq<RecordType>>)
    requires AscendingNames(names) && AreTypeLists(log, names, typeLists)
    requires forall n :: n in names <==> HasName(log, n)
    ensures AllGroups(log, names, typeLists) == Transfer(log)
  {
    var middle := AllGroups(log, names, typeLists);
    AllGroupsInOrder(log, names, typeLists);
    forall n: Name, t: RecordType
      ensures RRset(middle, n, t) == if t == SOA then [] else RRset(log, n, t)
    {
      AllGroupsRRset(log, names, typeLists, n, t);
      if RRset(log, n, t) != [] {
        OwnerExists(log, n, t);
      }
    }
    TransferUnique(log, middle);
  }

  class ZoneStore {
    var zones: map<Name, Zone>

    ghost predicate Valid()
      reads this, zones.Values
    {
      forall o :: o in zones ==> zones[o].origin == o && zones[o].Valid()
    }

    ghost function Flat(): FlatStore
      reads this, zones.Values
    {
      map o | o in zones :: zones[o].Flat()
    }

    constructor ()
      ensures Valid()
      ensures Flat() == map[]
    {
      zones := map[];
    }

    /** A second zone with the same origin replaces the first. */
    method AddZone(zone: Zone)
      requires Valid() && zone.Valid()
      modifies this
      ensures Valid()
      ensures zones == old(zones)[zone.origin := zone]
      ensures Flat() == old(Flat())[zone.origin := zone.Flat()]
    {
      zones := zones[zone.origin := zone];
    }

    method FindZone(name: Name) returns (zone: Zone?)
      requires Valid()
      ensures Selects(zones.Keys, name, if zone == null then None else Some(zone.origin))
      ensures zone != null ==> zone.origin in zones && zones[zone.origin] == zone
    {
      if name in zones {
        return zones[name];
      }
      var order := Sorting.Collect(zones.Keys);
      var best: Zone? := null;
      var bestLabels := 0;
      for i := 0 to |order|
        invariant Scan(order[..i], name) == if best == null then None else Some(best.origin)
        invariant best != null ==> best.origin in zones && zones[best.origin] == best
        invariant bestLabels == if best == null then 0 else NumLabels(best.origin)
      {
        assert order[..i + 1][..i] == order[..i];
        var zone := zones[order[i]];
        if IsSuffix(zone.origin, name) {
          var labels := NumLabels(zone.origin);
          if labels > bestLabels {
            best := zone;
            bestLabels := labels;
          }
        }
      }
      assert order[..|order|] == order;
      ScanBest(order, name);
      return best;
    }
  }
}
