/** Secondaries: zones rebuilt from a transfer, and how their responses compare. */
module Replicas {
  import opened Wrappers
  import opened Names
  import opened Records
  import opened RecordLog
  import opened FlatZones
  import opened Messages
  import opened Responses
  import opened ZoneIndex
  import opened ZoneParser

  /** A zone filled from a transfer, up to the SOA that closes it. */
  function Replica(z: FlatZone): FlatZone {
    FlatZone(z.origin, z.soa, [z.SoaRecord()] + Transfer(z.log))
  }

  /** The zone-building step of a zone file (`extract_soa_data`, `Zone::new`, `add_record`), taken
    * for each record of a stream. */
  function Fill(zone: Option<FlatZone>, origin: Name, stream: seq<Record>): Option<FlatZone> {
    if stream == [] then zone
    else Keep(Fill(zone, origin, stream[..|stream| - 1]), origin, stream[|stream| - 1])
  }

  /** The SOA that opens a transfer carries all it takes to create the zone: filling from the
    * stream, all but its last record, gives the replica. */
  lemma FilledFromTransfer(z: FlatZone)
    ensures var stream := z.TransferStream();
            Fill(None, z.origin, stream[..|stream| - 1]) == Some(Replica(z))
  {
    var stream := z.TransferStream();
    assert stream[..|stream| - 1] == [z.SoaRecord()] + Transfer(z.log);
    FillAppends(z, Transfer(z.log));
  }

  lemma {:induction false} FillAppends(z: FlatZone, records: seq<Record>)
    ensures Fill(None, z.origin, [z.SoaRecord()] + records)
            == Some(FlatZone(z.origin, z.soa, [z.SoaRecord()] + records))
  {
    var stream := [z.SoaRecord()] + records;
    if records == [] {
      assert stream[..0] == [] && stream == [z.SoaRecord()];
      assert [] + [z.SoaRecord()] == [z.SoaRecord()];
    } else {
      var init, last := records[..|records| - 1], records[|records| - 1];
      assert stream[..|stream| - 1] == [z.SoaRecord()] + init;
      FillAppends(z, init);
      assert stream == [z.SoaRecord()] + init + [last];
    }
  }

  lemma ReplicaRRset(z: FlatZone, n: Name, t: RecordType)
    ensures t != SOA ==> RRset(Replica(z).log, n, t) == RRset(z.log, n, t)
  {
    TransferIsTransfer(z.log);
    OneRecord(z.SoaRecord(), n, t);
    RRsetConcat([z.SoaRecord()], Transfer(z.log), n, t);
  }

  ghost predicate OwnsData(log: seq<Record>, n: Name) {
    exists r :: r in log && r.owner == n && r.Type() != SOA
  }

  lemma ReplicaName(z: FlatZone, n: Name)
    ensures HasName(Replica(z).log, n) <==> n == z.origin || OwnsData(z.log, n)
  {
    TransferConserves(z.log);
    var log, moved := Replica(z).log, Transfer(z.log);
    if n == z.origin {
      assert log[0].owner == n;
    }
    if OwnsData(z.log, n) {
      var r :| r in z.log && r.owner == n && r.Type() != SOA;
      assert multiset(moved)[r] == multiset(z.log)[r] > 0;
      assert r in moved;
      var i :| 0 <= i < |moved| && moved[i] == r;
      assert log[i + 1].owner == n;
    }
    if HasName(log, n) && n != z.origin {
      var i :| 0 <= i < |log| && log[i].owner == n;
      var r := moved[i - 1];
      assert log[i] == r && multiset(moved)[r] > 0;
      assert r in z.log;
    }
  }

  /** Nothing but the name's existence can tell the two zones apart. */
  lemma ReplicaAnswers(z: FlatZone, q: Question, dnssecOk: bool)
    requires q.qtype != SOA && HasName(z.log, q.name) == HasName(Replica(z).log, q.name)
    ensures SameAnswers(z, Replica(z), q, dnssecOk)
  {
    forall n: Name, t: RecordType | t != SOA ensures RRset(z.log, n, t) == RRset(Replica(z).log, n, t) {
      ReplicaRRset(z, n, t);
    }
    SameAnswersFor(z, Replica(z), q, dnssecOk);
  }

  /** A name that exists without data gets an empty NOERROR; one that does not exist gets records
    * or NXDOMAIN. */
  lemma ExistenceShows(x: FlatZone, y: FlatZone, q: Question, dnssecOk: bool)
    requires HasName(x.log, q.name) && !HasName(y.log, q.name)
    requires RRset(x.log, q.name, q.qtype) == [] && RRset(x.log, q.name, CNAME) == []
    ensures !SameAnswers(x, y, q, dnssecOk)
  {
    NegativeExact(x, q, dnssecOk);
    NegativeExact(y, q, dnssecOk);
  }

  lemma NoData(log: seq<Record>, n: Name, t: RecordType)
    requires !OwnsData(log, n) && t != SOA
    ensures RRset(log, n, t) == []
  {
    RRsetMembers(log, n, t);
    if RRset(log, n, t) != [] {
      assert RRset(log, n, t)[0] in RRset(log, n, t);
    }
  }

  // ----- servers -----

  predicate AsksSoa(query: Message) {
    query.questions != [] && query.questions[0].qtype == SOA
  }

  /** The store of a server that has one of its zones from a transfer. */
  function WithReplica(store: FlatStore, o: Name): FlatStore
    requires o in store
  {
    store[o := Replica(store[o])]
  }

  /** Whichever zone is selected, both servers send the same reply. */
  ghost predicate SameReplies(store: FlatStore, other: FlatStore, query: Message)
    requires store.Keys == other.Keys
  {
    forall choice :: Allows(store, query, choice) ==> Reply(store, choice, query) == Reply(other, choice, query)
  }

  /** The origin exists, and no other name that the zone can be asked for owns nothing but SOAs. */
  ghost predicate Replicable(store: FlatStore, o: Name)
    requires o in store
  {
    && HasName(store[o].log, o)
    && forall r :: r in store[o].log && r.owner != o && Selects(store.Keys, r.owner, Some(o)) ==>
         OwnsData(store[o].log, r.owner)
  }

  /** A secondary sends the replies of its primary to all queries except those for SOA exactly
    * when the zone is replicable. */
  lemma ReplicaExact(store: FlatStore, o: Name)
    requires o in store && store[o].origin == o
    ensures (forall query :: !AsksSoa(query) ==> SameReplies(store, WithReplica(store, o), query))
            <==> Replicable(store, o)
  {
    var z := store[o];
    if Replicable(store, o) {
      forall query | !AsksSoa(query) ensures SameReplies(store, WithReplica(store, o), query) {
        forall choice | Allows(store, query, choice)
          ensures Reply(store, choice, query) == Reply(WithReplica(store, o), choice, query)
        {
          ReplicableReplies(store, o, query, choice);
        }
      }
    } else if !HasName(z.log, o) {
      DataOwnersExist(z.log, o);
      ReplyDiffers(store, o, o);
    } else {
      var r :| r in z.log && r.owner != o && Selects(store.Keys, r.owner, Some(o)) && !OwnsData(z.log, r.owner);
      DataOwnersExist(z.log, r.owner);
      ReplyDiffers(store, o, r.owner);
    }
  }

  lemma ReplicableReplies(store: FlatStore, o: Name, query: Message, choice: Option<Name>)
    requires o in store && store[o].origin == o && Replicable(store, o)
    requires !AsksSoa(query) && Allows(store, query, choice)
    ensures Reply(store, choice, query) == Reply(WithReplica(store, o), choice, query)
  {
    if NeedsZone(query) && choice == Some(o) {
      var z, q := store[o], query.questions[0];
      ReplicaName(z, q.name);
      DataOwnersExist(z.log, q.name);
      ReplicaAnswers(z, q, WantsDnssec(query));
    }
  }

  lemma ReplyDiffers(store: FlatStore, o: Name, n: Name)
    requires o in store && store[o].origin == o && Selects(store.Keys, n, Some(o))
    requires !OwnsData(store[o].log, n) && HasName(store[o].log, n) == (n != o)
    ensures !SameReplies(store, WithReplica(store, o), Ask(Question(n, A)))
  {
    Differs(store[o], n);
    var query := Ask(Question(n, A));
    assert Allows(store, query, Some(o));
    assert Reply(store, Some(o), query) != Reply(WithReplica(store, o), Some(o), query);
  }

  /** A zone file may hold an SOA below its origin: the primary has the name, the secondary denies
    * it. */
  lemma ReplicaDiffers()
    ensures var soa := SoaData(["z"], ["z"], 1, 1, 1, 1, 1);
            var z := FlatZone(["z"], soa, [Record(["z"], 1, Authority(soa)), Record(["b", "z"], 1, Authority(soa))]);
            && Gives(map[["z"] := z], Question(["b", "z"], A), NoError, [])
            && Gives(map[["z"] := Replica(z)], Question(["b", "z"], A), NXDomain, [])
  {
    var n: Name, o: Name := ["b", "z"], ["z"];
    var soa := SoaData(o, o, 1, 1, 1, 1, 1);
    var z := FlatZone(o, soa, [Record(o, 1, Authority(soa)), Record(n, 1, Authority(soa))]);
    assert z.log[1].owner == n && |n| != |o|;
    assert IsSuffix(o, n);
    SoaBelowOrigin(z, n);
  }

  lemma SoaBelowOrigin(z: FlatZone, n: Name)
    requires (forall r :: r in z.log ==> r.Type() == SOA) && HasName(z.log, n)
    requires IsSuffix(z.origin, n) && n != z.origin && NumLabels(z.origin) > 0
    ensures Gives(map[z.origin := z], Question(n, A), NoError, [])
    ensures Gives(map[z.origin := Replica(z)], Question(n, A), NXDomain, [])
  {
    OnlyZoneGives(z, Question(n, A));
    OnlyZoneGives(Replica(z), Question(n, A));
    OnlySoas(z, Question(n, A));
    ReplicaName(z, n);
  }

  lemma OnlySoas(z: FlatZone, q: Question)
    requires q.qtype == A && forall r :: r in z.log ==> r.Type() == SOA
    ensures Answers(z, q, false) == [] && Answers(Replica(z), q, false) == []
    ensures ResponseCode(z, q) == if HasName(z.log, q.name) then NoError else NXDomain
    ensures ResponseCode(Replica(z), q) == if HasName(Replica(z).log, q.name) then NoError else NXDomain
  {
    TransferConserves(z.log);
    forall r | r in Replica(z).log ensures r.Type() == SOA {
      if r in Transfer(z.log) {
        assert multiset(Transfer(z.log))[r] > 0;
      }
    }
    NothingOwned(z.log, q.name);
    NothingOwned(Replica(z).log, q.name);
  }

  lemma NothingOwned(log: seq<Record>, n: Name)
    requires forall r :: r in log ==> r.Type() == SOA
    ensures Owned(log, n, A) == [] && Owned(log, n, CNAME) == []
  {
    if Owned(log, n, A) != [] {
      OwnedHas(log, n, A);
    }
    if Owned(log, n, CNAME) != [] {
      OwnedHas(log, n, CNAME);
    }
  }

  lemma OwnedHas(log: seq<Record>, n: Name, t: RecordType)
    requires Owned(log, n, t) != []
    ensures exists r :: r in log && r.Type() == t
  {
    OwnedFromLog(log, n, t);
    assert Owned(log, n, t)[0] in Owned(log, n, t);
  }

  lemma DataOwnersExist(log: seq<Record>, n: Name)
    ensures HasName(log, n) <==> exists r :: r in log && r.owner == n
    ensures OwnsData(log, n) ==> HasName(log, n)
  {
    if HasName(log, n) {
      var i :| 0 <= i < |log| && log[i].owner == n;
      assert log[i] in log;
    }
    if r :| r in log && r.owner == n {
      var i :| 0 <= i < |log| && log[i] == r;
      assert log[i].owner == n;
    }
  }

  lemma Differs(z: FlatZone, n: Name)
    requires !OwnsData(z.log, n) && HasName(z.log, n) == (n != z.origin)
    ensures !SameAnswers(z, Replica(z), Question(n, A), false)
  {
    ReplicaName(z, n);
    NoData(z.log, n, A);
    NoData(z.log, n, CNAME);
    ReplicaRRset(z, n, A);
    ReplicaRRset(z, n, CNAME);
    if n == z.origin {
      ExistenceShows(Replica(z), z, Question(n, A), false);
    } else {
      ExistenceShows(z, Replica(z), Question(n, A), false);
    }
  }

  // ----- the classes -----

  /** A secondary's zone: what stands between the SOAs of a transfer, added record by record. It
    * transfers the identical sequence in turn. */
  method Replicate(zone: Zone) returns (replica: Zone, stream: seq<Record>, again: seq<Record>)
    requires zone.Valid()
    ensures fresh(replica) && replica.Valid()
    ensures replica.Flat() == FlatZone(zone.origin, zone.soa, Transfer(zone.log))
    ensures stream == zone.Flat().TransferStream() && again == stream
  {
    stream := zone.GetAllRecords();
    replica := new Zone(zone.origin, zone.soa);
    ghost var middle := Transfer(zone.log);
    for i := 1 to |stream| - 1
      invariant fresh(replica) && replica.Valid() && zone.Valid()
      invariant stream == zone.Flat().TransferStream() && middle == Transfer(zone.log)
      invariant replica.Flat() == FlatZone(zone.origin, zone.soa, middle[..i - 1])
    {
      assert stream[i] == middle[i - 1];
      replica.AddRecord(stream[i]);
      assert middle[..i] == middle[..i - 1] + [middle[i - 1]];
    }
    assert middle[..|middle|] == middle;
    again := replica.GetAllRecords();
    TransferReplays(zone.log);
  }
}
