/** Zone files whose records stand in different orders, from the text to the response. */
module FileOrder {
  import opened Wrappers
  import opened Names
  import opened Records
  import opened RecordLog
  import opened FlatZones
  import opened Messages
  import opened Responses
  import opened Text
  import opened ZoneParser
  import opened ZoneFiles

  /** SOA-first record lists that differ only in how their RRsets are interleaved. */
  ghost predicate SameRecords(a: seq<Record>, b: seq<Record>) {
    && a != [] && b != [] && a[0].rdata.Authority? && b[0].rdata.Authority?
    && a[0].owner == b[0].owner && SameRRsets(a, b)
  }

  lemma FirstOfRRset(log: seq<Record>)
    requires log != []
    ensures var set_ := RRset(log, log[0].owner, log[0].Type()); set_ != [] && set_[0] == log[0]
  {
    assert log == [log[0]] + log[1..];
    RRsetConcat([log[0]], log[1..], log[0].owner, log[0].Type());
    OneRecord(log[0], log[0].owner, log[0].Type());
  }

  lemma SameFirst(a: seq<Record>, b: seq<Record>)
    requires SameRecords(a, b)
    ensures a[0] == b[0]
  {
    FirstOfRRset(a);
    FirstOfRRset(b);
  }

  /** Printed, parsed and put into any store under any origin, such lists give the same responses
    * to every query and the same transfers. */
  lemma OrderIgnored(a: seq<Record>, b: seq<Record>, origin: Name, arms: Arms, store: FlatStore, query: Message)
    requires SameRecords(a, b) && AllPrintable(a) && AllPrintable(b)
    ensures match (ZoneOf(Lines(PrintZone(a)), origin, arms), ZoneOf(Lines(PrintZone(b)), origin, arms))
            case (Ok(x), Ok(y)) =>
              && x.TransferStream() == y.TransferStream()
              && SameResponses(store[origin := x], store[origin := y], query)
            case _ => false
  {
    PrintParse(a, origin, arms);
    PrintParse(b, origin, arms);
    SameFirst(a, b);
    var x, y := FlatZone(origin, a[0].rdata.soa, a), FlatZone(origin, b[0].rdata.soa, b);
    TransferIgnoresInterleaving(a, b);
    SameStores(store, x, y);
    SameZonesRespond(store[origin := x], store[origin := y], query);
  }

  ghost predicate SameResponses(p: FlatStore, q: FlatStore, query: Message) {
    forall response :: IsResponse(p, query, response) <==> IsResponse(q, query, response)
  }

  lemma SameZonesRespond(p: FlatStore, q: FlatStore, query: Message)
    requires SameZones(p, q) && SameZones(q, p)
    ensures SameResponses(p, q, query)
  {
    forall response ensures IsResponse(p, query, response) <==> IsResponse(q, query, response) {
      if IsResponse(p, query, response) {
        ResponseIgnoresInterleaving(p, q, query, response);
      }
      if IsResponse(q, query, response) {
        ResponseIgnoresInterleaving(q, p, query, response);
      }
    }
  }

  lemma SameStores(store: FlatStore, x: FlatZone, y: FlatZone)
    requires x.origin == y.origin && x.soa == y.soa && SameRRsets(x.log, y.log)
    ensures SameZones(store[x.origin := x], store[x.origin := y])
    ensures SameZones(store[x.origin := y], store[x.origin := x])
  {
    var p, q := store[x.origin := x], store[x.origin := y];
    assert p.Keys == q.Keys;
    forall o | o in p
      ensures p[o].origin == q[o].origin && p[o].soa == q[o].soa && SameRRsets(p[o].log, q[o].log)
    {
      if o != x.origin {
        assert p[o] == q[o];
      }
    }
  }

  /** The SOA of negative responses comes from the file's first record: its data, and as TTL not its
    * own but its minimum field, at the configured origin. */
  lemma NegativeSoaOfFile(records: seq<Record>, origin: Name, arms: Arms, q: Question, dnssecOk: bool)
    requires AllPrintable(records) && records != [] && records[0].rdata.Authority?
    ensures match ZoneOf(Lines(PrintZone(records)), origin, arms)
            case Err => false
            case Ok(z) =>
              Answers(z, q, dnssecOk) == [] ==>
                AuthoritySection(z, q) == [Record(origin, records[0].rdata.soa.minimum, records[0].rdata)]
  {
    PrintParse(records, origin, arms);
    NegativeExact(FlatZone(origin, records[0].rdata.soa, records), q, dnssecOk);
  }
}
