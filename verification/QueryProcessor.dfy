/** `QueryProcessor::process_query` (`src/protocol.rs`), run under the read lock. */
module QueryProcessing {
  import opened Wrappers
  import opened Names
  import opened Records
  import opened RecordLog
  import opened FlatZones
  import opened ZoneIndex
  import opened Messages
  import opened Responses

  class QueryProcessor {
    const zones: ZoneStore

    constructor (zones: ZoneStore)
      ensures this.zones == zones
    {
      this.zones := zones;
    }

    method ProcessQuery(query: Message) returns (response: Message, ghost choice: Option<Name>)
      requires zones.Valid() && ValidQuestions(query)
      ensures Allows(zones.Flat(), query, choice)
      ensures response == Reply(zones.Flat(), choice, query)
      ensures IsResponse(zones.Flat(), query, response)
    {
      choice := None;
      response := BLANK.(
        id := query.id,
        isResponse := true,
        op := StandardQuery,
        recursionDesired := query.recursionDesired,
        recursionAvailable := false);

      if query.op != StandardQuery {
        response := response.(rcode := NotImp);
        return;
      }

      if query.questions != [] && query.questions[0].qtype == AXFR {
        response := response.(questions := response.questions + [query.questions[0]], authoritative := true);
        return;
      }

      if query.questions == [] {
        response := response.(rcode := FormErr);
        return;
      }
      var question := query.questions[0];
      response := response.(questions := response.questions + [question]);
      assert question in query.questions;

      var zone := zones.FindZone(question.name);
      choice := if zone == null then None else Some(zone.origin);
      if zone == null {
        response := response.(rcode := Refused);
        return;
      }

      response := response.(authoritative := true);
      response := AnswerAuthoritatively(zone, question, query.edns, response);
    }
  }

  method AnswerAuthoritatively(zone: Zone, question: Question, edns: Option<Edns>, asked: Message)
    returns (response: Message)
    requires zone.Valid() && ValidName(question.name)
    requires asked.answers == [] && asked.authority == [] && asked.edns == None
    ensures var z := zone.Flat();
            var dnssecOk := edns.Some? && edns.value.dnssecOk;
            response == asked.(
              rcode := ResponseCode(z, question),
              answers := Answers(z, question, dnssecOk),
              authority := AuthoritySection(z, question),
              edns := if edns.None? then None else Some(Edns(SERVER_PAYLOAD, 0, dnssecOk)))
  {
    var dnssecOk := edns.Some? && edns.value.dnssecOk;
    response := AnswerFrom(zone, question, dnssecOk, asked);
    response := AddNameServers(zone, question, dnssecOk, response);
    if edns.Some? {
      var reply := Edns(SERVER_PAYLOAD, 0, false);
      if dnssecOk {
        reply := reply.(dnssecOk := true);
      }
      response := response.(edns := Some(reply));
    }
  }

  /** The decision tree: direct records, else a CNAME, else a negative answer. */
  method AnswerFrom(zone: Zone, question: Question, dnssecOk: bool, asked: Message) returns (response: Message)
    requires zone.Valid() && ValidName(question.name)
    requires asked.answers == [] && asked.authority == []
    ensures var z := zone.Flat();
            response == asked.(
              rcode := ResponseCode(z, question),
              answers := Answers(z, question, dnssecOk),
              authority := if Positive(z, question) then [] else [z.SoaRecord()])
  {
    var qname, qtype := question.name, question.qtype;
    var nameExists := zone.ContainsName(qname);
    var found := LookupOrWildcard(zone, nameExists, qname, qtype);
    match found {
      case Some(records) =>
        response := AnswerDirectly(zone, question, dnssecOk, records, asked);
      case None =>
        response := AnswerOtherwise(zone, question, dnssecOk, nameExists, asked);
    }
  }

  method AnswerOtherwise(zone: Zone, question: Question, dnssecOk: bool, nameExists: bool, asked: Message)
    returns (response: Message)
    requires zone.Valid() && ValidName(question.name) && nameExists == HasName(zone.log, question.name)
    requires Owned(zone.log, question.name, question.qtype) == []
    requires asked.answers == [] && asked.authority == []
    ensures var z := zone.Flat();
            response == asked.(
              rcode := ResponseCode(z, question),
              answers := Answers(z, question, dnssecOk),
              authority := if Positive(z, question) then [] else [z.SoaRecord()])
  {
    var aliases := LookupOrWildcard(zone, nameExists, question.name, CNAME);
    assert Positive(zone.Flat(), question) <==> aliases.Some?;
    if aliases.Some? {
      var chased := ChaseAliases(zone, aliases.value, question.qtype);
      response := asked.(answers := asked.answers + chased, rcode := NoError);
      assert response.answers == Answers(zone.Flat(), question, dnssecOk);
    } else {
      response := AnswerNegatively(zone, nameExists, asked);
      assert Chase([], zone.log, question.qtype) == [];
    }
  }

  method AnswerNegatively(zone: Zone, nameExists: bool, asked: Message) returns (response: Message)
    requires asked.authority == []
    ensures response == asked.(
              rcode := if nameExists then NoError else NXDomain,
              authority := [zone.Flat().SoaRecord()])
  {
    if nameExists {
      response := asked.(rcode := NoError);
      response := response.(authority := response.authority + [zone.GetSoaRecord()]);
    } else {
      response := asked.(rcode := NXDomain);
      response := response.(authority := response.authority + [zone.GetSoaRecord()]);
    }
  }

  method AnswerDirectly(zone: Zone, question: Question, dnssecOk: bool, records: seq<Record>, asked: Message)
    returns (response: Message)
    requires zone.Valid() && asked.answers == []
    requires records == Owned(zone.log, question.name, question.qtype) != []
    ensures response == asked.(rcode := NoError, answers := Answers(zone.Flat(), question, dnssecOk))
  {
    var answers := records;
    if dnssecOk {
      var signatures := zone.Lookup(question.name, SIG);
      if signatures.Some? {
        var covering := FilterCovering(signatures.value, question.qtype);
        answers := answers + covering;
      } else {
        assert Covering([], question.qtype) == [];
      }
    }
    assert answers == Answers(zone.Flat(), question, dnssecOk);
    response := asked.(answers := answers, rcode := NoError);
  }

  /** The zone's NS records go with every positive response. */
  method AddNameServers(zone: Zone, question: Question, dnssecOk: bool, answered: Message)
    returns (response: Message)
    requires zone.Valid()
    requires var z := zone.Flat();
             && answered.rcode == ResponseCode(z, question)
             && answered.answers == Answers(z, question, dnssecOk)
             && answered.authority == if Positive(z, question) then [] else [z.SoaRecord()]
    ensures response == answered.(authority := AuthoritySection(zone.Flat(), question))
  {
    NegativeExact(zone.Flat(), question, dnssecOk);
    response := answered;
    var nsRecords := zone.Lookup(zone.origin, NS);
    if response.rcode == NoError && response.answers != [] && nsRecords.Some? {
      response := response.(authority := response.authority + nsRecords.value);
    }
  }

  method LookupOrWildcard(zone: Zone, nameExists: bool, n: Name, t: RecordType)
    returns (found: Option<seq<Record>>)
    requires zone.Valid() && ValidName(n) && nameExists == HasName(zone.log, n)
    ensures found == NonEmpty(Owned(zone.log, n, t))
  {
    if nameExists {
      found := zone.Lookup(n, t);
    } else {
      found := zone.LookupWildcard(n, t);
    }
  }

  method FilterCovering(signatures: seq<Record>, t: RecordType) returns (added: seq<Record>)
    ensures added == Covering(signatures, t)
  {
    added := [];
    for i := 0 to |signatures|
      invariant added == Covering(signatures[..i], t)
    {
      var sig := signatures[i];
      assert signatures[..i + 1][..i] == signatures[..i];
      if sig.rdata.Signature? && sig.rdata.typeCovered == t {
        added := added + [sig];
      }
    }
    assert signatures[..|signatures|] == signatures;
  }

  method ChaseAliases(zone: Zone, aliases: seq<Record>, t: RecordType) returns (added: seq<Record>)
    requires zone.Valid()
    ensures added == Chase(aliases, zone.log, t)
  {
    added := [];
    for i := 0 to |aliases|
      invariant added == Chase(aliases[..i], zone.log, t)
    {
      var alias := aliases[i];
      assert aliases[..i + 1][..i] == aliases[..i];
      added := added + [alias];
      if alias.rdata.Alias? {
        var targets := zone.Lookup(alias.rdata.target, t);
        if targets.Some? {
          added := added + targets.value;
        }
      }
    }
    assert aliases[..|aliases|] == aliases;
  }
}
