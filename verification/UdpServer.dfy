/** One UDP query, and how large responses are cut down (`handle_udp_query` in `src/server.rs`). */
module UdpServer {
  import opened Wrappers
  import opened Names
  import opened Records
  import opened FlatZones
  import RecordLog
  import opened Messages
  import opened Responses
  import opened QueryProcessing

  const PLAIN_LIMIT := 512
  const MAX_BODY := 65535
  const MINIMAL := 12 + 255 + 4 + 11   // header, one question and OPT

  type Encoder = Message -> seq<Octet>

  function QuestionsSize(questions: seq<Question>): nat {
    if questions == [] then 0 else WireLength(questions[0].name) + 4 + QuestionsSize(questions[1..])
  }

  function RecordsSize(records: seq<Record>, size: Record -> nat): nat {
    if records == [] then 0 else size(records[0]) + RecordsSize(records[1..], size)
  }

  /** Header, questions, records and OPT one after the other; compression only shortens. */
  function SizeBound(m: Message, size: Record -> nat): nat {
    12 + QuestionsSize(m.questions)
    + RecordsSize(m.answers, size) + RecordsSize(m.authority, size) + RecordsSize(m.additionals, size)
    + if m.edns.Some? then 11 else 0
  }

  /** All that is assumed of the message encoder. */
  ghost predicate GoodEncoder(enc: Encoder, size: Record -> nat) {
    forall m :: 1 <= |enc(m)| <= MAX_BODY && |enc(m)| <= SizeBound(m, size)
  }

  /** The first two octets of a packet, if it has them. */
  function IdOf(data: seq<Octet>): nat {
    if |data| < 2 then 0
    else
      var high: nat, low: nat := data[0], data[1];
      high * 256 + low
  }

  /** Network order: the high octet comes first. */
  lemma IdOctets(high: Octet, low: Octet, rest: seq<Octet>)
    ensures IdOf([high, low] + rest) == high as int * 256 + low as int
    ensures IdOf([high]) == 0 && IdOf([]) == 0
  {
  }

  function ErrorReply(id: nat, rcode: Rcode): Message {
    BLANK.(id := id, isResponse := true, rcode := rcode)
  }

  /** The size the datagram must not exceed: the server's own advertised payload under EDNS. */
  function Limit(response: Message): nat {
    if response.edns.Some? then response.edns.value.maxPayload else PLAIN_LIMIT
  }

  /** The truncated message with its first `rung` record sections dropped. */
  function Dropped(m: Message, rung: nat): Message {
    m.(truncated := true,
       answers := if rung >= 1 then [] else m.answers,
       authority := if rung >= 2 then [] else m.authority,
       additionals := if rung >= 3 then [] else m.additionals)
  }

  function Section(m: Message, rung: nat): seq<Record> {
    if rung == 1 then m.answers else if rung == 2 then m.authority else m.additionals
  }

  /** A rung is tried when there is something for it to drop. */
  predicate Works(m: Message, rung: nat, limit: nat, enc: Encoder) {
    Section(m, rung) != [] && |enc(Dropped(m, rung))| <= limit
  }

  /** The message that goes out: the response if it fits, else the first rung that works, else
    * the response without any records. */
  ghost predicate IsChosen(m: Message, sent: Message, limit: nat, enc: Encoder) {
    if |enc(m)| <= limit then sent == m
    else
      || (exists rung: nat ::
            && 1 <= rung <= 3 && Works(m, rung, limit, enc) && sent == Dropped(m, rung)
            && forall lower: nat :: 1 <= lower < rung ==> !Works(m, lower, limit, enc))
      || (sent == Dropped(m, 3) && forall rung: nat :: 1 <= rung <= 3 ==> !Works(m, rung, limit, enc))
  }

  method ChooseMessage(response: Message, enc: Encoder) returns (sent: Message)
    ensures IsChosen(response, sent, Limit(response), enc)
  {
    var limit := Limit(response);
    if |enc(response)| <= limit {
      return response;
    }
    var truncated := response.(truncated := true);
    while truncated.answers != []
      invariant truncated == Dropped(response, 0) || (truncated == Dropped(response, 1) && response.answers != [])
      invariant truncated.answers == [] ==> !Works(response, 1, limit, enc)
      decreases |truncated.answers|
    {
      truncated := truncated.(answers := []);
      if |enc(truncated)| <= limit {
        assert Works(response, 1, limit, enc);
        return truncated;
      }
    }
    assert truncated == Dropped(response, 1);
    while truncated.authority != []
      invariant truncated == Dropped(response, 1) || (truncated == Dropped(response, 2) && response.authority != [])
      invariant truncated.authority == [] ==> !Works(response, 2, limit, enc)
      decreases |truncated.authority|
    {
      truncated := truncated.(authority := []);
      if |enc(truncated)| <= limit {
        assert Works(response, 2, limit, enc);
        return truncated;
      }
    }
    assert truncated == Dropped(response, 2);
    while truncated.additionals != []
      invariant truncated == Dropped(response, 2) || (truncated == Dropped(response, 3) && response.additionals != [])
      invariant truncated.additionals == [] ==> !Works(response, 3, limit, enc)
      decreases |truncated.additionals|
    {
      truncated := truncated.(additionals := []);
      if |enc(truncated)| <= limit {
        assert Works(response, 3, limit, enc);
        return truncated;
      }
    }
    return truncated;
  }

  /** What is sent of a response that does not fit: without answers if there are some and that
    * fits, else without authority if there is some and that fits, else without any records. The
    * limit is the response's own EDNS payload, or 512 octets. */
  lemma LadderExact(m: Message, sent: Message, enc: Encoder)
    requires IsChosen(m, sent, Limit(m), enc)
    ensures var limit := if m.edns.Some? then m.edns.value.maxPayload else 512;
            var noAnswers := m.(truncated := true, answers := []);
            var noAuthority := m.(truncated := true, answers := [], authority := []);
            var bare := m.(truncated := true, answers := [], authority := [], additionals := []);
            sent ==
            if |enc(m)| <= limit then m
            else if m.answers != [] && |enc(noAnswers)| <= limit then noAnswers
            else if m.authority != [] && |enc(noAuthority)| <= limit then noAuthority
            else bare
  {
    assert Works(m, 1, Limit(m), enc) <==> m.answers != [] && |enc(Dropped(m, 1))| <= Limit(m);
    assert Works(m, 2, Limit(m), enc) <==> m.authority != [] && |enc(Dropped(m, 2))| <= Limit(m);
    assert Works(m, 3, Limit(m), enc) <==> m.additionals != [] && |enc(Dropped(m, 3))| <= Limit(m);
  }

  /** Truncation touches nothing but TC and the record sections, and TC says that it happened. */
  lemma TruncationKeepsHeader(m: Message, sent: Message, limit: nat, enc: Encoder)
    requires IsChosen(m, sent, limit, enc) && !m.truncated
    ensures sent.(truncated := false, answers := m.answers, authority := m.authority, additionals := m.additionals) == m
    ensures sent.truncated <==> |enc(m)| > limit
    ensures sent.answers == m.answers || sent.answers == []
  {
  }

  /** What is left when every record is gone needs at most 282 octets. */
  lemma MinimalFits(store: FlatStore, query: Message, response: Message, size: Record -> nat)
    requires ValidQuestions(query) && IsResponse(store, query, response)
    ensures SizeBound(Dropped(response, 3), size) <= MINIMAL
    ensures !response.truncated && response.additionals == []
    ensures Limit(response) == if response.edns.Some? then SERVER_PAYLOAD else PLAIN_LIMIT
    ensures response.edns.Some? ==> query.edns.Some?
  {
    ResponseShape(store, query, response);
    if query.questions != [] {
      assert query.questions[0] in query.questions;
    }
    assert response.questions != [] ==> response.questions[1..] == [];
    assert QuestionsSize(response.questions) <= 255 + 4;
  }

  /** UDP size safety: no datagram exceeds its limit, whatever the response and the encoder. */
  lemma NeverTooLarge(
    store: FlatStore, query: Message, response: Message, sent: Message, enc: Encoder, size: Record -> nat)
    requires ValidQuestions(query) && IsResponse(store, query, response)
    requires GoodEncoder(enc, size) && IsChosen(response, sent, Limit(response), enc)
    ensures |enc(sent)| <= Limit(response)
  {
    MinimalFits(store, query, response, size);
    assert |enc(Dropped(response, 3))| <= SizeBound(Dropped(response, 3), size);
  }

  /** A client that advertised at least the server's own payload is never sent more than it
    * advertised, and one without EDNS never more than 512 octets. */
  lemma ClientLimitKept(
    store: FlatStore, query: Message, response: Message, sent: Message, enc: Encoder, size: Record -> nat)
    requires ValidQuestions(query) && IsResponse(store, query, response)
    requires GoodEncoder(enc, size) && IsChosen(response, sent, Limit(response), enc)
    requires query.edns.Some? ==> query.edns.value.maxPayload >= SERVER_PAYLOAD
    ensures |enc(sent)| <= if query.edns.Some? then query.edns.value.maxPayload else PLAIN_LIMIT
  {
    NeverTooLarge(store, query, response, sent, enc, size);
    MinimalFits(store, query, response, size);
  }

  /** For a smaller advertised payload, the datagram fits the client exactly when it is the one a
    * server would choose that cuts at the client's limit. A response within the server's own
    * limit keeps to the client's exactly when the whole of it does. */
  lemma ClientLimitExact(
    store: FlatStore, query: Message, response: Message, sent: Message, enc: Encoder, size: Record -> nat, payload: nat)
    requires ValidQuestions(query) && IsResponse(store, query, response)
    requires GoodEncoder(enc, size) && IsChosen(response, sent, Limit(response), enc)
    ensures MINIMAL <= payload <= Limit(response) ==>
              (|enc(sent)| <= payload <==> IsChosen(response, sent, payload, enc))
    ensures |enc(response)| <= Limit(response) ==> (|enc(sent)| <= payload <==> |enc(response)| <= payload)
  {
    MinimalFits(store, query, response, size);
    assert |enc(Dropped(response, 3))| <= SizeBound(Dropped(response, 3), size);
    if |enc(sent)| <= payload <= Limit(response) && sent != response {
      assert forall rung: nat :: 1 <= rung <= 3 && !Works(response, rung, Limit(response), enc)
                                 ==> !Works(response, rung, payload, enc);
    }
  }

  // ----- responses that overrun the client's payload -----

  /** A DNSKEY record on the wire: owner, ten octets, flags, protocol, algorithm and key (section
    * 4.1.3 of RFC 1035, section 2.1 of RFC 4034). */
  ghost predicate PlainSizes(size: Record -> nat) {
    forall owner, ttl, octets ::
      size(KeyRecord(owner, ttl, octets)) == WireLength(owner) + 10 + 4 + |octets|
  }

  function KeyRecord(owner: Name, ttl: nat, octets: seq<Octet>): Record {
    Record(owner, ttl, Key(256, 8, octets))
  }

  /** One key as the only record. */
  function OneKey(m: Message, owner: Name, ttl: nat, octets: seq<Octet>): Message {
    m.(answers := [KeyRecord(owner, ttl, octets)], authority := [], additionals := [])
  }

  /** Keys are written out in full: each octet of them makes the message one longer. */
  ghost predicate WritesKeys(enc: Encoder) {
    forall m: Message, owner: Name, ttl: nat, octets: seq<Octet> ::
      |m.questions| == 1 && ValidQuestions(m) && ValidName(owner) && |octets| <= SERVER_PAYLOAD ==>
        |enc(OneKey(m, owner, ttl, octets))| == |enc(OneKey(m, owner, ttl, []))| + |octets|
  }

  function Zeros(n: nat): (octets: seq<Octet>)
    ensures |octets| == n
  {
    seq(n, i => 0)
  }

  const OWNER: Name := ["a"]

  /** A zone with a key, as a zone file gives it: the SOA comes first. */
  function KeyZone(octets: seq<Octet>): FlatZone {
    var soa := SoaData(OWNER, OWNER, 1, 1, 1, 1, 1);
    FlatZone(OWNER, soa, [Record(OWNER, 1, Authority(soa)), KeyRecord(OWNER, 1, octets)])
  }

  function KeyQuery(payload: nat): Message {
    BLANK.(questions := [Question(OWNER, DNSKEY)], edns := Some(Edns(payload, 0, false)))
  }

  /** The answer to it, said directly. */
  function KeyReply(octets: seq<Octet>): Message {
    OneKey(
      BLANK.(isResponse := true, authoritative := true, questions := [Question(OWNER, DNSKEY)],
             edns := Some(Edns(SERVER_PAYLOAD, 0, false))),
      OWNER, 1, octets)
  }

  lemma KeyZoneReplies(payload: nat, octets: seq<Octet>)
    ensures IsResponse(map[OWNER := KeyZone(octets)], KeyQuery(payload), KeyReply(octets))
  {
    var store := map[OWNER := KeyZone(octets)];
    var z, q := KeyZone(octets), Question(OWNER, DNSKEY);
    RecordLog.TwoRecords(z.log, OWNER, DNSKEY);
    RecordLog.TwoRecords(z.log, OWNER, NS);
    assert z.log[0].owner == OWNER;
    assert Answers(z, q, false) == [z.log[1]];
    assert Allows(store, KeyQuery(payload), Some(OWNER));
    assert Reply(store, Some(OWNER), KeyQuery(payload)) == KeyReply(octets);
  }

  /** A key of the right size makes the message as long as the server allows. */
  lemma KeyOfSize(enc: Encoder, size: Record -> nat) returns (octets: seq<Octet>)
    requires GoodEncoder(enc, size) && PlainSizes(size) && WritesKeys(enc)
    ensures |enc(KeyReply(octets))| == SERVER_PAYLOAD
  {
    var empty := KeyReply([]);
    OwnerValid();
    EmptyKeyFits(enc, size);
    octets := Zeros(SERVER_PAYLOAD - |enc(empty)|);
    assert KeyReply(octets) == OneKey(empty, OWNER, 1, octets) && empty == OneKey(empty, OWNER, 1, []);
    assert |enc(OneKey(empty, OWNER, 1, octets))| == |enc(OneKey(empty, OWNER, 1, []))| + |octets|;
  }

  lemma OwnerValid()
    ensures WireLength(OWNER) == 3 && ValidName(OWNER)
  {
    assert WireLength(OWNER) == 1 + |OWNER[0]| + WireLength(OWNER[1..]) && OWNER[1..] == [];
  }

  lemma EmptyKeyFits(enc: Encoder, size: Record -> nat)
    requires GoodEncoder(enc, size) && PlainSizes(size) && WireLength(OWNER) == 3
    ensures |enc(KeyReply([]))| <= SERVER_PAYLOAD
  {
    var m := KeyReply([]);
    assert m.questions[1..] == [] && m.answers[1..] == [];
    assert QuestionsSize(m.questions) == 7;
    assert size(KeyRecord(OWNER, 1, [])) == 17;
    assert RecordsSize(m.answers, size) == 17;
    assert |enc(m)| <= SizeBound(m, size);
  }

  /** Whatever the encoder, for every advertised payload below the server's own there is a
    * response of exactly the server's payload: it is sent whole and overruns the client. */
  lemma ClientLimitOverrun(payload: nat, enc: Encoder, size: Record -> nat)
    returns (store: FlatStore, query: Message, response: Message)
    requires payload < SERVER_PAYLOAD
    requires GoodEncoder(enc, size) && PlainSizes(size) && WritesKeys(enc)
    ensures ValidQuestions(query) && query.edns.Some? && query.edns.value.maxPayload == payload
    ensures IsResponse(store, query, response)
    ensures |enc(response)| == SERVER_PAYLOAD > payload
    ensures forall sent :: IsChosen(response, sent, Limit(response), enc) ==> sent == response
  {
    var octets := KeyOfSize(enc, size);
    store, query, response := map[OWNER := KeyZone(octets)], KeyQuery(payload), KeyReply(octets);
    OwnerValid();
    KeyZoneReplies(payload, octets);
  }

  /** Such encoders exist: the one that compresses nothing. */
  function PlainSize(r: Record): nat {
    WireLength(r.owner) + 10 + if r.rdata.Key? then 4 + |r.rdata.publicKey| else 0
  }

  function PlainEncoder(): Encoder {
    m => Zeros(if SizeBound(m, PlainSize) <= MAX_BODY then SizeBound(m, PlainSize) else MAX_BODY)
  }

  lemma PlainEncoderExists()
    ensures GoodEncoder(PlainEncoder(), PlainSize) && PlainSizes(PlainSize) && WritesKeys(PlainEncoder())
  {
    forall m: Message, owner: Name, ttl: nat, octets: seq<Octet>
      | |m.questions| == 1 && ValidQuestions(m) && ValidName(owner) && |octets| <= SERVER_PAYLOAD
      ensures |PlainEncoder()(OneKey(m, owner, ttl, octets))|
              == |PlainEncoder()(OneKey(m, owner, ttl, []))| + |octets|
    {
      PlainSizeOf(m, owner, ttl, octets);
      PlainSizeOf(m, owner, ttl, []);
    }
  }

  lemma PlainSizeOf(m: Message, owner: Name, ttl: nat, octets: seq<Octet>)
    requires |m.questions| == 1 && ValidQuestions(m) && ValidName(owner) && |octets| <= SERVER_PAYLOAD
    ensures SizeBound(OneKey(m, owner, ttl, octets), PlainSize)
            == SizeBound(OneKey(m, owner, ttl, []), PlainSize) + |octets| <= MAX_BODY
  {
    var q := m.questions[0];
    assert q in m.questions && m.questions[1..] == [];
    assert QuestionsSize(m.questions) == WireLength(q.name) + 4;
    OneKeySize(m, owner, ttl, octets);
    OneKeySize(m, owner, ttl, []);
  }

  lemma OneKeySize(m: Message, owner: Name, ttl: nat, octets: seq<Octet>)
    ensures SizeBound(OneKey(m, owner, ttl, octets), PlainSize)
            == 12 + QuestionsSize(m.questions) + WireLength(owner) + 14 + |octets| + if m.edns.Some? then 11 else 0
  {
    var answers := OneKey(m, owner, ttl, octets).answers;
    assert answers[1..] == [];
  }

  /** The whole handler. The limiter's verdict and the decoded packet are given. */
  method HandleUdpQuery(
    data: seq<Octet>, admitted: bool, decoded: Option<Message>, processor: QueryProcessor,
    enc: Encoder, ghost size: Record -> nat)
    returns (datagram: seq<Octet>)
    requires processor.zones.Valid() && GoodEncoder(enc, size)
    requires decoded.Some? ==> ValidQuestions(decoded.value)
    ensures !admitted ==>
              datagram == enc(BLANK.(id := IdOf(data), isResponse := true, rcode := Refused))
    ensures admitted && decoded.None? ==>
              datagram == enc(BLANK.(id := IdOf(data), isResponse := true, rcode := FormErr))
    ensures admitted && decoded.Some? ==>
              exists response, sent ::
                && IsResponse(processor.zones.Flat(), decoded.value, response)
                && IsChosen(response, sent, Limit(response), enc)
                && datagram == enc(sent)
    ensures |datagram| <= if decoded.Some? && decoded.value.edns.Some? then SERVER_PAYLOAD else PLAIN_LIMIT
  {
    if !admitted {
      datagram := enc(ErrorReply(IdOf(data), Refused));
      assert |datagram| <= SizeBound(ErrorReply(IdOf(data), Refused), size);
      return;
    }
    if decoded.None? {
      datagram := enc(ErrorReply(IdOf(data), FormErr));
      assert |datagram| <= SizeBound(ErrorReply(IdOf(data), FormErr), size);
      return;
    }
    var response, choice := processor.ProcessQuery(decoded.value);
    var sent := ChooseMessage(response, enc);
    NeverTooLarge(processor.zones.Flat(), decoded.value, response, sent, enc, size);
    MinimalFits(processor.zones.Flat(), decoded.value, response, size);
    datagram := enc(sent);
  }
}
