/** The response to a query, section by section, over the flat logs of the store. */
module Responses {
  import opened Wrappers
  import opened Names
  import opened Records
  import opened RecordLog
  import opened FlatZones
  import opened Messages

  const SERVER_PAYLOAD := 4096

  /** The query is answered from a zone: an ordinary question with a standard opcode. */
  predicate NeedsZone(query: Message) {
    query.op == StandardQuery && query.questions != [] && query.questions[0].qtype != AXFR
  }

  /** The records that answer for a name: its own if the name exists, else the wildcard's. */
  function Owned(log: seq<Record>, n: Name, t: RecordType): seq<Record> {
    if HasName(log, n) then RRset(log, n, t) else WildcardSet(log, n, t)
  }

  /** The signatures that cover a type, in log order. */
  function Covering(signatures: seq<Record>, t: RecordType): seq<Record> {
    if signatures == [] then []
    else
      var last := signatures[|signatures| - 1];
      Covering(signatures[..|signatures| - 1], t)
      + if last.rdata.Signature? && last.rdata.typeCovered == t then [last] else []
  }

  /** Each alias followed by the records its target owns: one hop, exact names only. */
  function Chase(aliases: seq<Record>, log: seq<Record>, t: RecordType): seq<Record> {
    if aliases == [] then []
    else
      var last := aliases[|aliases| - 1];
      Chase(aliases[..|aliases| - 1], log, t) + [last]
      + if last.rdata.Alias? then RRset(log, last.rdata.target, t) else []
  }

  predicate Positive(z: FlatZone, q: Question) {
    Owned(z.log, q.name, q.qtype) != [] || Owned(z.log, q.name, CNAME) != []
  }

  function Answers(z: FlatZone, q: Question, dnssecOk: bool): seq<Record> {
    var direct := Owned(z.log, q.name, q.qtype);
    if direct == [] then Chase(Owned(z.log, q.name, CNAME), z.log, q.qtype)
    else direct + if dnssecOk then Covering(RRset(z.log, q.name, SIG), q.qtype) else []
  }

  function AuthoritySection(z: FlatZone, q: Question): seq<Record> {
    if Positive(z, q) then RRset(z.log, z.origin, NS) else [z.SoaRecord()]
  }

  function ResponseCode(z: FlatZone, q: Question): Rcode {
    if Positive(z, q) || HasName(z.log, q.name) then NoError else NXDomain
  }

  function Header(query: Message): Message {
    BLANK.(id := query.id, isResponse := true, recursionDesired := query.recursionDesired)
  }

  predicate WantsDnssec(query: Message) {
    query.edns.Some? && query.edns.value.dnssecOk
  }

  function ReplyEdns(query: Message): Option<Edns> {
    if query.edns.None? then None
    else Some(Edns(SERVER_PAYLOAD, 0, query.edns.value.dnssecOk))
  }

  /** The response, given the zone that was selected for the question. */
  function Reply(store: FlatStore, choice: Option<Name>, query: Message): Message
    requires choice.Some? ==> choice.value in store
  {
    if query.op != StandardQuery then Header(query).(rcode := NotImp)
    else if query.questions == [] then Header(query).(rcode := FormErr)
    else
      var q := query.questions[0];
      var asked := Header(query).(questions := [q]);
      if q.qtype == AXFR then asked.(authoritative := true)
      else
        match choice
        case None => asked.(rcode := Refused)
        case Some(origin) =>
          var z := store[origin];
          asked.(
            authoritative := true,
            rcode := ResponseCode(z, q),
            answers := Answers(z, q, WantsDnssec(query)),
            authority := AuthoritySection(z, q),
            edns := ReplyEdns(query))
  }

  /** A choice of zone that the store allows for a query. */
  predicate Allows(store: FlatStore, query: Message, choice: Option<Name>) {
    if NeedsZone(query) then Selects(store.Keys, query.questions[0].name, choice) else choice == None
  }

  ghost predicate IsResponse(store: FlatStore, query: Message, response: Message) {
    exists choice :: Allows(store, query, choice) && response == Reply(store, choice, query)
  }

  function TheResponse(store: FlatStore, query: Message): Message {
    Reply(store, if NeedsZone(query) then TheZone(store.Keys, query.questions[0].name) else None, query)
  }

  /** Unless two origins are tied for the name, a query has one response, whatever order the maps
    * iterate in and whether or not there is a root zone. */
  lemma ResponseDetermined(store: FlatStore, query: Message)
    requires NeedsZone(query) ==> !Tied(store.Keys, query.questions[0].name)
    ensures forall response :: IsResponse(store, query, response) <==> response == TheResponse(store, query)
  {
    if NeedsZone(query) {
      SelectionExact(store.Keys, query.questions[0].name);
      TheZoneSelected(store.Keys, query.questions[0].name);
    }
    var choice := if NeedsZone(query) then TheZone(store.Keys, query.questions[0].name) else None;
    assert forall c :: Allows(store, query, c) <==> c == choice;
  }

  // ----- order independence -----

  /** Stores loaded from zone files that differ only in how RRsets are interleaved. */
  ghost predicate SameZones(a: FlatStore, b: FlatStore) {
    && a.Keys == b.Keys
    && forall o :: o in a ==>
         a[o].origin == b[o].origin && a[o].soa == b[o].soa && SameRRsets(a[o].log, b[o].log)
  }

  lemma ResponseIgnoresInterleaving(a: FlatStore, b: FlatStore, query: Message, response: Message)
    requires SameZones(a, b) && IsResponse(a, query, response)
    ensures IsResponse(b, query, response)
  {
    var choice :| Allows(a, query, choice) && response == Reply(a, choice, query);
    assert Allows(b, query, choice);
    if NeedsZone(query) && choice.Some? {
      var q := query.questions[0];
      SameRRsetsSameNames(a[choice.value].log, b[choice.value].log, q.name);
      SameAnswersFor(a[choice.value], b[choice.value], q, WantsDnssec(query));
    }
  }

  /** Two logs agree on the RRsets of one type. */
  ghost predicate SameForType(a: seq<Record>, b: seq<Record>, t: RecordType) {
    forall n: Name :: RRset(a, n, t) == RRset(b, n, t)
  }

  predicate SameAnswers(x: FlatZone, y: FlatZone, q: Question, dnssecOk: bool) {
    && Answers(x, q, dnssecOk) == Answers(y, q, dnssecOk)
    && AuthoritySection(x, q) == AuthoritySection(y, q)
    && ResponseCode(x, q) == ResponseCode(y, q)
  }

  /** All that a response reads of a zone: the RRsets of the asked type, CNAME, SIG and NS, the
    * origin and its SOA data, and whether the name exists. */
  lemma SameAnswersFor(x: FlatZone, y: FlatZone, q: Question, dnssecOk: bool)
    requires x.origin == y.origin && x.soa == y.soa && HasName(x.log, q.name) == HasName(y.log, q.name)
    requires forall t: RecordType :: t in {q.qtype, CNAME, SIG, NS} ==> SameForType(x.log, y.log, t)
    ensures SameAnswers(x, y, q, dnssecOk)
  {
    OwnedAgrees(x.log, y.log, q.name, q.qtype);
    OwnedAgrees(x.log, y.log, q.name, CNAME);
    ChaseAgrees(Owned(x.log, q.name, CNAME), x.log, y.log, q.qtype);
    assert SameForType(x.log, y.log, SIG) && SameForType(x.log, y.log, NS);
    assert RRset(x.log, q.name, SIG) == RRset(y.log, q.name, SIG);
    assert RRset(x.log, x.origin, NS) == RRset(y.log, y.origin, NS);
  }

  lemma OwnedAgrees(a: seq<Record>, b: seq<Record>, n: Name, t: RecordType)
    requires SameForType(a, b, t) && HasName(a, n) == HasName(b, n)
    ensures Owned(a, n, t) == Owned(b, n, t)
  {
    WildcardAgrees(a, b, n, t);
  }

  lemma {:induction false} WildcardAgrees(a: seq<Record>, b: seq<Record>, n: Name, t: RecordType)
    requires SameForType(a, b, t)
    ensures WildcardSet(a, n, t) == WildcardSet(b, n, t)
  {
    if |n| > 1 {
      assert RRset(a, WildcardAt(n, 1), t) == RRset(b, WildcardAt(n, 1), t);
      WildcardAgrees(a, b, n[1..], t);
    }
  }

  lemma {:induction false} ChaseAgrees(aliases: seq<Record>, a: seq<Record>, b: seq<Record>, t: RecordType)
    requires SameForType(a, b, t)
    ensures Chase(aliases, a, t) == Chase(aliases, b, t)
  {
    if aliases != [] {
      ChaseAgrees(aliases[..|aliases| - 1], a, b, t);
      var last := aliases[|aliases| - 1];
      if last.rdata.Alias? {
        assert RRset(a, last.rdata.target, t) == RRset(b, last.rdata.target, t);
      }
    }
  }

  // ----- what responses say -----

  /** Responses invent nothing: all but the negative SOA comes from the zone's log. */
  lemma NothingInvented(z: FlatZone, q: Question, dnssecOk: bool)
    ensures forall r :: r in Answers(z, q, dnssecOk) ==> r in z.log
    ensures forall r :: r in AuthoritySection(z, q) ==> r in z.log || r == z.SoaRecord()
  {
    OwnedFromLog(z.log, q.name, q.qtype);
    OwnedFromLog(z.log, q.name, CNAME);
    ChaseFromLog(Owned(z.log, q.name, CNAME), z.log, q.qtype);
    RRsetMembers(z.log, q.name, SIG);
    CoveringMembers(RRset(z.log, q.name, SIG), q.qtype);
    RRsetMembers(z.log, z.origin, NS);
  }

  lemma {:induction false} OwnedFromLog(log: seq<Record>, n: Name, t: RecordType)
    ensures forall r :: r in Owned(log, n, t) ==> r in log && r.Type() == t
    ensures forall r :: r in WildcardSet(log, n, t) ==> r in log && r.Type() == t
    decreases |n|
  {
    RRsetMembers(log, n, t);
    if |n| > 1 {
      RRsetMembers(log, WildcardAt(n, 1), t);
      OwnedFromLog(log, n[1..], t);
    }
  }

  lemma {:induction false} CoveringMembers(s: seq<Record>, t: RecordType)
    ensures forall r :: r in Covering(s, t) <==>
              r in s && r.rdata.Signature? && r.rdata.typeCovered == t
  {
    if s != [] {
      CoveringMembers(s[..|s| - 1], t);
      assert s == s[..|s| - 1] + [s[|s| - 1]];
    }
  }

  lemma {:induction false} ChaseFromLog(aliases: seq<Record>, log: seq<Record>, t: RecordType)
    requires forall r :: r in aliases ==> r in log
    ensures forall r :: r in Chase(aliases, log, t) ==> r in log
  {
    if aliases != [] {
      var init, last := aliases[..|aliases| - 1], aliases[|aliases| - 1];
      ChaseFromLog(init, log, t);
      if last.rdata.Alias? {
        RRsetMembers(log, last.rdata.target, t);
      }
    }
  }

  /** NXDOMAIN is exact: no record of any type owns the name and, for each proper non-empty
    * suffix, its `*` child owns neither the type nor a CNAME. */
  lemma NameErrorExact(z: FlatZone, q: Question)
    ensures ResponseCode(z, q) == NXDomain <==>
            && (forall r :: r in z.log ==> r.owner != q.name)
            && (forall r, skip :: r in z.log && 1 <= skip < |q.name| ==>
                  !r.Has(WildcardAt(q.name, skip), q.qtype) && !r.Has(WildcardAt(q.name, skip), CNAME))
  {
    WildcardIsNearest(z.log, q.name, q.qtype);
    WildcardIsNearest(z.log, q.name, CNAME);
    forall t: RecordType, skip | 1 <= skip < |q.name|
      ensures WildcardFoundAt(z.log, q.name, t, skip) <==>
              exists r :: r in z.log && r.Has(WildcardAt(q.name, skip), t)
    {
      FoundByRecord(z.log, q.name, t, skip);
    }
    assert HasName(z.log, q.name) <==> exists r :: r in z.log && r.owner == q.name;
  }

  lemma FoundByRecord(log: seq<Record>, n: Name, t: RecordType, skip: nat)
    requires 1 <= skip < |n|
    ensures WildcardFoundAt(log, n, t, skip) <==> exists r :: r in log && r.Has(WildcardAt(n, skip), t)
  {
    RRsetMembers(log, WildcardAt(n, skip), t);
    if WildcardFoundAt(log, n, t, skip) {
      assert RRset(log, WildcardAt(n, skip), t)[0] in log;
    }
    if r :| r in log && r.Has(WildcardAt(n, skip), t) {
      assert r in RRset(log, WildcardAt(n, skip), t);
    }
  }

  /** No data: the name exists, and neither the type nor a CNAME does. The answer is empty and
    * the SOA is the whole authority section, exactly as for NXDOMAIN. */
  lemma NegativeExact(z: FlatZone, q: Question, dnssecOk: bool)
    ensures Answers(z, q, dnssecOk) == [] <==> !Positive(z, q)
    ensures Answers(z, q, dnssecOk) == [] <==> AuthoritySection(z, q) == [z.SoaRecord()]
  {
    var aliases := Owned(z.log, q.name, CNAME);
    if aliases != [] {
      assert Chase(aliases, z.log, q.qtype) != [];
    }
    RRsetMembers(z.log, z.origin, NS);
    assert z.SoaRecord() !in RRset(z.log, z.origin, NS) && z.SoaRecord() in [z.SoaRecord()];
  }

  /** What every response has in common, whatever its records. */
  lemma ResponseShape(store: FlatStore, query: Message, response: Message)
    requires IsResponse(store, query, response)
    ensures !response.truncated && response.additionals == []
    ensures response.questions == [] || (query.questions != [] && response.questions == [query.questions[0]])
    ensures response.edns.Some? ==> query.edns.Some?
  {
  }

  // ----- single questions -----

  /** A plain query for one question. */
  function Ask(q: Question): Message {
    BLANK.(questions := [q])
  }

  /** Whatever the iteration order, the server gives this code and these answers. */
  ghost predicate Gives(store: FlatStore, q: Question, rcode: Rcode, answers: seq<Record>) {
    && (exists response :: IsResponse(store, Ask(q), response))
    && forall response :: IsResponse(store, Ask(q), response) ==> response.rcode == rcode && response.answers == answers
  }

  lemma SelectedGives(store: FlatStore, o: Name, q: Question)
    requires o in store && q.qtype != AXFR
    requires forall c :: Selects(store.Keys, q.name, c) <==> c == Some(o)
    ensures Gives(store, q, ResponseCode(store[o], q), Answers(store[o], q, false))
  {
    assert forall c :: Allows(store, Ask(q), c) <==> c == Some(o);
    assert IsResponse(store, Ask(q), Reply(store, Some(o), Ask(q)));
  }

  /** A store's only zone answers for all names it encloses, unless it is the root or `*`. */
  lemma OnlyZoneGives(z: FlatZone, q: Question)
    requires IsSuffix(z.origin, q.name) && NumLabels(z.origin) > 0 && q.qtype != AXFR
    ensures Gives(map[z.origin := z], q, ResponseCode(z, q), Answers(z, q, false))
  {
    var store := map[z.origin := z];
    assert store.Keys == {z.origin};
    forall c ensures Selects(store.Keys, q.name, c) <==> c == Some(z.origin) {
      assert z.origin in store.Keys;
    }
    SelectedGives(store, z.origin, q);
  }

  // ----- responses over the records -----

  ghost predicate Owns(log: seq<Record>, n: Name) {
    exists r :: r in log && r.owner == n
  }

  lemma OwnsHasName(log: seq<Record>, n: Name)
    ensures Owns(log, n) <==> HasName(log, n)
  {
    if r :| r in log && r.owner == n {
      var i :| 0 <= i < |log| && log[i] == r;
    }
    if i :| 0 <= i < |log| && log[i].owner == n {
      assert log[i] in log;
    }
  }

  lemma {:induction false} CoveringWhere(log: seq<Record>, n: Name, t: RecordType, p: Record -> bool)
    requires forall r :: p(r) <==> r.owner == n && r.rdata.Signature? && r.rdata.typeCovered == t
    ensures Covering(RRset(log, n, SIG), t) == Where(log, p)
  {
    if log != [] {
      var init, last := log[..|log| - 1], log[|log| - 1];
      CoveringWhere(init, n, t, p);
      if last.Has(n, SIG) {
        CoveringSnoc(RRset(init, n, SIG), last, t);
      } else {
        assert RRset(log, n, SIG) == RRset(init, n, SIG);
      }
    }
  }

  lemma CoveringSnoc(s: seq<Record>, r: Record, t: RecordType)
    ensures Covering(s + [r], t) == Covering(s, t) + if r.rdata.Signature? && r.rdata.typeCovered == t then [r] else []
  {
    assert (s + [r])[..|s|] == s;
  }

  /** Positive answers. A name that owns the type is answered with exactly these records in log
    * order; with the DO bit, and only with it, they are followed by exactly those signatures that
    * the name owns and that cover the type. A name that does not exist gets its wildcard's. */
  lemma AnswersExact(z: FlatZone, q: Question, dnssecOk: bool)
    ensures var own := Where(z.log, (r: Record) => r.owner == q.name && r.rdata.Type() == q.qtype);
            var signatures := Where(z.log, (r: Record) =>
              r.owner == q.name && r.rdata.Signature? && r.rdata.typeCovered == q.qtype);
            && (own != [] ==> Answers(z, q, dnssecOk) == own + if dnssecOk then signatures else [])
            && (forall r :: r in signatures <==>
                  r in z.log && r.owner == q.name && r.rdata.Signature? && r.rdata.typeCovered == q.qtype)
    ensures !Owns(z.log, q.name) && WildcardSet(z.log, q.name, q.qtype) != [] ==>
              Answers(z, q, dnssecOk) == WildcardSet(z.log, q.name, q.qtype)
  {
    var own := (r: Record) => r.owner == q.name && r.rdata.Type() == q.qtype;
    var covering := (r: Record) => r.owner == q.name && r.rdata.Signature? && r.rdata.typeCovered == q.qtype;
    RRsetWhere(z.log, q.name, q.qtype, own);
    CoveringWhere(z.log, q.name, q.qtype, covering);
    WhereMembers(z.log, covering);
    OwnsHasName(z.log, q.name);
    if Where(z.log, own) != [] {
      OwnerExists(z.log, q.name, q.qtype);
    } else if !Owns(z.log, q.name) {
      RRsetMembers(z.log, q.name, SIG);
      assert forall r :: r !in Covering(RRset(z.log, q.name, SIG), q.qtype);
      NoMembers(Covering(RRset(z.log, q.name, SIG), q.qtype));
    }
  }

  lemma NoMembers<T>(s: seq<T>)
    requires forall x :: x !in s
    ensures s == []
  {
    if s != [] {
      FirstMember(s);
    }
  }

  lemma FirstMember<T>(s: seq<T>)
    requires s != []
    ensures exists x :: x in s
  {
    assert s[0] in s;
  }

  /** One piece after the other. */
  function Each(s: seq<Record>, f: Record -> seq<Record>): seq<Record> {
    if s == [] then [] else Each(s[..|s| - 1], f) + f(s[|s| - 1])
  }

  /** A name without the type but with aliases, its own or its wildcard's, is answered with each
    * alias followed by what the alias's target owns of the type; the DO bit adds nothing. */
  lemma AliasAnswersExact(z: FlatZone, q: Question, dnssecOk: bool)
    requires Owned(z.log, q.name, q.qtype) == []
    ensures Answers(z, q, dnssecOk) == Each(Owned(z.log, q.name, CNAME), (alias: Record) =>
              [alias] + if alias.rdata.Alias?
                        then Where(z.log, (r: Record) => r.owner == alias.rdata.target && r.rdata.Type() == q.qtype)
                        else [])
  {
    ChaseEach(Owned(z.log, q.name, CNAME), z.log, q.qtype);
  }

  lemma {:induction false} ChaseEach(aliases: seq<Record>, log: seq<Record>, t: RecordType)
    ensures Chase(aliases, log, t) == Each(aliases, (alias: Record) =>
              [alias] + if alias.rdata.Alias?
                        then Where(log, (r: Record) => r.owner == alias.rdata.target && r.rdata.Type() == t)
                        else [])
  {
    if aliases != [] {
      var last := aliases[|aliases| - 1];
      ChaseEach(aliases[..|aliases| - 1], log, t);
      if last.rdata.Alias? {
        RRsetWhere(log, last.rdata.target, t, (r: Record) => r.owner == last.rdata.target && r.rdata.Type() == t);
      }
    }
  }

  /** Positive responses carry exactly the origin's NS records, in log order; negative ones exactly
    * the zone's SOA, which lives for the zone's minimum. */
  lemma AuthorityExact(z: FlatZone, q: Question, dnssecOk: bool)
    ensures Answers(z, q, dnssecOk) != [] ==>
              AuthoritySection(z, q) == Where(z.log, (r: Record) => r.owner == z.origin && r.rdata.Type() == 2)
    ensures Answers(z, q, dnssecOk) == [] ==>
              && |AuthoritySection(z, q)| == 1
              && AuthoritySection(z, q)[0].owner == z.origin
              && AuthoritySection(z, q)[0].ttl == z.soa.minimum
              && AuthoritySection(z, q)[0].rdata == Authority(z.soa)
    ensures ResponseCode(z, q) == NoError <==> Answers(z, q, dnssecOk) != [] || Owns(z.log, q.name)
    ensures ResponseCode(z, q) != NoError ==> ResponseCode(z, q) == NXDomain
  {
    NegativeExact(z, q, dnssecOk);
    OwnsHasName(z.log, q.name);
    RRsetWhere(z.log, z.origin, NS, (r: Record) => r.owner == z.origin && r.rdata.Type() == 2);
  }

  /** The fields that do not come from a zone's records, case by case. */
  lemma ReplyExact(store: FlatStore, query: Message, response: Message)
    requires IsResponse(store, query, response)
    ensures response.id == query.id && response.isResponse && response.op == StandardQuery
    ensures response.recursionDesired == query.recursionDesired && !response.recursionAvailable
    ensures query.op != StandardQuery ==>
              response.rcode == NotImp && !response.authoritative && response.questions == []
    ensures query.op == StandardQuery && query.questions == [] ==>
              response.rcode == FormErr && !response.authoritative && response.questions == []
    ensures query.op == StandardQuery && query.questions != [] ==> response.questions == [query.questions[0]]
    ensures query.op == StandardQuery && query.questions != [] && query.questions[0].qtype == 252 ==>
              response.rcode == NoError && response.authoritative
    ensures NeedsZone(query) ==> (response.rcode == Refused <==> !response.authoritative)
    ensures !NeedsZone(query) || response.rcode == Refused ==>
              response.answers == [] && response.authority == [] && response.edns == None
    ensures NeedsZone(query) && response.rcode != Refused ==>
              response.edns == if query.edns == None then None else Some(Edns(4096, 0, query.edns.value.dnssecOk))
  {
  }

  /** A query is refused exactly when no zone is selected; otherwise the sections and the code are
    * those of the selected zone, with the signatures if and only if the DO bit asks for them. */
  lemma SectionsExact(store: FlatStore, query: Message, choice: Option<Name>)
    requires NeedsZone(query) && Allows(store, query, choice)
    ensures var response := Reply(store, choice, query);
            match choice
            case None => response.rcode == Refused
            case Some(o) =>
              var z, q := store[o], query.questions[0];
              var dnssecOk := query.edns.Some? && query.edns.value.dnssecOk;
              && response.authoritative && response.rcode == ResponseCode(z, q)
              && response.answers == Answers(z, q, dnssecOk) && response.authority == AuthoritySection(z, q)
  {
  }
}
