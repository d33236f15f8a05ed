/** DNS messages, as far as the server looks at them. */
module Messages {
  import opened Wrappers
  import opened Names
  import opened Records

  datatype OpCode = StandardQuery | OtherOp(code: nat)

  datatype Rcode = NoError | FormErr | NXDomain | NotImp | Refused

  datatype Question = Question(name: Name, qtype: RecordType)

  datatype Edns = Edns(maxPayload: nat, version: nat, dnssecOk: bool)

  datatype Message = Message(
    id: nat,
    isResponse: bool,
    op: OpCode,
    authoritative: bool,
    truncated: bool,
    recursionDesired: bool,
    recursionAvailable: bool,
    rcode: Rcode,
    questions: seq<Question>,
    answers: seq<Record>,
    authority: seq<Record>,
    additionals: seq<Record>,
    edns: Option<Edns>)

  /** `Message::new()`: a query with everything unset. */
  const BLANK: Message :=
    Message(0, false, StandardQuery, false, false, false, false, NoError, [], [], [], [], None)

  /** What the wire format guarantees about the names of a received message. */
  predicate ValidQuestions(m: Message) {
    forall q :: q in m.questions ==> ValidName(q.name)
  }
}
