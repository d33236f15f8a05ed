/** One TCP connection (`handle_tcp_connection` in `src/server.rs`): framing, the query limit,
  * error replies and zone transfers. */
module TcpServer {
  import opened Wrappers
  import opened Names
  import opened Records
  import opened FlatZones
  import opened Messages
  import opened Responses
  import opened UdpServer

  // ----- framing (section 4.2.2 of RFC 1035) -----

  /** A body with its length as two octets; `as u16` cuts longer lengths. */
  function Frame(body: seq<Octet>): seq<Octet> {
    [(|body| / 256) % 256, |body| % 256] + body
  }

  /** The length stands in network order, as sections 2.3.2 and 4.2.2 of RFC 1035 ask. */
  lemma FrameLength(body: seq<Octet>)
    requires |body| <= 65535
    ensures var f := Frame(body);
            |f| == 2 + |body| && f[0] as int * 256 + f[1] as int == |body| && f[2..] == body
  {
  }

  function FrameAll(bodies: seq<seq<Octet>>): seq<Octet> {
    if bodies == [] then [] else Frame(bodies[0]) + FrameAll(bodies[1..])
  }

  lemma {:induction false} FrameAllSnoc(bodies: seq<seq<Octet>>, body: seq<Octet>)
    ensures FrameAll(bodies + [body]) == FrameAll(bodies) + Frame(body)
  {
    if bodies == [] {
      assert bodies + [body] == [body] && [body][1..] == [];
    } else {
      assert (bodies + [body])[1..] == bodies[1..] + [body];
      FrameAllSnoc(bodies[1..], body);
    }
  }

  /** The complete frames of a stream; a partial one at the end is not a frame. */
  function Frames(input: seq<Octet>): seq<seq<Octet>>
    decreases |input|
  {
    if |input| < 2 then []
    else
      var n := IdOf(input);
      if |input| - 2 < n then [] else [input[2..2 + n]] + Frames(input[2 + n..])
  }

  lemma FramesFront(body: seq<Octet>, rest: seq<Octet>)
    requires |body| <= MAX_BODY
    ensures Frames(Frame(body) + rest) == [body] + Frames(rest)
  {
    var s := Frame(body) + rest;
    assert s[0] == |body| / 256 && s[1] == |body| % 256;
    assert IdOf(s) == |body|;
    assert s[2..2 + |body|] == body && s[2 + |body|..] == rest;
  }

  /** Whatever bodies of legal size are written, the peer reads back exactly those. */
  lemma {:induction false} FramesRoundTrip(bodies: seq<seq<Octet>>)
    requires forall b :: b in bodies ==> |b| <= MAX_BODY
    ensures Frames(FrameAll(bodies)) == bodies
  {
    if bodies != [] {
      assert bodies[0] in bodies;
      FramesRoundTrip(bodies[1..]);
      FramesFront(bodies[0], FrameAll(bodies[1..]));
    }
  }

  // ----- the connection -----

  /** What the handler consults, by request number where the answer may change over time. */
  datatype Env = Env(
    decode: seq<Octet> -> Option<Message>,
    limited: nat -> bool,
    stores: nat -> FlatStore,
    process: (nat, Message) -> Message,
    selected: (nat, Message) -> Option<Name>,
    encode: Encoder)

  predicate IsTransferRequest(query: Message) {
    query.questions != [] && query.questions[0].qtype == AXFR
  }

  /** Decoded ids are the packet's; responses and zone choices are those of some store. */
  ghost predicate Faithful(env: Env) {
    && (forall data :: env.decode(data).Some? ==>
          |data| >= 2 && env.decode(data).value.id == IdOf(data))
    && (forall k, q :: IsResponse(env.stores(k), q, env.process(k, q)))
    && (forall k, q :: IsTransferRequest(q) ==>
          && Selects(env.stores(k).Keys, q.questions[0].name, env.selected(k, q))
          && (env.selected(k, q).Some? ==> env.selected(k, q).value in env.stores(k)))
    && (forall m :: 1 <= |env.encode(m)| <= MAX_BODY)
  }

  function TransferMessage(query: Message, r: Record): Message
    requires query.questions != []
  {
    BLANK.(id := query.id, isResponse := true, authoritative := true,
           questions := [query.questions[0]], answers := [r])
  }

  function TransferMessages(query: Message, records: seq<Record>): seq<Message>
    requires query.questions != []
  {
    if records == [] then []
    else TransferMessages(query, records[..|records| - 1]) + [TransferMessage(query, records[|records| - 1])]
  }

  function TransferReplies(env: Env, k: nat, query: Message): seq<Message>
    requires query.questions != []
  {
    match env.selected(k, query)
    case None => [BLANK.(id := query.id, isResponse := true, rcode := Refused, questions := [query.questions[0]])]
    case Some(origin) =>
      if origin in env.stores(k)
      then TransferMessages(query, env.stores(k)[origin].TransferStream())
      else []
  }

  /** What one request leads to: nothing and the end, last replies, or a reply and more. */
  datatype Turn = Silent | Last(replies: seq<Message>) | Next(reply: Message)

  function TurnFor(env: Env, k: nat, frame: seq<Octet>): Turn {
    if frame == [] then Silent
    else
      match env.decode(frame)
      case None => Last([ErrorReply(IdOf(frame), FormErr)])
      case Some(query) =>
        if env.limited(k) then Last([ErrorReply(query.id, Refused)])
        else if IsTransferRequest(query) then Last(TransferReplies(env, k, query))
        else Next(env.process(k, query))
  }

  /** The replies of a whole connection, request by request; `budget` requests may still come. */
  function Turns(env: Env, k: nat, frames: seq<seq<Octet>>, budget: nat): seq<seq<Message>>
    decreases budget
  {
    if budget == 0 || frames == [] then []
    else
      match TurnFor(env, k, frames[0])
      case Silent => []
      case Last(replies) => [replies]
      case Next(reply) => [[reply]] + Turns(env, k + 1, frames[1..], budget - 1)
  }

  function Flatten(turns: seq<seq<Message>>): seq<Message> {
    if turns == [] then [] else turns[0] + Flatten(turns[1..])
  }

  function EncodeAll(env: Env, messages: seq<Message>): seq<seq<Octet>> {
    if messages == [] then []
    else EncodeAll(env, messages[..|messages| - 1]) + [env.encode(messages[|messages| - 1])]
  }

  /** The requests that get an ordinary reply. */
  function Handled(env: Env, k: nat, frames: seq<seq<Octet>>, budget: nat): nat
    decreases budget
  {
    if budget == 0 || frames == [] || !TurnFor(env, k, frames[0]).Next? then 0
    else 1 + Handled(env, k + 1, frames[1..], budget - 1)
  }

  /** They are all the turns, or all but the last. */
  lemma {:induction false} HandledTurns(env: Env, k: nat, frames: seq<seq<Octet>>, budget: nat)
    ensures Handled(env, k, frames, budget) <= |Turns(env, k, frames, budget)| <= Handled(env, k, frames, budget) + 1
    ensures Handled(env, k, frames, budget) <= budget
    decreases budget
  {
    if budget > 0 && frames != [] && TurnFor(env, k, frames[0]).Next? {
      HandledTurns(env, k + 1, frames[1..], budget - 1);
    }
  }

  /** The replies still to come when `rest` of the stream is unread. */
  function Remaining(env: Env, k: nat, rest: seq<Octet>, budget: nat): seq<Message> {
    Flatten(Turns(env, k, Frames(rest), budget))
  }

  method HandleTcpConnection(input: seq<Octet>, maxQueries: nat, env: Env)
    returns (output: seq<Octet>, queriesHandled: nat)
    ensures output == FrameAll(EncodeAll(env, Flatten(Turns(env, 0, Frames(input), maxQueries))))
    ensures queriesHandled == Handled(env, 0, Frames(input), maxQueries) <= maxQueries
  {
    output := [];
    queriesHandled := 0;
    var rest := input;
    ghost var done: seq<Message> := [];
    Start(env, input, maxQueries);
    while queriesHandled < maxQueries
      invariant queriesHandled <= maxQueries
      invariant output == FrameAll(EncodeAll(env, done))
      invariant Progress(env, input, maxQueries, queriesHandled, rest, done)
      decreases maxQueries - queriesHandled
    {
      var turn, unread := NextTurn(queriesHandled, rest, maxQueries - queriesHandled, env);
      match turn {
        case Silent =>
          Ended(env, input, maxQueries, queriesHandled, rest, done, []);
          assert done + [] == done;
          return;
        case Last(replies) =>
          Ended(env, input, maxQueries, queriesHandled, rest, done, replies);
          output := WriteReplies(output, done, replies, env);
          return;
        case Next(reply) =>
          Advance(env, input, maxQueries, queriesHandled, rest, done, unread, reply);
          output := WriteReplies(output, done, [reply], env);
          done := done + [reply];
      }
      rest := unread;
      queriesHandled := queriesHandled + 1;
    }
    Ended(env, input, maxQueries, queriesHandled, rest, done, []);
    assert done + [] == done;
  }

  /** What is done and what is still to come make up the whole connection. */
  ghost predicate Progress(
    env: Env, input: seq<Octet>, max: nat, handled: nat, rest: seq<Octet>, done: seq<Message>)
  {
    && handled <= max
    && handled + Handled(env, handled, Frames(rest), max - handled) == Handled(env, 0, Frames(input), max)
    && Remaining(env, 0, input, max) == done + Remaining(env, handled, rest, max - handled)
  }

  lemma Start(env: Env, input: seq<Octet>, max: nat)
    ensures Progress(env, input, max, 0, input, [])
  {
    Nothing(Remaining(env, 0, input, max));
  }

  lemma Nothing<T>(s: seq<T>)
    ensures [] + s == s
  {
  }

  lemma Advance(
    env: Env, input: seq<Octet>, max: nat, handled: nat, rest: seq<Octet>, done: seq<Message>,
    unread: seq<Octet>, reply: Message)
    requires handled < max && Progress(env, input, max, handled, rest, done)
    requires Remaining(env, handled, rest, max - handled)
             == [reply] + Remaining(env, handled + 1, unread, max - handled - 1)
    requires Handled(env, handled, Frames(rest), max - handled)
             == 1 + Handled(env, handled + 1, Frames(unread), max - handled - 1)
    ensures Progress(env, input, max, handled + 1, unread, done + [reply])
  {
    RegroupReply(done, reply, Remaining(env, handled, rest, max - handled),
                 Remaining(env, handled + 1, unread, max - handled - 1));
  }

  lemma Ended(
    env: Env, input: seq<Octet>, max: nat, handled: nat, rest: seq<Octet>, done: seq<Message>, last: seq<Message>)
    requires Progress(env, input, max, handled, rest, done)
    requires handled == max ==> last == []
    requires handled < max ==>
               && Remaining(env, handled, rest, max - handled) == last
               && Handled(env, handled, Frames(rest), max - handled) == 0
    ensures Remaining(env, 0, input, max) == done + last && Handled(env, 0, Frames(input), max) == handled
  {
  }

  lemma RegroupReply<T>(done: seq<T>, reply: T, all: seq<T>, later: seq<T>)
    requires all == [reply] + later
    ensures done + all == (done + [reply]) + later
  {
  }

  /** Read a frame and decide what it leads to; a frame that is cut off or empty ends it all. */
  method NextTurn(k: nat, rest: seq<Octet>, ghost budget: nat, env: Env)
    returns (turn: Turn, unread: seq<Octet>)
    requires budget > 0
    ensures match turn
            case Silent => Remaining(env, k, rest, budget) == []
            case Last(replies) => Remaining(env, k, rest, budget) == replies
            case Next(reply) =>
              Remaining(env, k, rest, budget) == [reply] + Remaining(env, k + 1, unread, budget - 1)
    ensures Handled(env, k, Frames(rest), budget)
            == if turn.Next? then 1 + Handled(env, k + 1, Frames(unread), budget - 1) else 0
  {
    NextHandled(env, k, rest, budget);
    if |rest| < 2 || |rest| - 2 < IdOf(rest) || IdOf(rest) == 0 {
      RemainingEnds(env, k, rest, budget);
      return Silent, rest;
    }
    RemainingTurn(env, k, rest, budget);
    return TurnFor(env, k, rest[2..2 + IdOf(rest)]), rest[2 + IdOf(rest)..];
  }

  lemma NextHandled(env: Env, k: nat, rest: seq<Octet>, budget: nat)
    requires budget > 0
    ensures |rest| < 2 || |rest| - 2 < IdOf(rest) || IdOf(rest) == 0 ==> Handled(env, k, Frames(rest), budget) == 0
    ensures |rest| >= 2 && |rest| - 2 >= IdOf(rest) > 0 ==>
              var unread := rest[2 + IdOf(rest)..];
              Handled(env, k, Frames(rest), budget)
              == if TurnFor(env, k, rest[2..2 + IdOf(rest)]).Next?
                 then 1 + Handled(env, k + 1, Frames(unread), budget - 1) else 0
  {
    if |rest| >= 2 && |rest| - 2 >= IdOf(rest) {
      var n := IdOf(rest);
      assert n == 0 ==> rest[2..2 + n] == [];
      assert Frames(rest) == [rest[2..2 + n]] + Frames(rest[2 + n..]);
      assert Frames(rest)[1..] == Frames(rest[2 + n..]);
    }
  }

  /** The connection ends at a frame that is cut off or empty. */
  lemma RemainingEnds(env: Env, k: nat, rest: seq<Octet>, budget: nat)
    requires |rest| < 2 || |rest| - 2 < IdOf(rest) || IdOf(rest) == 0
    ensures Remaining(env, k, rest, budget) == []
  {
    if |rest| >= 2 && |rest| - 2 >= IdOf(rest) {
      assert rest[2..2 + IdOf(rest)] == [];
      assert Frames(rest) == [[]] + Frames(rest[2..]);
    }
  }

  /** Otherwise the frame's turn comes first. */
  lemma RemainingTurn(env: Env, k: nat, rest: seq<Octet>, budget: nat)
    requires budget > 0 && |rest| >= 2 && |rest| - 2 >= IdOf(rest) > 0
    ensures match TurnFor(env, k, rest[2..2 + IdOf(rest)])
            case Silent => false
            case Last(replies) => Remaining(env, k, rest, budget) == replies
            case Next(reply) =>
              Remaining(env, k, rest, budget)
              == [reply] + Remaining(env, k + 1, rest[2 + IdOf(rest)..], budget - 1)
  {
    var frame, unread := rest[2..2 + IdOf(rest)], rest[2 + IdOf(rest)..];
    var turn := TurnFor(env, k, frame);
    assert Frames(rest) == [frame] + Frames(unread);
    assert Frames(rest)[1..] == Frames(unread);
    var turns := Turns(env, k, Frames(rest), budget);
    if turn.Last? {
      assert turns == [turn.replies] && turns[1..] == [];
      assert Flatten(turns) == turn.replies + Flatten(turns[1..]);
      assert turn.replies + [] == turn.replies;
    } else if turn.Next? {
      var more := Turns(env, k + 1, Frames(unread), budget - 1);
      assert turns[1..] == more;
    }
  }

  /** Each reply is written as its length and then its body. */
  method WriteReplies(output: seq<Octet>, ghost done: seq<Message>, replies: seq<Message>, env: Env)
    returns (result: seq<Octet>)
    requires output == FrameAll(EncodeAll(env, done))
    ensures result == FrameAll(EncodeAll(env, done + replies))
  {
    result := output;
    assert done + replies[..0] == done;
    for i := 0 to |replies|
      invariant result == FrameAll(EncodeAll(env, done + replies[..i]))
    {
      var body := env.encode(replies[i]);
      WriteOne(env, done + replies[..i], replies[i]);
      assert done + replies[..i + 1] == (done + replies[..i]) + [replies[i]];
      result := result + ([(|body| / 256) % 256, |body| % 256] + body);
    }
    assert done + replies[..|replies|] == done + replies;
  }

  lemma WriteOne(env: Env, done: seq<Message>, m: Message)
    ensures FrameAll(EncodeAll(env, done + [m])) == FrameAll(EncodeAll(env, done)) + Frame(env.encode(m))
  {
    assert (done + [m])[..|done|] == done;
    FrameAllSnoc(EncodeAll(env, done), env.encode(m));
  }

  // ----- what a connection promises -----

  /** The bytes written decode to exactly the encoded replies. */
  lemma RepliesReadBack(env: Env, messages: seq<Message>)
    requires Faithful(env)
    ensures Frames(FrameAll(EncodeAll(env, messages))) == EncodeAll(env, messages)
  {
    EncodedSizes(env, messages);
    FramesRoundTrip(EncodeAll(env, messages));
  }

  lemma {:induction false} EncodedSizes(env: Env, messages: seq<Message>)
    requires Faithful(env)
    ensures forall b :: b in EncodeAll(env, messages) ==> |b| <= MAX_BODY
    ensures |EncodeAll(env, messages)| == |messages|
  {
    if messages != [] {
      EncodedSizes(env, messages[..|messages| - 1]);
    }
  }

  /** Every reply carries its request's id. */
  ghost predicate AnswersRequest(replies: seq<Message>, frame: seq<Octet>) {
    && replies != []
    && forall m :: m in replies ==> m.id == IdOf(frame) && m.isResponse
  }

  /** A turn that does not end the connection: one ordinary response from one store. */
  ghost predicate IsOrdinary(env: Env, k: nat, replies: seq<Message>, frame: seq<Octet>) {
    && frame != [] && env.decode(frame).Some? && !env.limited(k)
    && !IsTransferRequest(env.decode(frame).value)
    && |replies| == 1 && IsResponse(env.stores(k), env.decode(frame).value, replies[0])
  }

  lemma {:induction false} TransferMessagesIds(query: Message, records: seq<Record>)
    requires query.questions != []
    ensures |TransferMessages(query, records)| == |records|
    ensures forall i :: 0 <= i < |records| ==> TransferMessages(query, records)[i] == TransferMessage(query, records[i])
  {
    if records != [] {
      TransferMessagesIds(query, records[..|records| - 1]);
    }
  }

  lemma ResponseHeader(store: FlatStore, query: Message, response: Message)
    requires IsResponse(store, query, response)
    ensures response.id == query.id && response.isResponse
    ensures response.recursionDesired == query.recursionDesired && !response.recursionAvailable
  {
  }

  lemma OrdinaryAnswers(env: Env, k: nat, frame: seq<Octet>, query: Message)
    requires Faithful(env) && frame != [] && env.decode(frame) == Some(query)
    ensures var reply := env.process(k, query);
            AnswersRequest([reply], frame) && IsResponse(env.stores(k), query, reply)
  {
    assert IsResponse(env.stores(k), query, env.process(k, query));
    ResponseHeader(env.stores(k), query, env.process(k, query));
  }

  lemma TransferAnswers(env: Env, k: nat, frame: seq<Octet>, query: Message)
    requires Faithful(env) && frame != [] && env.decode(frame) == Some(query) && IsTransferRequest(query)
    ensures AnswersRequest(TransferReplies(env, k, query), frame)
  {
    if env.selected(k, query).Some? {
      var stream := env.stores(k)[env.selected(k, query).value].TransferStream();
      TransferMessagesIds(query, stream);
    }
  }

  lemma TurnAnswers(env: Env, k: nat, frame: seq<Octet>)
    requires Faithful(env)
    ensures match TurnFor(env, k, frame)
            case Silent => frame == []
            case Last(replies) => AnswersRequest(replies, frame)
            case Next(reply) => AnswersRequest([reply], frame) && IsOrdinary(env, k, [reply], frame)
  {
    if frame != [] && env.decode(frame).Some? {
      var query := env.decode(frame).value;
      if IsTransferRequest(query) {
        TransferAnswers(env, k, frame, query);
      } else {
        OrdinaryAnswers(env, k, frame, query);
      }
    }
  }

  ghost predicate InOrder(env: Env, k: nat, frames: seq<seq<Octet>>, budget: nat, turns: seq<seq<Message>>) {
    && |turns| <= |frames| && |turns| <= budget
    && (forall i :: 0 <= i < |turns| ==> AnswersRequest(turns[i], frames[i]))
    && (forall i :: 0 <= i < |turns| - 1 ==> IsOrdinary(env, k + i, turns[i], frames[i]))
    && (|turns| < |frames| && |turns| < budget ==>
          || frames[|turns|] == []
          || (turns != [] && !IsOrdinary(env, k + |turns| - 1, turns[|turns| - 1], frames[|turns| - 1])))
  }

  lemma PrependTurn(
    env: Env, k: nat, frames: seq<seq<Octet>>, budget: nat, first: seq<Message>, rest: seq<seq<Message>>)
    requires frames != [] && budget > 0
    requires AnswersRequest(first, frames[0]) && IsOrdinary(env, k, first, frames[0])
    requires InOrder(env, k + 1, frames[1..], budget - 1, rest)
    ensures InOrder(env, k, frames, budget, [first] + rest)
  {
    var turns := [first] + rest;
    forall i | 0 < i < |turns| - 1 ensures IsOrdinary(env, k + i, turns[i], frames[i]) {
      assert IsOrdinary(env, (k + 1) + (i - 1), rest[i - 1], frames[1..][i - 1]);
      assert (k + 1) + (i - 1) == k + i;
    }
    if rest != [] {
      assert (k + 1) + |rest| - 1 == k + |turns| - 1;
      assert frames[1..][|rest| - 1] == frames[|turns| - 1];
    }
  }

  /** A connection answers its requests in order, one turn each: at most `budget` of them, every
    * reply with the id of its own request, and only the last turn may be an error reply, a
    * rate-limit refusal or a zone transfer. Requests are left over only when the budget is
    * spent, the last turn ended the connection, or an empty frame did. */
  lemma {:induction false} ConnectionInOrder(env: Env, k: nat, frames: seq<seq<Octet>>, budget: nat)
    requires Faithful(env)
    ensures InOrder(env, k, frames, budget, Turns(env, k, frames, budget))
    decreases budget
  {
    if budget > 0 && frames != [] {
      TurnAnswers(env, k, frames[0]);
      var turn := TurnFor(env, k, frames[0]);
      match turn
      case Silent =>
      case Last(replies) =>
        LastInOrder(env, k, frames, budget, replies);
      case Next(reply) =>
        ConnectionInOrder(env, k + 1, frames[1..], budget - 1);
        PrependTurn(env, k, frames, budget, [reply], Turns(env, k + 1, frames[1..], budget - 1));
    }
  }

  lemma LastInOrder(env: Env, k: nat, frames: seq<seq<Octet>>, budget: nat, replies: seq<Message>)
    requires budget > 0 && frames != [] && TurnFor(env, k, frames[0]) == Last(replies)
    requires AnswersRequest(replies, frames[0])
    ensures InOrder(env, k, frames, budget, [replies])
  {
    LastIsNotOrdinary(env, k, frames[0]);
    assert [replies][0] == replies;
  }

  lemma LastIsNotOrdinary(env: Env, k: nat, frame: seq<Octet>)
    requires TurnFor(env, k, frame).Last?
    ensures !IsOrdinary(env, k, TurnFor(env, k, frame).replies, frame)
  {
  }

  /** Which request gets which code: malformed ones FORMERR under the packet's own id, limited ones
    * REFUSED, both without records; all others their response. */
  lemma TurnCodes(env: Env, k: nat, frame: seq<Octet>)
    requires frame != []
    ensures env.decode(frame) == None ==>
              TurnFor(env, k, frame) == Last([BLANK.(id := IdOf(frame), isResponse := true, rcode := FormErr)])
    ensures env.decode(frame).Some? && env.limited(k) ==>
              TurnFor(env, k, frame)
              == Last([BLANK.(id := env.decode(frame).value.id, isResponse := true, rcode := Refused)])
    ensures env.decode(frame).Some? && !env.limited(k) ==>
              var query := env.decode(frame).value;
              if query.questions != [] && query.questions[0].qtype == 252 then TurnFor(env, k, frame).Last?
              else TurnFor(env, k, frame) == Next(env.process(k, query))
  {
  }

  /** A transfer over TCP delivers the whole stream, one record a message, in order. */
  lemma TransferDelivered(env: Env, k: nat, frame: seq<Octet>)
    requires Faithful(env) && frame != [] && env.decode(frame).Some? && !env.limited(k)
    requires IsTransferRequest(env.decode(frame).value)
    ensures var query := env.decode(frame).value;
            var replies := Turns(env, k, [frame], 1);
            |replies| == 1 &&
            match env.selected(k, query)
            case None => |replies[0]| == 1 && replies[0][0].rcode == Refused && replies[0][0].answers == []
            case Some(origin) =>
              origin in env.stores(k) &&
              var stream := env.stores(k)[origin].TransferStream();
              && |replies[0]| == |stream|
              && forall i :: 0 <= i < |stream| ==>
                   && replies[0][i].answers == [stream[i]]
                   && replies[0][i].questions == [query.questions[0]]
                   && replies[0][i].authoritative && replies[0][i].rcode == NoError
  {
    var query := env.decode(frame).value;
    if env.selected(k, query).Some? {
      TransferMessagesIds(query, env.stores(k)[env.selected(k, query).value].TransferStream());
    }
  }
}
